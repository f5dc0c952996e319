/** The DMA controller's normal copy: one byte at a time, source and destination moving independently. */
module HyppoDma {
  import opened Bytes
  import opened HyppoMemory
  import opened Multiples

  const LONG := 0x1_0000_0000_0000_0000

  /** A job of a DMA list: addresses in bytes, and how each moves. */
  datatype Job = Job(command: byte, count: nat, src: nat, dst: nat,
                     srcBack: bool, srcHold: bool, dstBack: bool, dstHold: bool)

  function Little24(b0: nat, b1: nat, b2: nat): nat {
    b0 + b1 * 0x100 + b2 * 0x1_0000
  }

  /** The job at an address, without an option list. */
  function JobAt(m: Memory, a: nat): Job
    requires GoodMemory(m)
  {
    var count := Little24(Read28(m, a + 1), Read28(m, a + 2), 0);
    var src := Little24(Read28(m, a + 3), Read28(m, a + 4), Read28(m, a + 5));
    var dst := Little24(Read28(m, a + 6), Read28(m, a + 7), Read28(m, a + 8));
    Job(Read28(m, a), if count == 0 then 0x1_0000 else count, src % 0x10_0000, dst % 0x10_0000,
        src / 0x40_0000 % 2 == 1, src / 0x10_0000 % 2 == 1, dst / 0x40_0000 % 2 == 1, dst / 0x10_0000 % 2 == 1)
  }

  /** The bytes of a list: the command, the count with 0 for 65536, and source and destination, 20 bits of address
      each below the bits that hold and turn it. */
  lemma JobIs(m: Memory, a: nat, at: seq<byte>)
    requires GoodMemory(m) && |at| == 9 && forall i | 0 <= i < 9 :: at[i] == Read28(m, a + i)
    ensures var job := JobAt(m, a);
      && job.command == at[0] && job.count == CountOf(at[1], at[2])
      && PointsTo(at[3], at[4], at[5], job.src, job.srcHold, job.srcBack)
      && PointsTo(at[6], at[7], at[8], job.dst, job.dstHold, job.dstBack)
  {
    hide Read28, Little24, PointsTo;
    CountIs(at[1], at[2]);
    PointerIs(at[3], at[4], at[5]);
    PointerIs(at[6], at[7], at[8]);
  }

  function CountOf(low: byte, high: byte): nat {
    if low == 0 && high == 0 then 65536 else low + 256 * high as nat
  }

  predicate PointsTo(low: byte, middle: byte, top: byte, address: nat, hold: bool, back: bool) {
    && address == low + 256 * middle as nat + 65536 * (top as nat % 16)
    && hold == (top as nat / 16 % 2 == 1) && back == (top as nat / 64 % 2 == 1)
  }

  lemma CountIs(low: byte, high: byte)
    ensures var n := Little24(low, high, 0); CountOf(low, high) == if n == 0 then 0x1_0000 else n
  {
  }

  lemma PointerIs(b0: byte, b1: byte, b2: byte)
    ensures var p := Little24(b0, b1, b2);
      PointsTo(b0, b1, b2, p % 0x10_0000, p / 0x10_0000 % 2 == 1, p / 0x40_0000 % 2 == 1)
  {
    var p, low: nat, top: nat := Little24(b0, b1, b2), b0 + 256 * (b1 as nat), b2;
    ModUnique(p, 0x10_0000, top / 16, low + 65536 * (top % 16));
    ModUnique(p, 0x40_0000, top / 64, low + 65536 * (top % 64));
  }

  /** Where a pointer moves; pointers count 256ths of a byte, in 64 bits. */
  function Moved(p: nat, back: bool, hold: bool): nat {
    if hold then p else (if back then p - 0x100 else p + 0x100) % LONG
  }

  function ByteAddress(p: nat): nat {
    p / 0x100 % 0x1_0000_0000
  }

  /** The copy, byte by byte. */
  function Copied(m: Memory, job: Job, src: nat, dst: nat, n: nat): (r: Memory)
    requires GoodMemory(m)
    ensures GoodMemory(r)
    decreases n
  {
    if n == 0 then m
    else
      Copied(Write28(m, ByteAddress(dst), Read28(m, ByteAddress(src))), job,
             Moved(src, job.srcBack, job.srcHold), Moved(dst, job.dstBack, job.dstHold), n - 1)
  }

  /** Whether a copy writes where there is no memory. */
  predicate Misses(job: Job, dst: nat, n: nat)
    decreases n
  {
    n > 0 && (!Mapped(ByteAddress(dst)) || Misses(job, Moved(dst, job.dstBack, job.dstHold), n - 1))
  }

  /** Whether a copy writes to a register that starts another job. */
  predicate Nests(job: Job, dst: nat, n: nat)
    decreases n
  {
    n > 0 && (Starts(ByteAddress(dst)) || Nests(job, Moved(dst, job.dstBack, job.dstHold), n - 1))
  }

  /** Reads a job from a list. */
  method ReadJob(ram: Ram, list: nat) returns (job: Job)
    requires ram.Shape()
    ensures job == JobAt(ram.View(), list)
  {
    hide Read28, Little24;
    var command := ram.Read(list);
    var count0 := ram.Read(list + 1);
    var count1 := ram.Read(list + 2);
    var src0 := ram.Read(list + 3);
    var src1 := ram.Read(list + 4);
    var src2 := ram.Read(list + 5);
    var dst0 := ram.Read(list + 6);
    var dst1 := ram.Read(list + 7);
    var dst2 := ram.Read(list + 8);
    var count, src, dst := Little24(count0, count1, 0), Little24(src0, src1, src2), Little24(dst0, dst1, dst2);
    if count == 0 {
      count := 0x1_0000;
    }
    job := Job(command, count, src % 0x10_0000, dst % 0x10_0000, src / 0x40_0000 % 2 == 1, src / 0x10_0000 % 2 == 1,
               dst / 0x40_0000 % 2 == 1, dst / 0x10_0000 % 2 == 1);
  }

  /** How a job ends: a copy that starts another job is left there, and operations other than copies are
      not modelled. */
  datatype Ending = Done | Missed | Nested | NotCopied

  /** Carries out a copy. */
  method Copy(ram: Ram, job: Job) returns (ending: Ending)
    requires ram.Shape()
    modifies ram.chip, ram.hyppo, ram.colour, ram.io
    ensures ending == Nested <==> Nests(job, job.dst * 0x100, job.count)
    ensures ending != Nested ==> ending == if Misses(job, job.dst * 0x100, job.count) then Missed else Done
    ensures ending != Nested ==>
              ram.View() == Copied(old(ram.View()), job, job.src * 0x100, job.dst * 0x100, job.count)
  {
    ending := Done;
    var src: nat, dst: nat, left := job.src * 0x100, job.dst * 0x100, job.count;
    ghost var from, to := src, dst;
    while left > 0
      invariant Copied(ram.View(), job, src, dst, left) == Copied(old(ram.View()), job, from, to, job.count)
      invariant (ending == Missed || Misses(job, dst, left)) == Misses(job, to, job.count)
      invariant Nests(job, dst, left) == Nests(job, to, job.count) && ending in {Done, Missed}
    {
      left := left - 1;
      var value := ram.Read(src / 0x100 % 0x1_0000_0000);
      var effect := ram.Write(dst / 0x100 % 0x1_0000_0000, value);
      if effect.DmaStarted? {
        return Nested;
      } else if effect.NoMemory? {
        ending := Missed;
      }
      if !job.srcHold {
        src := (if job.srcBack then src - 0x100 else src + 0x100) % LONG;
      }
      if !job.dstHold {
        dst := (if job.dstBack then dst - 0x100 else dst + 0x100) % LONG;
      }
    }
  }

  /** A copy of one byte after another in chip RAM, off the speed switch at address 0. */
  predicate ChipCopy(job: Job) {
    && !job.srcHold && !job.dstHold && job.srcBack == job.dstBack && job.count > 0
    && Inside(CHIPRAM_SIZE, job.src, job.count, job.srcBack) && Inside(CHIPRAM_SIZE, job.dst, job.count, job.srcBack)
    && job.dst > 0 && On(job.dst, job.count - 1, job.srcBack) > 0
  }

  /** Memory `m` with the job's destination holding its source, repeated where the copy overtakes itself. */
  ghost predicate HoldsCopy(m: Memory, job: Job, r: Memory)
    requires GoodMemory(m) && GoodMemory(r)
  {
    var gap := Gap(job.src, job.dst, job.srcBack);
    && r == m.(chip := r.chip)
    && (forall i: nat | i < job.count ::
          && 0 <= On(job.src, Origin(gap, i), job.srcBack) < CHIPRAM_SIZE
          && 0 <= On(job.dst, i, job.srcBack) < CHIPRAM_SIZE
          && r.chip[On(job.dst, i, job.srcBack)] == m.chip[On(job.src, Origin(gap, i), job.srcBack)])
    && (forall a: nat | a < CHIPRAM_SIZE && !(0 <= Gap(job.dst, a, job.srcBack) < job.count) :: r.chip[a] == m.chip[a])
  }

  /** Reads a job from a list and carries it out. */
  method RunJob(ram: Ram, list: nat) returns (ending: Ending)
    requires ram.Shape()
    modifies ram.chip, ram.hyppo, ram.colour, ram.io
    ensures ending == NotCopied <==> JobAt(old(ram.View()), list).command % 4 != 0
    ensures JobAt(old(ram.View()), list).command % 4 == 0 && ChipCopy(JobAt(old(ram.View()), list)) ==>
              ending == Done && HoldsCopy(old(ram.View()), JobAt(old(ram.View()), list), ram.View())
  {
    hide HoldsCopy, ChipCopy, Copied, Misses, Nests, JobAt;
    var job := ReadJob(ram, list);
    if job.command % 4 != 0 {
      return NotCopied;
    }
    if ChipCopy(job) {
      JobResult(ram.View(), job);
    }
    ending := Copy(ram, job);
  }

  // ----- what a copy inside chip RAM does

  /** Address `i` bytes on in the direction of the copy. */
  function On(a: int, i: int, back: bool): int {
    if back then a - i else a + i
  }

  /** The `n` bytes from `a` on, in the direction of the copy, lie inside `size` bytes of memory. */
  predicate Inside(size: nat, a: int, n: nat, back: bool) {
    n > 0 ==> 0 <= a < size && 0 <= On(a, n - 1, back) < size
  }

  /** The same copy on plain bytes. */
  function Serial(s: seq<byte>, src: int, dst: int, n: nat, back: bool): (r: seq<byte>)
    requires Inside(|s|, src, n, back) && Inside(|s|, dst, n, back)
    ensures |r| == |s|
    decreases n
  {
    if n == 0 then s else Serial(s[dst := s[src]], On(src, 1, back), On(dst, 1, back), n - 1, back)
  }

  /** A copy that keeps to chip RAM, and off the speed switch at address 0, is a copy of plain bytes. */
  lemma {:induction false} CopiedInChip(m: Memory, job: Job, src: nat, dst: nat, n: nat)
    requires GoodMemory(m) && !job.srcHold && !job.dstHold && job.srcBack == job.dstBack
    requires Inside(CHIPRAM_SIZE, src, n, job.srcBack) && Inside(CHIPRAM_SIZE, dst, n, job.srcBack)
    requires n > 0 ==> dst > 0 && On(dst, n - 1, job.srcBack) > 0
    ensures Copied(m, job, src * 0x100, dst * 0x100, n) == m.(chip := Serial(m.chip, src, dst, n, job.srcBack))
    decreases n
  {
    hide Write28, Read28, Moved, ByteAddress;
    if n > 0 {
      OneByte(m, src, dst);
      if n > 1 {
        MovedByOne(src, job.srcBack);
        MovedByOne(dst, job.srcBack);
        CopiedInChip(m.(chip := m.chip[dst := m.chip[src]]), job, On(src, 1, job.srcBack), On(dst, 1, job.srcBack),
                     n - 1);
      }
    }
  }

  lemma OneByte(m: Memory, src: nat, dst: nat)
    requires GoodMemory(m) && src < CHIPRAM_SIZE && 0 < dst < CHIPRAM_SIZE
    ensures Write28(m, ByteAddress(dst * 0x100), Read28(m, ByteAddress(src * 0x100)))
         == m.(chip := m.chip[dst := m.chip[src]])
  {
  }

  /** Such a copy finds memory everywhere and starts nothing. */
  lemma {:induction false} PlainInChip(job: Job, dst: nat, n: nat)
    requires !job.dstHold && Inside(CHIPRAM_SIZE, dst, n, job.dstBack)
    ensures !Misses(job, dst * 0x100, n) && !Nests(job, dst * 0x100, n)
    decreases n
  {
    if n > 0 {
      assert ByteAddress(dst * 0x100) == dst;
      if n > 1 {
        MovedByOne(dst, job.dstBack);
        PlainInChip(job, On(dst, 1, job.dstBack), n - 1);
      }
    }
  }

  lemma MovedByOne(a: nat, back: bool)
    requires a < CHIPRAM_SIZE && On(a, 1, back) >= 0
    ensures Moved(a * 0x100, back, false) == On(a, 1, back) * 0x100
  {
  }

  /** The last byte is copied last. */
  lemma {:induction false} SerialSnoc(s: seq<byte>, src: int, dst: int, n: nat, back: bool)
    requires n > 0 && Inside(|s|, src, n, back) && Inside(|s|, dst, n, back)
    ensures var r := Serial(s, src, dst, n - 1, back);
      Serial(s, src, dst, n, back) == r[On(dst, n - 1, back) := r[On(src, n - 1, back)]]
    decreases n
  {
    if n > 1 {
      SerialSnoc(s[dst := s[src]], On(src, 1, back), On(dst, 1, back), n - 1, back);
    }
  }

  /** How far the destination is ahead of the source, in the direction of the copy. */
  function Gap(src: int, dst: int, back: bool): int {
    if back then src - dst else dst - src
  }

  /** Which byte of the source ends up `i` bytes into the destination: where the copy runs into
      what it has written itself, the bytes in between repeat. */
  function Origin(gap: int, i: nat): nat {
    if gap > 0 then i % gap else i
  }

  lemma OriginInside(gap: int, i: nat)
    ensures Origin(gap, i) <= i
    ensures gap > i || gap <= 0 ==> Origin(gap, i) == i
    ensures 0 < gap <= i ==> Origin(gap, i) == Origin(gap, i - gap)
  {
    if gap > i {
      ModUnique(i, gap, 0, i);
    } else if gap > 0 {
      NextMod(i - gap, gap);
      assert i % gap <= i;
    }
  }

  /** Bytes outside the destination keep their values. */
  lemma {:induction false} CopyElsewhere(s: seq<byte>, src: int, dst: int, n: nat, back: bool, a: nat)
    requires Inside(|s|, src, n, back) && Inside(|s|, dst, n, back)
    requires a < |s| && !(0 <= Gap(dst, a, back) < n)
    ensures Serial(s, src, dst, n, back)[a] == s[a]
    decreases n
  {
    if n > 0 {
      CopyElsewhere(s, src, dst, n - 1, back, a);
      SerialSnoc(s, src, dst, n, back);
    }
  }

  /** Byte `i` of the destination comes from byte `i` of the source, or, where the destination is `gap` bytes ahead
      and the copy has reached it, from byte `i % gap`. */
  lemma {:induction false} CopyResult(s: seq<byte>, src: int, dst: int, n: nat, back: bool, i: nat)
    requires Inside(|s|, src, n, back) && Inside(|s|, dst, n, back) && i < n
    ensures 0 <= On(src, Origin(Gap(src, dst, back), i), back) < |s| && 0 <= On(dst, i, back) < |s|
    ensures Serial(s, src, dst, n, back)[On(dst, i, back)] == s[On(src, Origin(Gap(src, dst, back), i), back)]
    decreases n, i
  {
    hide Serial, Origin;
    var gap := Gap(src, dst, back);
    OriginInside(gap, i);
    SerialSnoc(s, src, dst, n, back);
    if i < n - 1 {
      CopyResult(s, src, dst, n - 1, back, i);
    } else if 0 < gap <= i {
      CopyResult(s, src, dst, n - 1, back, i - gap);
    } else {
      CopyElsewhere(s, src, dst, n - 1, back, On(src, i, back));
    }
  }

  /** A copy whose destination is not ahead of its source, or is out of its reach, is a plain block copy. */
  lemma PlainCopy(s: seq<byte>, src: int, dst: int, n: nat, back: bool)
    requires Inside(|s|, src, n, back) && Inside(|s|, dst, n, back)
    requires Gap(src, dst, back) <= 0 || Gap(src, dst, back) >= n
    ensures forall i: nat | i < n :: Serial(s, src, dst, n, back)[On(dst, i, back)] == s[On(src, i, back)]
  {
    forall i: nat | i < n
      ensures Serial(s, src, dst, n, back)[On(dst, i, back)] == s[On(src, i, back)]
    {
      CopyResult(s, src, dst, n, back, i);
      OriginInside(Gap(src, dst, back), i);
    }
  }

  /** What a copy inside chip RAM does: it finds memory, starts nothing, and leaves a copy. */
  lemma JobResult(m: Memory, job: Job)
    requires GoodMemory(m) && ChipCopy(job)
    ensures !Misses(job, job.dst * 0x100, job.count) && !Nests(job, job.dst * 0x100, job.count)
    ensures HoldsCopy(m, job, Copied(m, job, job.src * 0x100, job.dst * 0x100, job.count))
  {
    hide Serial, Copied, Origin, Misses, Nests;
    CopiedInChip(m, job, job.src, job.dst, job.count);
    PlainInChip(job, job.dst, job.count);
    var gap, back := Gap(job.src, job.dst, job.srcBack), job.srcBack;
    var s := Serial(m.chip, job.src, job.dst, job.count, back);
    forall i: nat | i < job.count
      ensures 0 <= On(job.src, Origin(gap, i), back) < CHIPRAM_SIZE && 0 <= On(job.dst, i, back) < CHIPRAM_SIZE
      ensures s[On(job.dst, i, back)] == m.chip[On(job.src, Origin(gap, i), back)]
    {
      CopyResult(m.chip, job.src, job.dst, job.count, back, i);
    }
    forall a: nat | a < CHIPRAM_SIZE && !(0 <= Gap(job.dst, a, back) < job.count)
      ensures s[a] == m.chip[a]
    {
      CopyElsewhere(m.chip, job.src, job.dst, job.count, back, a);
    }
  }

  /** The same in addresses: upward from the first byte, or downward, repeating from `dst` on where it overtakes. */
  lemma CopyAt(m: Memory, job: Job, r: Memory, i: nat)
    requires GoodMemory(m) && GoodMemory(r) && ChipCopy(job) && HoldsCopy(m, job, r) && i < job.count
    ensures !job.srcBack ==>
              var from := job.src + if job.dst > job.src then i % (job.dst - job.src) else i;
              job.dst + i < 0x6_0000 && from < 0x6_0000 && r.chip[job.dst + i] == m.chip[from]
    ensures job.srcBack ==>
              var from := job.src - if job.src > job.dst then i % (job.src - job.dst) else i;
              0 <= job.dst - i < 0x6_0000 && 0 <= from < 0x6_0000 && r.chip[job.dst - i] == m.chip[from]
    ensures r.hyppo == m.hyppo && r.colour == m.colour && r.io == m.io
  {
    assert 0 <= On(job.dst, i, job.srcBack) < CHIPRAM_SIZE;
  }
}
