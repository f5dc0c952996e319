/** The flash updater: loads a core file, and erases and programs a slot until every sector verifies. */
module FlashUpdater {
  import opened Bytes
  import opened Fat32
  import opened Fat32Reader
  import opened FlashChip
  import opened Multiples

  const MAX_TRIES := 10

  /** How an update ends. Stuck stands for the endless loop that follows a sector that cannot be written. */
  datatype Outcome = Updated | Erased | Refused | CannotOpen | Stuck

  function Flat(sectors: seq<seq<byte>>): seq<byte> {
    if sectors == [] then [] else sectors[0] + Flat(sectors[1..])
  }

  /** The memory a file is loaded into: the file, as far as it fits, and what was there before. */
  function Loaded(before: seq<byte>, bytes: seq<byte>): (r: seq<byte>)
    ensures |r| == |before|
  {
    if |bytes| < |before| then bytes + before[|bytes|..] else bytes[..|before|]
  }

  /** Byte by byte: the file's sectors one behind the other, as far as they fit, and then what was there before. */
  lemma LoadedAt(before: seq<byte>, sectors: seq<seq<byte>>, i: nat)
    requires i < |before| && forall k | 0 <= k < |sectors| :: |sectors[k]| == 512
    ensures Loaded(before, Flat(sectors))[i]
         == if i < 512 * |sectors| then sectors[i / 512][i % 512] else before[i]
  {
    FlatLength(sectors);
    if i < 512 * |sectors| {
      FlatAt(sectors, i);
    }
  }

  lemma {:induction false} FlatLength(sectors: seq<seq<byte>>)
    requires forall k | 0 <= k < |sectors| :: |sectors[k]| == 512
    ensures |Flat(sectors)| == 512 * |sectors|
  {
    if sectors != [] {
      FlatLength(sectors[1..]);
    }
  }

  lemma {:induction false} FlatAt(sectors: seq<seq<byte>>, i: nat)
    requires i < 512 * |sectors| && forall k | 0 <= k < |sectors| :: |sectors[k]| == 512
    ensures |Flat(sectors)| == 512 * |sectors| && Flat(sectors)[i] == sectors[i / 512][i % 512]
    decreases |sectors|
  {
    FlatLength(sectors);
    if i >= 512 {
      FlatAt(sectors[1..], i - 512);
      assert i / 512 == (i - 512) / 512 + 1 && i % 512 == (i - 512) % 512;
    }
  }

  lemma {:induction false} FlatConcat(a: seq<seq<byte>>, b: seq<seq<byte>>)
    ensures Flat(a + b) == Flat(a) + Flat(b)
  {
    if a == [] {
      assert a + b == b;
    } else {
      assert (a + b)[1..] == a[1..] + b;
      FlatConcat(a[1..], b);
    }
  }

  lemma FlatOne(sector: seq<byte>)
    ensures Flat([sector]) == sector
  {
    assert [sector][1..] == [];
    assert Flat([sector]) == sector + [];
  }

  lemma LoadedNothing(before: seq<byte>)
    ensures Flat([]) == [] && Loaded(before, Flat([])) == before
  {
  }

  /** One more sector loaded. */
  lemma LoadedNext(before: seq<byte>, done: seq<seq<byte>>, sector: seq<byte>)
    requires |Flat(done)| + |sector| <= |before|
    ensures var at := |Flat(done)|;
      && |Flat(done + [sector])| == at + |sector|
      && Loaded(before, Flat(done + [sector]))
      == Loaded(before, Flat(done))[..at] + sector + Loaded(before, Flat(done))[at + |sector|..]
  {
    hide Flat;
    FlatConcat(done, [sector]);
    FlatOne(sector);
  }

  /** Sectors past the end of the memory make no difference. */
  lemma LoadedFull(before: seq<byte>, done: seq<seq<byte>>, rest: seq<seq<byte>>)
    requires |Flat(done)| >= |before|
    ensures Loaded(before, Flat(done + rest)) == Loaded(before, Flat(done))
  {
    FlatConcat(done, rest);
  }

  /** Whether a sector of the slot at `base` already holds what it should. */
  predicate Matches(flash: seq<byte>, image: seq<byte>, base: nat, a: nat, size: nat) {
    && base <= a && a + size <= |flash| && a - base + size <= |image|
    && flash[a..a + size] == image[a - base..a - base + size]
  }

  /** What has been erased since `log0`, when the slot's sectors below `upto` have been dealt with: whole sectors
      of the slot, each in the size it has there, each at most `most` times, and none that already held what it
      should. */
  ghost predicate Sparing(g: Geometry, flash: seq<byte>, image: seq<byte>, base: nat, upto: nat, most: nat,
                          log0: seq<Erasure>, log: seq<Erasure>)
  {
    && log0 <= log
    && (forall i {:trigger log[i]} | |log0| <= i < |log| ::
          base <= log[i].start < upto && Aligned(g, log[i].start) && log[i].size == SectorSize(g, log[i].start))
    && (forall b: nat {:trigger Count(log, b)} ::
          && Count(log0, b) <= Count(log, b) <= Count(log0, b) + most
          && (Matches(flash, image, base, b, SectorSize(g, b)) || b >= upto ==> Count(log, b) == Count(log0, b)))
  }

  /** What sparing means erase by erase, in a slot at `base` that is to hold `image`. */
  lemma SparingMeans(g: Geometry, flash: seq<byte>, image: seq<byte>, base: nat, upto: nat, most: nat,
                     log0: seq<Erasure>, log: seq<Erasure>, i: nat)
    requires GoodGeometry(g) && Sparing(g, flash, image, base, upto, most, log0, log) && |log0| <= i < |log|
    ensures log[..|log0|] == log0
    ensures var a, size := log[i].start, log[i].size;
      && base <= a < upto && a % size == 0
      && size == (if a < 4096 * g.small then 4096 else if g.bits == 16 then 65536 else 262144)
      && |Places(log, |log0|, a)| <= most
      && !(a + size <= |flash| && a - base + size <= |image| && flash[a..a + size] == image[a - base..a - base + size])
  {
    hide Count, SectorSize, Aligned;
    var a := log[i].start;
    assert log[..|log0|] == log0;
    SectorsAre(g, a);
    assert Count(log, a) <= Count(log0, a) + most;
    CountPlaces(log, |log0|, a);
    var places := Places(log, |log0|, a);
    assert i in places;
  }

  /** One more sector dealt with. */
  lemma SparingNext(g: Geometry, flash: seq<byte>, image: seq<byte>, base: nat, a: nat, most: nat,
                    log0: seq<Erasure>, log: seq<Erasure>, n: nat)
    requires Sparing(g, flash, image, base, a, most, log0, log) && base <= a && Aligned(g, a) && n <= most
    requires Matches(flash, image, base, a, SectorSize(g, a)) ==> n == 0
    requires SectorSize(g, a) > 0
    ensures Sparing(g, flash, image, base, a + SectorSize(g, a), most, log0,
                    log + Times(Erasure(a, SectorSize(g, a)), n))
  {
    hide Matches, SectorSize, Aligned, Count, Times;
    var e := Erasure(a, SectorSize(g, a));
    CountTimes(log, e, n, a);
    assert log0 <= log + Times(e, n);
    forall b: nat
      ensures Count(log + Times(e, n), b) == Count(log, b) + if e.start == b then n else 0
    {
      CountTimes(log, e, n, b);
    }
  }

  lemma SparingNone(g: Geometry, flash: seq<byte>, image: seq<byte>, base: nat, most: nat, log: seq<Erasure>)
    ensures Sparing(g, flash, image, base, base, most, log, log)
  {
  }

  lemma SparingMore(g: Geometry, flash: seq<byte>, image: seq<byte>, base: nat, upto: nat, more: nat, most: nat,
                    log0: seq<Erasure>, log: seq<Erasure>)
    requires Sparing(g, flash, image, base, upto, most, log0, log) && upto <= more
    ensures Sparing(g, flash, image, base, more, most, log0, log)
  {
    hide Matches, Aligned, SectorSize, Count;
  }

  lemma SizeAt(g: Geometry, a: nat)
    ensures SectorSize(g, a) == if g.small * SMALL_SECTOR > a then SMALL_SECTOR else LargeSector(g)
  {
  }

  lemma SlotEnd(g: Geometry, base: nat)
    requires GoodGeometry(g) && base % 0x4_0000 == 0
    ensures (base + g.slotSize) % 0x4_0000 == 0
  {
    var k := base / 0x4_0000;
    assert base == 0x4_0000 * k;
    MultipleMod(0x4_0000, k + 0x10);
    MultipleMod(0x4_0000, k + 0x20);
  }

  lemma MatchesNone(flash: seq<byte>, image: seq<byte>, base: nat)
    requires base <= |flash|
    ensures Matches(flash, image, base, base, 0)
  {
  }

  lemma MatchesNext(now: seq<byte>, after: seq<byte>, image: seq<byte>, base: nat, a: nat, size: nat)
    requires base <= a && Matches(now, image, base, base, a - base)
    requires Outside(now, after, a, a + size) && Matches(after, image, base, a, size)
    ensures Matches(after, image, base, base, a - base + size)
  {
    var n := a - base;
    assert after[base..a] == now[base..a];
    assert after[base..a + size] == after[base..a] + after[a..a + size];
    assert image[..n + size] == image[..n] + image[n..n + size];
    assert image[0..n] == image[..n] && image[0..n + size] == image[..n + size];
  }

  /** The slot at `base`, from flash contents `before` and log `log0`, with its sectors below `upto` dealt with. */
  ghost predicate UpTo(g: Geometry, before: seq<byte>, now: seq<byte>, image: seq<byte>, base: nat, upto: nat,
                       most: nat, log0: seq<Erasure>, log: seq<Erasure>)
  {
    && base <= upto && Outside(before, now, base, upto) && Matches(now, image, base, base, upto - base)
    && Sparing(g, before, image, base, upto, most, log0, log)
  }

  lemma UpToNone(g: Geometry, flash: seq<byte>, image: seq<byte>, base: nat, most: nat, log: seq<Erasure>)
    requires base <= |flash|
    ensures UpTo(g, flash, flash, image, base, base, most, log, log)
  {
    SparingNone(g, flash, image, base, most, log);
    MatchesNone(flash, image, base);
  }

  /** The next sector, which is as it was, has been tried `tries` times. */
  lemma UpToNext(g: Geometry, before: seq<byte>, now: seq<byte>, after: seq<byte>, image: seq<byte>, base: nat, a: nat,
                 most: nat, log0: seq<Erasure>, log: seq<Erasure>, tries: nat)
    requires UpTo(g, before, now, image, base, a, most, log0, log) && Aligned(g, a) && tries <= most
    requires Outside(now, after, a, a + SectorSize(g, a)) && a - base + SectorSize(g, a) <= |image|
    requires tries == 0 <==> Matches(now, image, base, a, SectorSize(g, a))
    ensures var log1 := log + Times(Erasure(a, SectorSize(g, a)), tries);
      && Sparing(g, before, image, base, a + SectorSize(g, a), most, log0, log1)
      && Outside(before, after, base, a + SectorSize(g, a))
      && (Matches(after, image, base, a, SectorSize(g, a)) ==>
            UpTo(g, before, after, image, base, a + SectorSize(g, a), most, log0, log1))
  {
    hide Matches, Sparing, SectorSize, Aligned, Times;
    var size := SectorSize(g, a);
    PagesInSector(g, a);
    assert Matches(before, image, base, a, size) <==> Matches(now, image, base, a, size) by {
      SameBefore(before, now, image, base, a, size);
    }
    SparingNext(g, before, image, base, a, most, log0, log, tries);
    if Matches(after, image, base, a, size) {
      MatchesNext(now, after, image, base, a, size);
    }
  }

  /** A sector that has not been reached yet is as it was. */
  lemma SameBefore(before: seq<byte>, now: seq<byte>, image: seq<byte>, base: nat, a: nat, size: nat)
    requires Outside(before, now, base, a)
    ensures Matches(now, image, base, a, size) <==> Matches(before, image, base, a, size)
  {
    if a + size <= |now| {
      assert now[a..a + size] == before[a..a + size];
    }
  }

  lemma UpToAll(g: Geometry, before: seq<byte>, now: seq<byte>, image: seq<byte>, base: nat, most: nat,
                log0: seq<Erasure>, log: seq<Erasure>)
    requires UpTo(g, before, now, image, base, base + |image|, most, log0, log)
    ensures now[base..base + |image|] == image
    ensures Sparing(g, before, image, base, base + |image|, most, log0, log)
    ensures Outside(before, now, base, base + |image|)
  {
    assert image[0..|image|] == image;
  }

  /** The sectors of a slot, one erase each. */
  function EverySector(g: Geometry, a: nat, end: nat): seq<Erasure>
    decreases end - a
  {
    PagesInSector(g, a);
    if a >= end then [] else [Erasure(a, SectorSize(g, a))] + EverySector(g, a + SectorSize(g, a), end)
  }

  /** They follow each other from the first address to the end, each in its size. */
  lemma {:induction false} EverySectorIs(g: Geometry, a: nat, end: nat)
    requires GoodGeometry(g) && Aligned(g, a) && end % 0x4_0000 == 0 && a <= end
    ensures var log := EverySector(g, a, end);
      && (log == [] <==> a == end)
      && (log != [] ==> log[0].start == a && log[|log| - 1].start + log[|log| - 1].size == end)
      && (forall i | 0 <= i < |log| - 1 :: log[i + 1].start == log[i].start + log[i].size)
      && (forall i | 0 <= i < |log| ::
            log[i].size == if log[i].start < 4096 * g.small then 4096 else if g.bits == 16 then 65536 else 262144)
    decreases end - a
  {
    hide SectorSize, Aligned;
    if a < end {
      SectorsTile(g, a, end);
      SectorsAre(g, a);
      PagesInSector(g, a);
      EverySectorIs(g, a + SectorSize(g, a), end);
    }
  }

  /** A sector in `[from, end)` programmed below `upto`, and blank from there on. */
  ghost predicate Partly(flash: seq<byte>, image: seq<byte>, base: nat, from: nat, upto: nat, end: nat) {
    && base <= from <= upto <= end <= |flash| && end - base <= |image|
    && (forall k | from <= k < upto :: flash[k] == image[k - base])
    && (forall k | upto <= k < end :: flash[k] == 0xff)
  }

  lemma OutsideNone(s: seq<byte>, start: nat, end: nat)
    requires start <= end <= |s|
    ensures Outside(s, s, start, end)
  {
  }

  lemma OutsideTwice(a: seq<byte>, b: seq<byte>, c: seq<byte>, start: nat, end: nat)
    requires Outside(a, b, start, end) && Outside(b, c, start, end)
    ensures Outside(a, c, start, end)
  {
  }

  lemma PartlyFirst(flash: seq<byte>, image: seq<byte>, base: nat, from: nat, end: nat)
    requires base <= from <= end <= |flash| && end - base <= |image|
    ensures Blank(flash[from..end]) ==> Partly(flash, image, base, from, from, end)
  {
    if Blank(flash[from..end]) {
      forall k | from <= k < end
        ensures flash[k] == 0xff
      {
        assert flash[from..end][k - from] == flash[k];
      }
    }
  }

  lemma PartlyNext(before: seq<byte>, after: seq<byte>, image: seq<byte>, base: nat, from: nat, at: nat, end: nat,
                   data: seq<byte>)
    requires Partly(before, image, base, from, at, end) && at + |data| <= end
    requires Outside(before, after, at, at + |data|) && data == image[at - base..at - base + |data|]
    requires forall i | 0 <= i < |data| :: after[at + i] == AndByte(before[at + i], data[i])
    ensures Partly(after, image, base, from, at + |data|, end)
  {
    forall k | at <= k < at + |data|
      ensures after[k] == image[k - base]
    {
      assert data[k - at] == image[k - base];
    }
  }

  lemma PartlyLast(flash: seq<byte>, image: seq<byte>, base: nat, from: nat, end: nat)
    requires Partly(flash, image, base, from, end, end)
    ensures Matches(flash, image, base, from, end - from)
  {
  }

  lemma Slices(s: seq<byte>, start: nat, size: nat, at: nat)
    requires start + size <= |s| && at + SECTOR <= size
    ensures s[start..start + size][at..at + SECTOR] == s[start + at..start + at + SECTOR]
  {
    var one, other := s[start..start + size][at..at + SECTOR], s[start + at..start + at + SECTOR];
    assert |one| == |other| && forall i | 0 <= i < SECTOR :: one[i] == other[i];
  }

  lemma SameSoFar(a: seq<byte>, f: seq<byte>, at: nat)
    requires |a| == |f| && at + SECTOR <= |a| && a[..at] == f[..at]
    ensures if a[at..at + SECTOR] == f[at..at + SECTOR] then a[..at + SECTOR] == f[..at + SECTOR] else a != f
  {
    assert a[..at + SECTOR] == a[..at] + a[at..at + SECTOR];
    assert f[..at + SECTOR] == f[..at] + f[at..at + SECTOR];
  }

  lemma MatchesIs(flash: seq<byte>, image: seq<byte>, base: nat, a: nat, size: nat)
    requires base <= a && a + size <= |flash| && a - base + size <= |image|
    ensures Matches(flash, image, base, a, size) <==> flash[a..a + size] == image[a - base..a - base + size]
  {
  }

  lemma BlankAt(flash: seq<byte>, start: nat, size: nat)
    requires start + size <= |flash| && Blank(flash[start..start + size])
    ensures forall k | start <= k < start + size :: flash[k] == 0xff
  {
    forall k | start <= k < start + size
      ensures flash[k] == 0xff
    {
      assert flash[start..start + size][k - start] == flash[k];
    }
  }

  /** From `base` on the flash holds a file, sector by sector, as far as it fits, and what was in memory before
      behind a shorter file. */
  ghost predicate HoldsFile(flash: seq<byte>, base: nat, sectors: seq<seq<byte>>, before: seq<byte>) {
    && base + |before| <= |flash| && (forall k | 0 <= k < |sectors| :: |sectors[k]| == 512)
    && (forall a | base <= a < base + |before| ::
          var i := a - base; flash[a] == if i < 512 * |sectors| then sectors[i / 512][i % 512] else before[i])
  }

  lemma Arrived(flash: seq<byte>, base: nat, before: seq<byte>, sectors: seq<seq<byte>>)
    requires base + |before| <= |flash| && forall k | 0 <= k < |sectors| :: |sectors[k]| == 512
    requires flash[base..base + |before|] == Loaded(before, Flat(sectors))
    ensures HoldsFile(flash, base, sectors, before)
  {
    hide Loaded, Flat;
    forall a | base <= a < base + |before|
      ensures var i := a - base; flash[a] == if i < 512 * |sectors| then sectors[i / 512][i % 512] else before[i]
    {
      LoadedAt(before, sectors, a - base);
      assert flash[base..base + |before|][a - base] == flash[a];
    }
  }

  class Updater {
    const chip: Chip
    const reader: Reader
    const buffer: array<byte>
    const attic: array<byte>
    var addr: nat

    constructor (chip: Chip, reader: Reader, attic: array<byte>)
      ensures this.chip == chip && this.reader == reader && this.buffer == reader.buffer && this.attic == attic
    {
      this.chip, this.reader, this.buffer, this.attic, addr := chip, reader, reader.buffer, attic, 0;
    }

    predicate Shape() {
      && GoodGeometry(chip.g) && attic.Length == chip.g.slotSize && buffer.Length == SECTOR && reader.buffer == buffer
      && buffer != chip.flash && buffer != attic && attic != chip.flash
    }

    // ----- loading

    /** Loads the next sector of the open file, if there is one. */
    method LoadNext() returns (bytesReturned: nat)
      requires Shape() && reader.FileValid() && addr + SECTOR <= attic.Length
      modifies reader, buffer, attic
      ensures reader.FileValid()
      ensures bytesReturned == 0 <==> old(reader.FileLeft()) == []
      ensures bytesReturned == 0 ==> reader.FileLeft() == [] && attic[..] == old(attic[..])
      ensures bytesReturned != 0 ==>
                && reader.FileLeft() == old(reader.FileLeft())[1..]
                && attic[..] == old(attic[..addr]) + old(reader.FileLeft())[0] + old(attic[addr + SECTOR..])
    {
      hide Stands, Chain, Left, GoodVolume;
      bytesReturned := reader.Read512();
      if bytesReturned != 0 {
        forall i | 0 <= i < SECTOR {
          attic[addr + i] := buffer[i];
        }
      }
    }

    /** Loads the open file, as far as it fits. */
    method LoadFile()
      requires Shape() && reader.FileValid()
      modifies reader, buffer, attic, this`addr
      ensures reader.FileValid()
      ensures attic[..] == Loaded(old(attic[..]), Flat(old(reader.FileLeft())))
    {
      hide Stands, Chain, Left, GoodVolume, Loaded, Flat;
      ghost var done, left := [], reader.FileLeft();
      LoadedNothing(attic[..]);
      addr := 0;
      while addr < attic.Length
        invariant reader.FileValid() && left == reader.FileLeft() && done + left == old(reader.FileLeft())
        invariant addr == |Flat(done)| <= attic.Length && addr % SECTOR == 0
        invariant attic[..] == Loaded(old(attic[..]), Flat(done))
        decreases attic.Length - addr
      {
        var bytesReturned := LoadNext();
        if bytesReturned == 0 {
          break;
        }
        LoadedNext(old(attic[..]), done, left[0]);
        assert done + left == done + [left[0]] + left[1..];
        done, left := done + [left[0]], left[1..];
        addr := addr + SECTOR;
      }
      if left == [] {
        assert done + [] == done;
      } else {
        LoadedFull(old(attic[..]), done, left);
      }
    }

    // ----- flashing

    /** The chip compares a sector's worth of bytes with the buffer. */
    method VerifyInPlace(a: nat) returns (same: bool)
      requires Shape() && a + SECTOR <= chip.flash.Length
      ensures same <==> chip.flash[a..a + SECTOR] == buffer[..]
    {
      same := chip.flash[a..a + SECTOR] == buffer[..];
    }

    method SectorSame(atticAddr: nat, flashAddr: nat) returns (same: bool)
      requires Shape() && atticAddr + SECTOR <= attic.Length && flashAddr + SECTOR <= chip.flash.Length
      modifies buffer
      ensures same <==> chip.flash[flashAddr..flashAddr + SECTOR] == attic[atticAddr..atticAddr + SECTOR]
    {
      forall i | 0 <= i < SECTOR {
        buffer[i] := attic[atticAddr + i];
      }
      assert buffer[..] == attic[atticAddr..atticAddr + SECTOR];
      same := VerifyInPlace(flashAddr);
    }

    /** Compares a region of the flash with one of the memory, by way of the buffer. */
    method RegionDiffers(atticAddr: nat, flashAddr: nat, size: nat) returns (differs: bool)
      requires Shape() && atticAddr + size <= attic.Length && flashAddr + size <= chip.flash.Length
      requires size % SECTOR == 0
      modifies buffer
      ensures differs <==> chip.flash[flashAddr..flashAddr + size] != attic[atticAddr..atticAddr + size]
    {
      var at, left := 0, size;
      ghost var a, f := attic[atticAddr..atticAddr + size], chip.flash[flashAddr..flashAddr + size];
      while left > 0
        invariant 0 <= left && at + left == size && left % SECTOR == 0
        invariant a[..at] == f[..at]
        invariant a == attic[atticAddr..atticAddr + size] && f == chip.flash[flashAddr..flashAddr + size]
      {
        StepsLeft(left, SECTOR);
        var same := SectorSame(atticAddr + at, flashAddr + at);
        Slices(attic[..], atticAddr, size, at);
        Slices(chip.flash[..], flashAddr, size, at);
        SameSoFar(a, f, at);
        if !same {
          return true;
        }
        at := at + SECTOR;
        left := left - SECTOR;
      }
      assert a[..size] == a && f[..size] == f;
      return false;
    }

    /** Erases the sector at an address; the chip is told the granularity that goes with the updater's own address. */
    method EraseSector(address: nat)
      requires Shape() && EraseStart(chip.g, addr, address) + EraseSize(chip.g, addr) <= chip.flash.Length
      modifies chip, chip.flash
      ensures var start, size := EraseStart(chip.g, addr, address), EraseSize(chip.g, addr);
        && chip.erasures == old(chip.erasures) + [Erasure(start, size)]
        && Outside(old(chip.flash[..]), chip.flash[..], start, start + size)
        && (chip.reliable ==> Blank(chip.flash[start..start + size]))
    {
      hide Outside, Blank;
      if addr / 0x1000 >= chip.g.small {
        chip.Erase(address - address % LargeSector(chip.g), LargeSector(chip.g));
      } else {
        chip.Erase(address - address % SMALL_SECTOR, SMALL_SECTOR);
      }
    }

    /** Programs the sector at the updater's address from the memory, page by page. */
    method ProgramSector(base: nat, size: nat)
      requires Shape() && Aligned(chip.g, addr) && size == SectorSize(chip.g, addr)
      requires base <= addr && addr - base + size <= attic.Length && addr + size <= chip.flash.Length
      modifies chip.flash
      ensures Outside(old(chip.flash[..]), chip.flash[..], addr, addr + size)
      ensures chip.reliable && Blank(old(chip.flash[addr..addr + size])) ==>
                Matches(chip.flash[..], attic[..], base, addr, size)
    {
      hide SectorSize, SectorStart, Aligned, Partly, Matches, AndByte, Outside, Blank;
      ghost var blank, image := chip.reliable && Blank(chip.flash[addr..addr + size]), attic[..];
      var waddr := addr;
      PagesInSector(chip.g, addr);
      PartlyFirst(chip.flash[..], image, base, addr, addr + size);
      OutsideNone(chip.flash[..], addr, addr + size);
      while waddr < addr + size
        invariant addr <= waddr <= addr + size && (addr + size - waddr) % PAGE == 0
        invariant Outside(old(chip.flash[..]), chip.flash[..], addr, addr + size)
        invariant blank ==> Partly(chip.flash[..], image, base, addr, waddr, addr + size)
      {
        StepsLeft(addr + size - waddr, PAGE);
        InSector(chip.g, addr, waddr);
        ghost var before := chip.flash[..];
        var data := attic[waddr - base..waddr - base + PAGE];
        chip.Program(waddr, data);
        OutsideTwice(old(chip.flash[..]), before, chip.flash[..], addr, addr + size);
        if blank {
          PartlyNext(before, chip.flash[..], image, base, addr, waddr, addr + size, data);
        }
        waddr := waddr + PAGE;
      }
      if blank {
        PartlyLast(chip.flash[..], image, base, addr, addr + size);
      }
    }

    /** One try at a sector. */
    method ReflashOnce(base: nat, size: nat)
      requires Shape() && Aligned(chip.g, addr) && size == SectorSize(chip.g, addr)
      requires base <= addr && addr - base + size <= attic.Length && addr + size <= chip.flash.Length
      modifies chip, chip.flash
      ensures Outside(old(chip.flash[..]), chip.flash[..], addr, addr + size)
      ensures chip.erasures == old(chip.erasures) + [Erasure(addr, size)]
      ensures chip.reliable ==> Matches(chip.flash[..], attic[..], base, addr, size)
    {
      hide SectorSize, Aligned, EraseSize, EraseStart, Blank, Matches;
      EraseAligns(chip.g, addr);
      EraseSector(addr);
      ProgramSector(base, size);
    }

    /** Erases and programs one sector until it verifies, or ten times. */
    method ReflashSector(base: nat, size: nat) returns (stuck: bool, ghost tries: nat)
      requires Shape() && Aligned(chip.g, addr) && size == SectorSize(chip.g, addr)
      requires base <= addr && addr - base + size <= attic.Length && addr + size <= chip.flash.Length
      modifies buffer, chip, chip.flash
      ensures Outside(old(chip.flash[..]), chip.flash[..], addr, addr + size)
      ensures chip.erasures == old(chip.erasures) + Times(Erasure(addr, size), tries)
      ensures tries <= if chip.reliable then 1 else MAX_TRIES
      ensures tries == 0 <==> Matches(old(chip.flash[..]), attic[..], base, addr, size)
      ensures if stuck then !chip.reliable && tries == MAX_TRIES
              else Matches(chip.flash[..], attic[..], base, addr, size)
    {
      hide SectorSize, SectorStart, Aligned, Count, Matches;
      var t := 0;
      PagesInSector(chip.g, addr);
      ghost var image, before := attic[..], chip.flash[..];
      while t < 11
        invariant 0 <= t <= 10 && attic[..] == image
        invariant Outside(before, chip.flash[..], addr, addr + size)
        invariant chip.erasures == old(chip.erasures) + Times(Erasure(addr, size), t)
        invariant t == 0 ==> chip.flash[..] == before
        invariant t > 0 ==> !Matches(before, image, base, addr, size)
        invariant t > 0 && chip.reliable ==> t == 1 && Matches(chip.flash[..], image, base, addr, size)
      {
        var differs := RegionDiffers(addr - base, addr, size);
        MatchesIs(chip.flash[..], image, base, addr, size);
        if !differs {
          break;
        }
        if t == 10 {
          return true, t;
        }
        t := t + 1;
        ReflashOnce(base, size);
      }
      return false, t;
    }

    /** Goes through a slot sector by sector. */
    method FlashSlot(base: nat) returns (outcome: Outcome)
      requires Shape() && base % 0x4_0000 == 0 && Aligned(chip.g, base) && base + attic.Length <= chip.flash.Length
      modifies this`addr, buffer, chip, chip.flash
      ensures Outside(old(chip.flash[..]), chip.flash[..], base, base + attic.Length)
      ensures outcome == Updated || (outcome == Stuck && !chip.reliable)
      ensures outcome == Updated ==> chip.flash[base..base + attic.Length] == attic[..]
      ensures Sparing(chip.g, old(chip.flash[..]), attic[..], base, base + attic.Length,
                      if chip.reliable then 1 else MAX_TRIES, old(chip.erasures), chip.erasures)
    {
      hide SectorSize, Aligned, Sparing, Matches, UpTo, Times;
      ghost var image, before, log := attic[..], chip.flash[..], chip.erasures;
      ghost var most := if chip.reliable then 1 else MAX_TRIES;
      SlotEnd(chip.g, base);
      addr := base;
      UpToNone(chip.g, before, image, base, most, log);
      while addr < base + attic.Length
        invariant base <= addr <= base + attic.Length && Aligned(chip.g, addr) && attic[..] == image
        invariant UpTo(chip.g, before, chip.flash[..], image, base, addr, most, log, chip.erasures)
      {
        var size := if chip.g.small * SMALL_SECTOR > addr then SMALL_SECTOR else LargeSector(chip.g);
        assert size == SectorSize(chip.g, addr) by { SizeAt(chip.g, addr); }
        SectorsTile(chip.g, addr, base + attic.Length);
        ghost var now, erasures := chip.flash[..], chip.erasures;
        var stuck, tries := ReflashSector(base, size);
        UpToNext(chip.g, before, now, chip.flash[..], image, base, addr, most, log, erasures, tries);
        if stuck {
          SparingMore(chip.g, before, image, base, addr + size, base + attic.Length, most, log, chip.erasures);
          return Stuck;
        }
        addr := addr + size;
      }
      UpToAll(chip.g, before, chip.flash[..], image, base, most, log, chip.erasures);
      return Updated;
    }

    /** Erases a slot, every sector once. */
    method EraseSlot(base: nat)
      requires Shape() && base % 0x4_0000 == 0 && Aligned(chip.g, base) && base + attic.Length <= chip.flash.Length
      modifies this`addr, chip, chip.flash
      ensures Outside(old(chip.flash[..]), chip.flash[..], base, base + attic.Length)
      ensures chip.reliable ==> Blank(chip.flash[base..base + attic.Length])
      ensures chip.erasures == old(chip.erasures) + EverySector(chip.g, base, base + attic.Length)
    {
      hide SectorSize, Aligned, EverySector;
      ghost var before, end := chip.flash[..], base + attic.Length;
      SlotEnd(chip.g, base);
      addr := base;
      while addr < base + attic.Length
        invariant base <= addr <= base + attic.Length && Aligned(chip.g, addr)
        invariant Outside(before, chip.flash[..], base, addr)
        invariant chip.reliable ==> forall k | base <= k < addr :: chip.flash[k] == 0xff
        invariant chip.erasures + EverySector(chip.g, addr, end) == old(chip.erasures) + EverySector(chip.g, base, end)
      {
        var size := if chip.g.small * SMALL_SECTOR > addr then SMALL_SECTOR else LargeSector(chip.g);
        assert size == SectorSize(chip.g, addr) by { SizeAt(chip.g, addr); }
        SectorsTile(chip.g, addr, end);
        ghost var log := chip.erasures;
        EraseAligned(size);
        NextSector(chip.g, log, addr, end);
        addr := addr + size;
      }
      assert EverySector(chip.g, end, end) == [] by { NextSector(chip.g, [], end, end); }
      assert chip.erasures + [] == chip.erasures;
    }

    method EraseAligned(size: nat)
      requires Shape() && Aligned(chip.g, addr) && size == SectorSize(chip.g, addr) && addr + size <= chip.flash.Length
      modifies chip, chip.flash
      ensures Outside(old(chip.flash[..]), chip.flash[..], addr, addr + size)
      ensures chip.erasures == old(chip.erasures) + [Erasure(addr, size)]
      ensures chip.reliable ==> forall k | addr <= k < addr + size :: chip.flash[k] == 0xff
    {
      hide SectorSize, Aligned, EraseSize, EraseStart, Outside, Blank;
      EraseAligns(chip.g, addr);
      EraseSector(addr);
      if chip.reliable {
        BlankAt(chip.flash[..], addr, size);
      }
    }

    // ----- the whole update

    /** Updates a slot from the chosen file, or erases it. Slot `slot` is the `slotSize` bytes from
        `slot * slotSize` on. Whether the file is made for this machine, and whether the user confirms an erase,
        is decided elsewhere. */
    method ReflashSlot(slot: nat, selectedFile: nat, filename: seq<byte>, modelAccepted: bool, confirmed: bool)
      returns (outcome: Outcome, ghost base: nat, ghost end: nat)
      requires Shape() && slot * chip.g.slotSize + chip.g.slotSize <= chip.flash.Length
      requires reader.FileValid() && CanOpen(reader.v, filename)
      modifies this`addr, reader, buffer, attic, chip, chip.flash
      ensures base == slot * chip.g.slotSize && end == base + chip.g.slotSize
      ensures Outside(old(chip.flash[..]), chip.flash[..], base, end)
      ensures selectedFile == 0 || (selectedFile == 1 && slot == 0) ==> outcome == Refused
      ensures outcome in {Refused, CannotOpen} ==>
                chip.flash[..] == old(chip.flash[..]) && chip.erasures == old(chip.erasures)
      ensures selectedFile > 1 && modelAccepted && chip.reliable && FileNamed(reader.v, filename).Some? ==>
                outcome == Updated
      ensures outcome == CannotOpen <==> selectedFile > 1 && FileNamed(reader.v, filename) == None
      ensures outcome == Erased <==> selectedFile == 1 && slot != 0 && confirmed
      ensures outcome == Erased ==>
                && chip.erasures == old(chip.erasures) + EverySector(chip.g, base, end)
                && (chip.reliable ==> forall a | base <= a < end :: chip.flash[a] == 0xff)
      ensures outcome == Updated ==>
                && FileNamed(reader.v, filename).Some?
                && var sectors := Contents(reader.v, FileNamed(reader.v, filename).value);
                   HoldsFile(chip.flash[..], base, sectors, old(attic[..]))
      ensures outcome in {Updated, Stuck} ==>
                && FileNamed(reader.v, filename).Some?
                && var image := Loaded(old(attic[..]), Flat(Contents(reader.v, FileNamed(reader.v, filename).value)));
                   Sparing(chip.g, old(chip.flash[..]), image, base, end, 10, old(chip.erasures), chip.erasures)
    {
      hide Sparing, Aligned, SectorSize, Matches, Loaded, Flat, FileNamed, Contents, Stands, Chain, Left, GoodVolume,
           EverySector;
      SlotsAligned(chip.g, slot);
      SlotsApart(chip.g, slot, slot);
      base, end := SlotBase(chip.g, slot), SlotBase(chip.g, slot) + chip.g.slotSize;
      outcome := Refused;
      if selectedFile == 0 {
        return;
      }
      if selectedFile == 1 && slot == 0 {
        return;
      }
      if selectedFile > 1 {
        outcome := Update(SlotBase(chip.g, slot), filename, modelAccepted);
        if outcome == Updated {
          Arrived(chip.flash[..], base, old(attic[..]), Contents(reader.v, FileNamed(reader.v, filename).value));
        }
      } else {
        if !confirmed {
          return;
        }
        EraseSlot(SlotBase(chip.g, slot));
        if chip.reliable {
          BlankAt(chip.flash[..], base, attic.Length);
        }
        outcome := Erased;
      }
    }

    method Update(base: nat, filename: seq<byte>, modelAccepted: bool) returns (outcome: Outcome)
      requires Shape() && base % 0x4_0000 == 0 && Aligned(chip.g, base) && base + attic.Length <= chip.flash.Length
      requires reader.FileValid() && CanOpen(reader.v, filename)
      modifies this`addr, reader, buffer, attic, chip, chip.flash
      ensures Outside(old(chip.flash[..]), chip.flash[..], base, base + attic.Length)
      ensures outcome != Erased
      ensures outcome == CannotOpen <==> FileNamed(reader.v, filename) == None
      ensures outcome == Refused <==> FileNamed(reader.v, filename).Some? && !modelAccepted
      ensures outcome in {Refused, CannotOpen} ==>
                chip.flash[..] == old(chip.flash[..]) && chip.erasures == old(chip.erasures)
      ensures chip.reliable ==> outcome != Stuck
      ensures outcome in {Updated, Stuck} ==>
                && FileNamed(reader.v, filename).Some?
                && var image := Loaded(old(attic[..]), Flat(Contents(reader.v, FileNamed(reader.v, filename).value)));
                   && (outcome == Updated ==> chip.flash[base..base + attic.Length] == image)
                   && Sparing(chip.g, old(chip.flash[..]), image, base, base + attic.Length, MAX_TRIES,
                              old(chip.erasures), chip.erasures)
    {
      hide Sparing, Aligned, SectorSize, Matches, Loaded, Flat, FileNamed, Contents, Stands, Chain, Left, GoodVolume;
      var fd := reader.Open(filename);
      if fd == 0xff {
        return CannotOpen;
      }
      var bytesReturned := reader.Read512();
      if !modelAccepted {
        return Refused;
      }
      fd := reader.Open(filename);
      LoadFile();
      outcome := FlashSlot(base);
      if chip.reliable {
        SparingWeaker(chip.g, old(chip.flash[..]), attic[..], base, base + attic.Length, old(chip.erasures),
                      chip.erasures);
      }
    }
  }

  lemma SparingWeaker(g: Geometry, flash: seq<byte>, image: seq<byte>, base: nat, upto: nat,
                      log0: seq<Erasure>, log: seq<Erasure>)
    requires Sparing(g, flash, image, base, upto, 1, log0, log)
    ensures Sparing(g, flash, image, base, upto, MAX_TRIES, log0, log)
  {
    hide Matches, Aligned, SectorSize, Count;
  }

  lemma NextSector(g: Geometry, log: seq<Erasure>, a: nat, end: nat)
    ensures a >= end ==> EverySector(g, a, end) == []
    ensures a < end ==>
              (log + EverySector(g, a, end)
               == log + [Erasure(a, SectorSize(g, a))] + EverySector(g, a + SectorSize(g, a), end))
  {
    PagesInSector(g, a);
  }
}
