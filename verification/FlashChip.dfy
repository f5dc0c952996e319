/** The flash chip: its sectors and slots, and what its commands may do to them. */
module FlashChip {
  import opened Bytes
  import opened Bits
  import opened Multiples

  const SMALL_SECTOR := 4096
  const PAGE := 256

  /** The layout of a chip: `small` sectors of 4 KiB at the bottom, then sectors of `2^bits` bytes; and the slots. */
  datatype Geometry = Geometry(small: nat, bits: nat, slotSize: nat)

  /** The chips the updater knows, with the boundary at a large sector, and the two slot sizes. */
  predicate GoodGeometry(g: Geometry) {
    match g
    case Geometry(small, bits, slotSize) =>
      && (bits == 16 || bits == 18) && SMALL_SECTOR * small % LargeSector(g) == 0
      && (slotSize == 4 * 0x10_0000 || slotSize == 8 * 0x10_0000)
  }

  function LargeSector(g: Geometry): nat {
    if g.bits == 16 then 0x1_0000 else 0x4_0000
  }

  /** The size of the sector at an address. */
  function SectorSize(g: Geometry, a: nat): nat {
    if g.small * SMALL_SECTOR > a then SMALL_SECTOR else LargeSector(g)
  }

  function SectorStart(g: Geometry, a: nat): nat {
    a - a % SectorSize(g, a)
  }

  predicate Aligned(g: Geometry, a: nat) {
    a % SectorSize(g, a) == 0
  }

  /** What is erased when the erase is told the granularity by one address, in 4 KiB units, and the place by another. */
  function EraseSize(g: Geometry, addr: nat): nat {
    if addr / 0x1000 >= g.small then LargeSector(g) else SMALL_SECTOR
  }

  function EraseStart(g: Geometry, addr: nat, address: nat): nat {
    address - address % EraseSize(g, addr)
  }

  /** Where both are the start of a sector, that sector is erased. */
  lemma EraseAligns(g: Geometry, a: nat)
    ensures EraseSize(g, a) == SectorSize(g, a)
    ensures Aligned(g, a) ==> EraseStart(g, a, a) == a
  {
  }

  function SlotBase(g: Geometry, slot: nat): nat {
    g.slotSize * slot
  }

  /** Slots lie one behind the other from address 0 on. */
  lemma SlotsApart(g: Geometry, slot: nat, other: nat)
    ensures SlotBase(g, 0) == 0 && SlotBase(g, slot) == slot * g.slotSize
    ensures slot < other ==> slot * g.slotSize + g.slotSize <= other * g.slotSize
  {
    if slot < other {
      TimesMonotone(g.slotSize, slot + 1, other);
      assert g.slotSize * (slot + 1) == slot * g.slotSize + g.slotSize;
    }
  }

  /** The sectors of a chip: 4 KiB ones below the boundary, and 64 or 256 KiB ones above. */
  lemma SectorsAre(g: Geometry, a: nat)
    requires GoodGeometry(g)
    ensures SectorSize(g, a) == if a < 4096 * g.small then 4096 else if g.bits == 16 then 65536 else 262144
    ensures Aligned(g, a) <==> a % SectorSize(g, a) == 0
  {
  }

  lemma LargeMultiple(a: nat)
    requires a % 0x4_0000 == 0
    ensures a % 0x1_0000 == 0 && a % SMALL_SECTOR == 0
  {
    FinerMultiple(a, 0x1_0000, 4);
    FinerMultiple(a, SMALL_SECTOR, 0x40);
  }

  /** Slots start at multiples of the largest sector. */
  lemma SlotsAligned(g: Geometry, slot: nat)
    requires GoodGeometry(g)
    ensures SlotBase(g, slot) % 0x4_0000 == 0 && Aligned(g, SlotBase(g, slot))
    ensures (SlotBase(g, slot) + g.slotSize) % 0x4_0000 == 0
  {
    var k := if g.slotSize == 4 * 0x10_0000 then 0x10 * slot else 0x20 * slot;
    assert SlotBase(g, slot) == 0x4_0000 * k;
    MultipleMod(0x4_0000, k);
    MultipleMod(0x4_0000, k + 0x10);
    MultipleMod(0x4_0000, k + 0x20);
    LargeMultiple(SlotBase(g, slot));
  }

  /** Sectors tile the slots. */
  lemma SectorsTile(g: Geometry, a: nat, end: nat)
    requires GoodGeometry(g) && Aligned(g, a) && end % 0x4_0000 == 0 && a < end
    ensures Aligned(g, a + SectorSize(g, a)) && a + SectorSize(g, a) <= end
  {
    var edge := g.small * SMALL_SECTOR;
    LargeMultiple(end);
    MultipleMod(SMALL_SECTOR, g.small);
    NextMultiple(a, end, SectorSize(g, a));
    if edge > a {
      NextMultiple(a, edge, SMALL_SECTOR);
    }
  }

  lemma PagesInSector(g: Geometry, a: nat)
    ensures SectorSize(g, a) > 0 && SectorSize(g, a) % PAGE == 0 && SectorSize(g, a) % 512 == 0
  {
  }

  /** The bytes of an aligned sector share its start and size. */
  lemma InSector(g: Geometry, a: nat, w: nat)
    requires Aligned(g, a) && a <= w < a + SectorSize(g, a)
    ensures SectorSize(g, w) == SectorSize(g, a) && SectorStart(g, w) == a
  {
    var n := SectorSize(g, a);
    var edge := g.small * SMALL_SECTOR;
    MultipleMod(SMALL_SECTOR, g.small);
    if edge > a {
      NextMultiple(a, edge, SMALL_SECTOR);
    }
    ModUnique(w, n, a / n, w - a);
  }

  // ----- contents

  /** Nothing outside `[start, end)` has changed. */
  predicate Outside(before: seq<byte>, after: seq<byte>, start: nat, end: nat) {
    && |before| == |after| && start <= end <= |after|
    && (forall i | 0 <= i < start :: after[i] == before[i])
    && (forall i | end <= i < |after| :: after[i] == before[i])
  }

  predicate Blank(s: seq<byte>) {
    forall i | 0 <= i < |s| :: s[i] == 0xff
  }

  function AndByte(a: byte, b: byte): (r: byte)
    ensures a == 0xff ==> r == b
  {
    AndBelow(a, b);
    assert Pow2(8) == 0x100;
    AndOnes(8, b);
    BitAnd(a, b)
  }

  /** One erase: the sector the chip was told to erase. */
  datatype Erasure = Erasure(start: nat, size: nat)

  function Count(log: seq<Erasure>, start: nat): nat {
    if log == [] then 0 else Count(log[..|log| - 1], start) + if log[|log| - 1].start == start then 1 else 0
  }

  /** The places in a log, from one on, where a sector is erased. */
  function Places(log: seq<Erasure>, from: nat, start: nat): set<nat> {
    set i: nat | from <= i < |log| && log[i].start == start
  }

  lemma {:induction false} CountPlaces(log: seq<Erasure>, from: nat, start: nat)
    requires from <= |log|
    ensures Count(log, start) == Count(log[..from], start) + |Places(log, from, start)|
    decreases |log|
  {
    if from == |log| {
      assert log[..from] == log;
      assert Places(log, from, start) == {};
    } else {
      hide Places;
      var n := |log| - 1;
      CountPlaces(log[..n], from, start);
      assert log[..n][..from] == log[..from];
      LastPlace(log, from, start);
    }
  }

  lemma LastPlace(log: seq<Erasure>, from: nat, start: nat)
    requires from < |log|
    ensures var n := |log| - 1; var before := Places(log[..n], from, start);
      n !in before && Places(log, from, start) == if log[n].start == start then before + {n} else before
  {
  }

  function Times(e: Erasure, n: nat): seq<Erasure> {
    if n == 0 then [] else Times(e, n - 1) + [e]
  }

  lemma {:induction false} CountTimes(log: seq<Erasure>, e: Erasure, n: nat, start: nat)
    ensures |Times(e, n)| == n && forall i | 0 <= i < n :: Times(e, n)[i] == e
    ensures Count(log + Times(e, n), start) == Count(log, start) + if e.start == start then n else 0
  {
    if n == 0 {
      assert log + [] == log;
    } else {
      CountTimes(log, e, n - 1, start);
      assert (log + Times(e, n))[..|log| + n - 1] == log + Times(e, n - 1);
    }
  }

  /** A chip that can fail in any way, as long as a command leaves the sectors it does not address alone. */
  class Chip {
    const g: Geometry
    const flash: array<byte>
    const reliable: bool
    ghost var erasures: seq<Erasure>

    constructor (g: Geometry, flash: array<byte>, reliable: bool)
      ensures this.g == g && this.flash == flash && this.reliable == reliable && erasures == []
    {
      this.g, this.flash, this.reliable, erasures := g, flash, reliable, [];
    }

    /** Changes any bytes of a sector in any way. */
    method Disturb(start: nat, size: nat)
      requires start + size <= flash.Length
      modifies flash
      ensures Outside(old(flash[..]), flash[..], start, start + size)
    {
      for i := start to start + size
        invariant Outside(old(flash[..]), flash[..], start, start + size)
      {
        var fault: bool := *;
        if fault {
          var b: byte := *;
          flash[i] := b;
        }
      }
    }

    method Erase(start: nat, size: nat)
      requires start + size <= flash.Length
      modifies flash, this`erasures
      ensures erasures == old(erasures) + [Erasure(start, size)]
      ensures Outside(old(flash[..]), flash[..], start, start + size)
      ensures reliable ==> Blank(flash[start..start + size])
    {
      for i := start to start + size
        invariant Outside(old(flash[..]), flash[..], start, start + size)
        invariant forall j | start <= j < i :: flash[j] == 0xff
        invariant erasures == old(erasures)
      {
        flash[i] := 0xff;
      }
      if !reliable {
        Disturb(start, size);
      }
      erasures := erasures + [Erasure(start, size)];
    }

    /** Programs a page: bits can only be cleared. */
    method Program(a: nat, data: seq<byte>)
      requires SectorStart(g, a) + SectorSize(g, a) <= flash.Length
      requires a + |data| <= SectorStart(g, a) + SectorSize(g, a)
      modifies flash
      ensures Outside(old(flash[..]), flash[..], SectorStart(g, a), SectorStart(g, a) + SectorSize(g, a))
      ensures reliable ==> Outside(old(flash[..]), flash[..], a, a + |data|)
      ensures reliable ==> forall i | 0 <= i < |data| :: flash[a + i] == AndByte(old(flash[a + i]), data[i])
    {
      for i := 0 to |data|
        invariant Outside(old(flash[..]), flash[..], a, a + |data|)
        invariant forall j | 0 <= j < i :: flash[a + j] == AndByte(old(flash[a + j]), data[j])
        invariant forall k | a + i <= k < a + |data| :: flash[k] == old(flash[k])
      {
        flash[a + i] := AndByte(flash[a + i], data[i]);
      }
      if !reliable {
        Disturb(SectorStart(g, a), SectorSize(g, a));
      }
    }
  }
}
