/** The memory of the emulated machine: chip RAM, hypervisor RAM, colour RAM and the IO space, and the banking
    that leads from 16-bit addresses to 28-bit ones. */
module HyppoMemory {
  import opened Bytes
  import opened Bits

  const CHIPRAM_SIZE := 0x6_0000
  const HYPPORAM_SIZE := 0x4000
  const COLOURRAM_SIZE := 0x8000
  const HYPPO_BASE := 0xfff_8000
  const COLOUR_BASE := 0xff8_0000
  const IO_BASE := 0xffd_0000
  const UNMAPPED: byte := 0xbd

  datatype Memory = Memory(chip: seq<byte>, hyppo: seq<byte>, colour: seq<byte>, io: seq<byte>)

  predicate GoodMemory(m: Memory) {
    match m
    case Memory(chip, hyppo, colour, io) =>
      |chip| == CHIPRAM_SIZE && |hyppo| == HYPPORAM_SIZE && |colour| == COLOURRAM_SIZE && |io| == 0x1_0000
  }

  /** Whether there is memory at a 28-bit address. */
  predicate Mapped(a: nat) {
    a < CHIPRAM_SIZE || HYPPO_BASE <= a < HYPPO_BASE + HYPPORAM_SIZE || COLOUR_BASE <= a < COLOUR_BASE + COLOURRAM_SIZE
    || IO_BASE <= a < IO_BASE + 0x1_0000
  }

  function Read28(m: Memory, a: nat): byte
    requires GoodMemory(m)
  {
    if HYPPO_BASE <= a < HYPPO_BASE + HYPPORAM_SIZE then m.hyppo[a - HYPPO_BASE]
    else if a < CHIPRAM_SIZE then m.chip[a]
    else if COLOUR_BASE <= a < COLOUR_BASE + COLOURRAM_SIZE then m.colour[a - COLOUR_BASE]
    else if IO_BASE <= a < IO_BASE + 0x1_0000 then m.io[a - IO_BASE]
    else UNMAPPED
  }

  /** Setting the CPU speed through address 0 leaves memory alone. */
  predicate SpeedChange(a: nat, value: byte) {
    a == 0 && (value == 0x41 || value == 0x40)
  }

  /** Where the memories lie. */
  lemma MemoryMap(m: Memory, a: nat)
    requires GoodMemory(m)
    ensures a < 0x6_0000 ==> Mapped(a) && Read28(m, a) == m.chip[a]
    ensures 0xff8_0000 <= a < 0xff8_8000 ==> Mapped(a) && Read28(m, a) == m.colour[a - 0xff8_0000]
    ensures 0xffd_0000 <= a < 0xffe_0000 ==> Mapped(a) && Read28(m, a) == m.io[a - 0xffd_0000]
    ensures 0xfff_8000 <= a < 0xfff_c000 ==> Mapped(a) && Read28(m, a) == m.hyppo[a - 0xfff_8000]
    ensures 0x6_0000 <= a < 0xff8_0000 || 0xff8_8000 <= a < 0xffd_0000
            || 0xffe_0000 <= a < 0xfff_8000 || a >= 0xfff_c000 ==>
              !Mapped(a) && Read28(m, a) == 0xbd
  {
  }

  // ----- the DMA registers

  const DMA_START := 0xffd_3700
  const DMA_BANK := 0xffd_3702
  const DMA_START_ENHANCED := 0xffd_3705

  /** Writes that start a DMA job. */
  predicate Starts(a: nat) {
    a == DMA_START || a == DMA_START_ENHANCED
  }

  /** The bank register takes three bits from a write next to it. */
  function NewBank(bank: byte, value: byte): byte {
    var kept, bits := BitAnd(bank, 0xf1), value / 0x10 % 8;
    assert BitOr(kept, bits) < 0x100 by {
      AndBelow(bank, 0xf1);
      assert Pow2(8) == 0x100;
      OrBelow(kept, bits, 8);
    }
    BitOr(kept, bits)
  }

  /** A write to the IO space: the two start registers mirror each other, and one register sets part of the bank. */
  function IoAfter(io: seq<byte>, a: nat, value: byte): (r: seq<byte>)
    requires |io| == 0x1_0000 && a < 0x1_0000
    ensures |r| == |io|
  {
    var stored := io[a := value];
    if a == 0x3700 then stored[0x3705 := value]
    else if a == 0x3702 then stored[0x3704 := NewBank(stored[0x3704], value)]
    else if a == 0x3705 then stored[0x3700 := value]
    else stored
  }

  /** Memory after a write, before the DMA job that the write may start. */
  function Write28(m: Memory, a: nat, value: byte): (r: Memory)
    requires GoodMemory(m)
    ensures GoodMemory(r)
  {
    if HYPPO_BASE <= a < HYPPO_BASE + HYPPORAM_SIZE then m.(hyppo := m.hyppo[a - HYPPO_BASE := value])
    else if a < CHIPRAM_SIZE then if SpeedChange(a, value) then m else m.(chip := m.chip[a := value])
    else if COLOUR_BASE <= a < COLOUR_BASE + COLOURRAM_SIZE then m.(colour := m.colour[a - COLOUR_BASE := value])
    else if IO_BASE <= a < IO_BASE + 0x1_0000 then m.(io := IoAfter(m.io, a - IO_BASE, value))
    else m
  }

  /** The register another one's write changes as well. */
  predicate Changes(a: nat, b: nat) {
    (a == DMA_START && b == DMA_START_ENHANCED) || (a == DMA_START_ENHANCED && b == DMA_START)
    || (a == DMA_BANK && b == 0xffd_3704)
  }

  /** A write is seen where it was made, and nowhere else but in the DMA registers that follow it. */
  lemma ReadWritten(m: Memory, a: nat, value: byte, b: nat)
    requires GoodMemory(m)
    ensures b == a && Mapped(a) && !SpeedChange(a, value) ==> Read28(Write28(m, a, value), b) == value
    ensures b == a && SpeedChange(a, value) ==> Read28(Write28(m, a, value), b) == Read28(m, b)
    ensures b != a && !Changes(a, b) ==> Read28(Write28(m, a, value), b) == Read28(m, b)
    ensures Starts(a) && Changes(a, b) ==> Read28(Write28(m, a, value), b) == value
  {
    hide NewBank;
  }

  /** Which registers they are, and how a write to the bank register sets the one that follows it. */
  lemma DmaRegisters(a: nat, b: nat, bank: byte, value: byte, k: nat)
    ensures Starts(a) <==> a == 0xffd_3700 || a == 0xffd_3705
    ensures Changes(a, b) <==>
              (a == 0xffd_3700 && b == 0xffd_3705) || (a == 0xffd_3705 && b == 0xffd_3700)
              || (a == 0xffd_3702 && b == 0xffd_3704)
    ensures Bit(NewBank(bank, value), k) == ((Bit(bank, k) && Bit(0xf1, k)) || Bit(value / 16 % 8, k))
  {
    AndBit(bank, 0xf1, k);
    OrBit(BitAnd(bank, 0xf1), value / 0x10 % 8, k);
  }

  /** The address of the job list in the DMA registers. */
  function ListIn(io: seq<byte>): nat
    requires |io| == 0x1_0000
  {
    BitOr(io[0x3700] + 0x100 * (io[0x3701] as nat) + 0x1_0000 * ((io[0x3702] as nat) % 0x80),
          0x10_0000 * (io[0x3704] as nat))
  }

  /** Without a megabyte the list lies where three registers say, the low byte first. */
  lemma ListInIs(io: seq<byte>)
    requires |io| == 0x1_0000 && io[0x3704] == 0
    ensures ListIn(io) == io[0x3700] + 0x100 * (io[0x3701] as nat) + 0x1_0000 * ((io[0x3702] as nat) % 0x80)
  {
    OrZero(io[0x3700] + 0x100 * (io[0x3701] as nat) + 0x1_0000 * ((io[0x3702] as nat) % 0x80));
  }

  /** What a write does besides changing memory. */
  datatype Effect = Plain | NoMemory | DmaStarted(enhanced: bool, list: nat)

  function EffectOf(m: Memory, a: nat): Effect
    requires GoodMemory(m)
  {
    if !Mapped(a) then NoMemory
    else if Starts(a) then DmaStarted(a == DMA_START_ENHANCED, ListIn(m.io))
    else Plain
  }

  // ----- banking

  /** The registers that map 8 KiB zones of the 16-bit space anywhere. */
  datatype Mapping = Mapping(maplo: nat, maphi: nat, maplomb: byte, maphimb: byte)

  /** The three bank lines, each high if its port bit is set or not an output. */
  function Lines(m: Memory): nat
    requires GoodMemory(m)
  {
    BitOr(m.chip[1] % 8, 7 - m.chip[0] % 8)
  }

  /** The address after the C64's own banking. */
  function Banked(lines: nat, a: nat, write: bool): nat {
    var bank := a / 0x1000;
    if bank == 13 && lines in {1, 2, 3} && !write then a % 0x1000 + 0x2d000
    else if bank == 13 && lines in {5, 6, 7} then a % 0x1000 + 0xffd_3000
    else if !write && (bank == 10 || bank == 11) && lines in {3, 7} then a % 0x2000 + 0x2a000
    else if !write && (bank == 14 || bank == 15) && lines in {2, 3, 6, 7} then a % 0x2000 + 0x2e000
    else a
  }

  /** The 28-bit address of a 16-bit one: a mapped zone takes priority over the banks. */
  function Translate(m: Memory, mapping: Mapping, a: nat, write: bool): nat
    requires GoodMemory(m) && a < 0x1_0000
  {
    var zone := a / 0x2000;
    if zone < 4 then
      if Bit(mapping.maplo, 12 + zone) then a + mapping.maplo % 0x1000 * 0x100 + mapping.maplomb * 0x10_0000
      else Banked(Lines(m), a, write)
    else if Bit(mapping.maphi, 8 + zone) then a + mapping.maphi % 0x1000 * 0x100 + mapping.maphimb * 0x10_0000
    else Banked(Lines(m), a, write)
  }

  /** A line is high where the port's bit is set, or is not an output. */
  lemma LineIs(m: Memory, k: nat)
    requires GoodMemory(m) && k < 3
    ensures Bit(Lines(m), k) == (Bit(m.chip[1], k) || !Bit(m.chip[0], k))
  {
    OrBit(m.chip[1] % 8, 7 - m.chip[0] % 8, k);
    LowThree(m.chip[1], k);
    LowThree(m.chip[0], k);
    Complement(m.chip[0] % 8, k);
  }

  lemma LowThree(b: byte, k: nat)
    requires k < 3
    ensures Bit(b % 8, k) == Bit(b, k)
  {
    BitBelow(b / 8, b % 8, 3, k);
    assert Pow2(3) == 8;
  }

  lemma Complement(v: nat, k: nat)
    requires v < 8 && k < 3
    ensures Bit(7 - v, k) == !Bit(v, k)
  {
    assert Bit(v, 1) == Bit(v / 2, 0) && Bit(7 - v, 1) == Bit((7 - v) / 2, 0);
    assert Bit(v, 2) == Bit(v / 2, 1) == Bit(v / 2 / 2, 0);
    assert Bit(7 - v, 2) == Bit((7 - v) / 2, 1) == Bit((7 - v) / 2 / 2, 0);
  }

  /** Where an address outside all mapped zones leads: reads find the character, BASIC and kernal ROMs, and reads and
      writes the IO space, as the bank lines say. */
  predicate InBank(lines: nat, a: nat, write: bool, r: nat) {
    && (0xd000 <= a < 0xe000 && 1 <= lines <= 3 && !write ==> r == 0x2_d000 + (a - 0xd000))
    && (0xd000 <= a < 0xe000 && 5 <= lines <= 7 ==> r == 0xffd_3000 + (a - 0xd000))
    && (0xa000 <= a < 0xc000 && (lines == 3 || lines == 7) && !write ==> r == 0x2_a000 + (a - 0xa000))
    && (0xe000 <= a && (lines == 2 || lines == 3 || lines == 6 || lines == 7) && !write ==>
          r == 0x2_e000 + (a - 0xe000))
    && (a < 0xa000 || 0xc000 <= a < 0xd000 || lines == 0 || lines == 4 || (write && !(0xd000 <= a < 0xe000)) ==>
          r == a)
  }

  /** Where 16-bit addresses lead: 8 KiB zones that are mapped are moved by 256 times the low twelve bits of their
      register and by a megabyte; elsewhere the bank lines decide. */
  lemma TranslateIs(m: Memory, mapping: Mapping, a: nat, write: bool)
    requires GoodMemory(m) && a < 0x1_0000
    ensures var zone, lines, r := a / 0x2000, Lines(m), Translate(m, mapping, a, write);
      if zone < 4 && Bit(mapping.maplo, 12 + zone) then
        r == a + 256 * (mapping.maplo % 4096) + 1048576 * mapping.maplomb
      else if zone >= 4 && Bit(mapping.maphi, 12 + (zone - 4)) then
        r == a + 256 * (mapping.maphi % 4096) + 1048576 * mapping.maphimb
      else
        InBank(lines, a, write, r)
  {
    hide Lines, Bit;
    PageIs(a);
    BankedIs(Lines(m), a, write);
  }

  lemma PageIs(a: nat)
    requires a < 0x1_0000
    ensures 0xd000 <= a < 0xe000 ==> a % 0x1000 == a - 0xd000
    ensures 0xa000 <= a < 0xc000 ==> a % 0x2000 == a - 0xa000
    ensures 0xe000 <= a ==> a % 0x2000 == a - 0xe000
  {
  }

  lemma BankedIs(lines: nat, a: nat, write: bool)
    requires a < 0x1_0000
    ensures InBank(lines, a, write, Banked(lines, a, write))
  {
    PageIs(a);
    assert 0xd000 <= a < 0xe000 <==> a / 0x1000 == 13;
    assert 0xa000 <= a < 0xc000 <==> a / 0x1000 == 10 || a / 0x1000 == 11;
    assert 0xe000 <= a <==> a / 0x1000 == 14 || a / 0x1000 == 15;
  }

  /** The translation depends on memory only through the processor port. */
  lemma TranslateSame(m: Memory, m1: Memory, mapping: Mapping, a: nat, write: bool)
    requires GoodMemory(m) && GoodMemory(m1) && a < 0x1_0000 && m.chip[0] == m1.chip[0] && m.chip[1] == m1.chip[1]
    ensures Translate(m, mapping, a, write) == Translate(m1, mapping, a, write)
  {
  }

  class Ram {
    const chip: array<byte>
    const hyppo: array<byte>
    const colour: array<byte>
    const io: array<byte>

    constructor ()
      ensures Shape() && fresh(chip) && fresh(hyppo) && fresh(colour) && fresh(io)
    {
      chip := new byte[CHIPRAM_SIZE];
      hyppo := new byte[HYPPORAM_SIZE];
      colour := new byte[COLOURRAM_SIZE];
      io := new byte[0x1_0000];
    }

    predicate Shape() {
      && chip.Length == CHIPRAM_SIZE && hyppo.Length == HYPPORAM_SIZE && colour.Length == COLOURRAM_SIZE
      && io.Length == 0x1_0000 && chip != hyppo && chip != colour && chip != io
      && hyppo != colour && hyppo != io && colour != io
    }

    ghost function View(): (m: Memory)
      reads chip, hyppo, colour, io
      requires Shape()
      ensures GoodMemory(m)
    {
      Memory(chip[..], hyppo[..], colour[..], io[..])
    }

    method Read(a: nat) returns (value: byte)
      requires Shape()
      ensures value == Read28(View(), a)
    {
      if a >= HYPPO_BASE && a < 0xfff_c000 {
        return hyppo[a - HYPPO_BASE];
      } else if a < CHIPRAM_SIZE {
        return chip[a];
      } else if a >= COLOUR_BASE && a < COLOUR_BASE + COLOURRAM_SIZE {
        return colour[a - COLOUR_BASE];
      } else if a / 0x1_0000 == 0xffd {
        return io[a - IO_BASE];
      }
      return UNMAPPED;
    }

    method WriteIo(a: nat, value: byte)
      requires Shape() && a < 0x1_0000
      modifies io
      ensures io[..] == IoAfter(old(io[..]), a, value)
    {
      hide NewBank;
      io[a] := value;
      if a == 0x3700 {
        io[0x3705] := value;
      } else if a == 0x3702 {
        io[0x3704] := NewBank(io[0x3704], value);
      } else if a == 0x3705 {
        io[0x3700] := value;
      }
    }

    /** Writes a byte, and reports where there is no memory and where a DMA job is to start. */
    method Write(a: nat, value: byte) returns (effect: Effect)
      requires Shape()
      modifies chip, hyppo, colour, io
      ensures View() == Write28(old(View()), a, value)
      ensures effect == EffectOf(View(), a)
    {
      hide ListIn, IoAfter;
      effect := Plain;
      if a >= HYPPO_BASE && a < 0xfff_c000 {
        hyppo[a - HYPPO_BASE] := value;
      } else if a < CHIPRAM_SIZE {
        if a == 0 && value == 0x41 {
        } else if a == 0 && value == 0x40 {
        } else {
          chip[a] := value;
        }
      } else if a >= COLOUR_BASE && a < COLOUR_BASE + COLOURRAM_SIZE {
        colour[a - COLOUR_BASE] := value;
      } else if a / 0x1_0000 == 0xffd {
        WriteIo(a - IO_BASE, value);
        if a == DMA_START {
          effect := DmaStarted(false, ListIn(io[..]));
        } else if a == DMA_START_ENHANCED {
          effect := DmaStarted(true, ListIn(io[..]));
        }
      } else {
        effect := NoMemory;
      }
    }

    /** Follows the banking step by step. */
    method AddressTo28(mapping: Mapping, addrIn: nat, write: bool) returns (addr: nat)
      requires Shape() && addrIn < 0x1_0000
      ensures addr == Translate(View(), mapping, addrIn, write)
    {
      addr := addrIn;
      var lnc := BitOr(chip[1] % 8, 7 - chip[0] % 8);
      var bank, zone := addr / 0x1000, addr / 0x2000;
      if bank == 13 {
        if lnc == 0 || lnc == 4 {
        } else if lnc == 1 || lnc == 2 || lnc == 3 {
          if !write {
            addr := addr % 0x1000 + 0x2d000;
          }
        } else if lnc == 5 || lnc == 6 || lnc == 7 {
          addr := addr % 0x1000 + 0xffd_3000;
        }
      }
      if !write {
        if bank == 10 || bank == 11 {
          if lnc == 3 || lnc == 7 {
            addr := addr % 0x2000 + 0x2a000;
          }
        }
        if bank == 14 || bank == 15 {
          if lnc == 2 || lnc == 3 || lnc == 6 || lnc == 7 {
            addr := addr % 0x2000 + 0x2e000;
          }
        }
      }
      if zone < 4 {
        if Bit(mapping.maplo, 12 + zone) {
          addr := addrIn + mapping.maplo % 0x1000 * 0x100 + mapping.maplomb * 0x10_0000;
        }
      } else {
        if Bit(mapping.maphi, 12 + zone - 4) {
          addr := addrIn + mapping.maphi % 0x1000 * 0x100 + mapping.maphimb * 0x10_0000;
        }
      }
    }
  }
}
