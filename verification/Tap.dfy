/** The test access port: the 16-state controller of IEEE Std 1149.1-2001 clause 6.1, clocked one bit at a time. */
module Tap {

  datatype Tap =
    | Reset | Idle
    | SelectDR | CaptureDR | ShiftDR | Exit1DR | PauseDR | Exit2DR | UpdateDR
    | SelectIR | CaptureIR | ShiftIR | Exit1IR | PauseIR | Exit2IR | UpdateIR

  /** Where the controller goes on a clock edge with TMS at `tms`. */
  function Next(t: Tap, tms: bool): Tap {
    match t
    case Reset => if tms then Reset else Idle
    case Idle => if tms then SelectDR else Idle
    case SelectDR => if tms then SelectIR else CaptureDR
    case CaptureDR => if tms then Exit1DR else ShiftDR
    case ShiftDR => if tms then Exit1DR else ShiftDR
    case Exit1DR => if tms then UpdateDR else PauseDR
    case PauseDR => if tms then Exit2DR else PauseDR
    case Exit2DR => if tms then UpdateDR else ShiftDR
    case UpdateDR => if tms then SelectDR else Idle
    case SelectIR => if tms then Reset else CaptureIR
    case CaptureIR => if tms then Exit1IR else ShiftIR
    case ShiftIR => if tms then Exit1IR else ShiftIR
    case Exit1IR => if tms then UpdateIR else PauseIR
    case PauseIR => if tms then Exit2IR else PauseIR
    case Exit2IR => if tms then UpdateIR else ShiftIR
    case UpdateIR => if tms then SelectDR else Idle
  }

  /** The two columns of the controller, from Select to Update. */
  const DR: seq<Tap> := [SelectDR, CaptureDR, ShiftDR, Exit1DR, PauseDR, Exit2DR, UpdateDR]
  const IR: seq<Tap> := [SelectIR, CaptureIR, ShiftIR, Exit1IR, PauseIR, Exit2IR, UpdateIR]

  /** With TMS low a column is gone down to Shift or Pause; with TMS high it is left, over Exit, through Update. */
  lemma Columns(column: seq<Tap>)
    requires column == DR || column == IR
    ensures Next(column[0], false) == column[1]
    ensures Next(column[1], false) == column[2] && Next(column[1], true) == column[3]
    ensures Next(column[2], false) == column[2] && Next(column[2], true) == column[3]
    ensures Next(column[3], false) == column[4] && Next(column[3], true) == column[6]
    ensures Next(column[4], false) == column[4] && Next(column[4], true) == column[5]
    ensures Next(column[5], false) == column[2] && Next(column[5], true) == column[6]
    ensures Next(column[6], false) == Idle && Next(column[6], true) == SelectDR
    ensures Next(SelectDR, true) == SelectIR && Next(SelectIR, true) == Reset
    ensures Next(Reset, true) == Reset && Next(Reset, false) == Idle
    ensures Next(Idle, true) == SelectDR && Next(Idle, false) == Idle
  {
  }

  /** A device chain: the controllers' state, the level TMS was left at, and the bits
      shifted into the instruction and data registers since each was last captured. */
  datatype Chip = Chip(tap: Tap, tms: bool, ir: seq<bool>, dr: seq<bool>)

  /** One clock. A bit is shifted on every clock that starts in a shift state, also the one that leaves it. */
  function Clock(c: Chip, tms: bool, tdi: bool): Chip {
    var next := Next(c.tap, tms);
    Chip(next, tms,
         if next == CaptureIR then [] else if c.tap == ShiftIR then c.ir + [tdi] else c.ir,
         if next == CaptureDR then [] else if c.tap == ShiftDR then c.dr + [tdi] else c.dr)
  }

  /** Clocks a sequence of TMS levels with TDI held. */
  function ClockTms(c: Chip, tms: seq<bool>, tdi: bool): Chip
    decreases |tms|
  {
    if tms == [] then c else ClockTms(Clock(c, tms[0], tdi), tms[1..], tdi)
  }

  /** Clocks a sequence of data bits with TMS where it was left. */
  function ClockData(c: Chip, bits: seq<bool>): Chip
    decreases |bits|
  {
    if bits == [] then c else ClockData(Clock(c, c.tms, bits[0]), bits[1..])
  }

  /** A sequence of clocks, one at a time. */
  lemma ClockTmsStep(c: Chip, tms: bool, rest: seq<bool>, tdi: bool)
    ensures ClockTms(c, [tms] + rest, tdi) == ClockTms(Clock(c, tms, tdi), rest, tdi)
  {
    assert ([tms] + rest)[1..] == rest;
  }

  lemma ClockTms2(c: Chip, a: bool, b: bool, tdi: bool)
    ensures ClockTms(c, [a, b], tdi) == Clock(Clock(c, a, tdi), b, tdi)
  {
    ClockTmsStep(c, a, [b], tdi);
    ClockTmsStep(Clock(c, a, tdi), b, [], tdi);
    assert [a] + [b] == [a, b];
  }

  lemma ClockTms3(c: Chip, a0: bool, a1: bool, a2: bool, tdi: bool)
    ensures ClockTms(c, [a0, a1, a2], tdi) == Clock(Clock(Clock(c, a0, tdi), a1, tdi), a2, tdi)
  {
    ClockTmsStep(c, a0, [a1, a2], tdi);
    ClockTms2(Clock(c, a0, tdi), a1, a2, tdi);
    assert [a0] + [a1, a2] == [a0, a1, a2];
  }

  lemma ClockTms4(c: Chip, a0: bool, a1: bool, a2: bool, a3: bool, tdi: bool)
    ensures ClockTms(c, [a0, a1, a2, a3], tdi) == Clock(Clock(Clock(Clock(c, a0, tdi), a1, tdi), a2, tdi), a3, tdi)
  {
    ClockTmsStep(c, a0, [a1, a2, a3], tdi);
    ClockTms3(Clock(c, a0, tdi), a1, a2, a3, tdi);
    assert [a0] + [a1, a2, a3] == [a0, a1, a2, a3];
  }

  /** Five clocks with TMS high reach Test-Logic-Reset from every state. */
  lemma FiveOnesReset(c: Chip, tdi: bool)
    ensures ClockTms(c, [true, true, true, true, true], tdi).tap == Reset
  {
    FiveOnes(c.tap);
    var c1 := Clock(c, true, tdi);
    ClockTmsStep(c, true, [true, true, true, true], tdi);
    ClockTms4(c1, true, true, true, true, tdi);
    assert [true] + [true, true, true, true] == [true, true, true, true, true];
  }

  lemma FiveOnes(t: Tap)
    ensures Next(Next(Next(Next(Next(t, true), true), true), true), true) == Reset
  {
  }

  lemma ClockInShift(c: Chip, bit: bool)
    requires !c.tms
    ensures c.tap == ShiftDR ==> Clock(c, c.tms, bit) == c.(dr := c.dr + [bit])
    ensures c.tap == ShiftIR ==> Clock(c, c.tms, bit) == c.(ir := c.ir + [bit])
  {
  }

  /** In Shift-DR with TMS low, data bits are shifted in and the state stays. */
  lemma {:induction false} ShiftDRStays(c: Chip, bits: seq<bool>)
    requires c.tap == ShiftDR && !c.tms
    ensures ClockData(c, bits) == c.(dr := c.dr + bits)
    decreases |bits|
  {
    hide Clock, Next;
    if bits == [] {
      assert c.dr + [] == c.dr;
    } else {
      ClockInShift(c, bits[0]);
      ShiftDRStays(Clock(c, c.tms, bits[0]), bits[1..]);
      assert c.dr + bits == (c.dr + [bits[0]]) + bits[1..];
    }
  }

  lemma {:induction false} ShiftIRStays(c: Chip, bits: seq<bool>)
    requires c.tap == ShiftIR && !c.tms
    ensures ClockData(c, bits) == c.(ir := c.ir + bits)
    decreases |bits|
  {
    hide Clock, Next;
    if bits == [] {
      assert c.ir + [] == c.ir;
    } else {
      ClockInShift(c, bits[0]);
      ShiftIRStays(Clock(c, c.tms, bits[0]), bits[1..]);
      assert c.ir + bits == (c.ir + [bits[0]]) + bits[1..];
    }
  }

  /** Data clocks in a state that TMS does not leave, other than a shift state, change nothing. */
  lemma {:induction false} DataInRest(c: Chip, bits: seq<bool>)
    requires (c.tap == Reset && c.tms) || (c.tap in {Idle, PauseDR, PauseIR} && !c.tms)
    ensures ClockData(c, bits) == c
  {
    if bits != [] {
      DataInRest(c, bits[1..]);
    }
  }

  /** What has been put on the wires since some start: TMS levels with TDI held, or data bits with TMS held. */
  datatype Signal =
    | Start(chip: Chip)
    | Driven(before: Signal, levels: seq<bool>, tdi: bool)
    | Fed(before: Signal, bits: seq<bool>)

  /** The chip after a signal. */
  function Settle(s: Signal): Chip {
    match s
    case Start(chip) => chip
    case Driven(before, levels, tdi) => ClockTms(Settle(before), levels, tdi)
    case Fed(before, bits) => ClockData(Settle(before), bits)
  }

  /** The number of clocks in a signal. */
  function Clocks(s: Signal): nat {
    match s
    case Start(_) => 0
    case Driven(before, levels, _) => Clocks(before) + |levels|
    case Fed(before, bits) => Clocks(before) + |bits|
  }
}
