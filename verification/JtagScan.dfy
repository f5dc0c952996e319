/** What the driver's calls shift into the instruction and data registers of the chain. */
module JtagScan {
  import opened Bytes
  import opened Bits
  import opened Tap
  import opened Mpsse
  import opened JtagSession
  import opened JtagTracking

  /** Letters from which the table knows a way to Idle. */
  predicate CanIdle(letter: char) {
    letter in {'I', 'R', 'S', 'D', 'E'}
  }

  lemma EnterIdle(s: Session)
    requires Tracks(s) && CanIdle(s.letter)
    ensures Tracks(Enter(s, 'I', false)) && Enter(s, 'I', false).letter == 'I'
  {
    MoveTracks(s, 'I', false);
    MovedToIs(s, 'I', false);
  }

  /** A move by a known table entry. */
  lemma EnterBy(s: Session, required: char, tdi: bool, tail: string)
    requires TailIndex(From(s.letter), required) < |TAILS| && TAILS[TailIndex(From(s.letter), required)] == tail
    requires |tail| >= 3
    ensures Enter(s, required, tdi) == Session(tail[1], Driven(s.signal, Levels(tail[2..]), tdi), s.whole)
  {
  }

  // ----- the instruction register

  /** In Shift-IR with `bits` shifted in so far. */
  predicate InIR(s: Session, bits: seq<bool>) {
    match Settle(s.signal)
    case Chip(tap, tms, ir, _) => s.letter == 'S' && s.whole && tap == ShiftIR && !tms && ir == bits
  }

  /** Out of Shift-IR at a letter, with `bits` shifted in. */
  predicate LeftIR(s: Session, letter: char, bits: seq<bool>) {
    match Settle(s.signal)
    case Chip(tap, _, ir, _) =>
      && s.letter == letter && Tracks(s) && ir == bits
      && tap == if letter == 'E' then Exit1IR
                else if letter == 'P' then PauseIR
                else if letter == 'U' then UpdateIR else Idle
  }

  lemma IdleToShiftIR(s: Session)
    requires Tracks(s) && s.letter == 'I'
    ensures InIR(Enter(s, 'S', false), [])
  {
    EnterBy(s, 'S', false, "IS1100");
    assert Levels("1100") == [true, true, false, false];
    ClockTms4(Settle(s.signal), true, true, false, false, false);
  }

  lemma PauseToShiftIR(s: Session, bits: seq<bool>)
    requires LeftIR(s, 'P', bits)
    ensures InIR(Enter(s, 'S', false), bits)
  {
    EnterBy(s, 'S', false, "PS10");
    assert Levels("10") == [true, false];
    ClockTms2(Settle(s.signal), true, false, false);
  }

  lemma InIRTracks(s: Session, bits: seq<bool>)
    requires InIR(s, bits)
    ensures Tracks(s)
  {
  }

  /** The levels of the moves out of Shift: to Exit1, and on from there. */
  function ExitLevels(target: char): seq<bool> {
    [true] + OnwardLevels(target)
  }

  function OnwardLevels(target: char): seq<bool> {
    if target == 'E' then [] else if target == 'P' then [false] else if target == 'U' then [true] else [true, false]
  }

  lemma EnterExits(s: Session, target: char, tdi: bool)
    requires From(s.letter) == 'S' && target in {'E', 'P', 'U', 'I'}
    ensures Enter(s, target, tdi) == Session(target, Driven(s.signal, ExitLevels(target), tdi), s.whole)
  {
    assert Levels("1") == [true] && Levels("10") == [true, false] && Levels("11") == [true, true];
    assert Levels("110") == [true, true, false];
    assert ExitLevels('E') == [true] && ExitLevels('P') == [true, false];
    assert ExitLevels('U') == [true, true] && ExitLevels('I') == [true, true, false];
    if target == 'E' {
      EnterBy(s, target, tdi, "SE1");
    } else if target == 'P' {
      EnterBy(s, target, tdi, "SP10");
    } else if target == 'U' {
      EnterBy(s, target, tdi, "SU11");
    } else {
      EnterBy(s, target, tdi, "SI110");
    }
  }

  /** Onward from Exit1 nothing more is shifted. */
  lemma OnwardClocks(c: Chip, target: char, tdi: bool)
    requires c.tap in {Exit1IR, Exit1DR} && target in {'E', 'P', 'U', 'I'}
    ensures var inIR, r := c.tap == Exit1IR, ClockTms(c, OnwardLevels(target), tdi);
      && r.ir == c.ir && r.dr == c.dr
      && r.tap == if target == 'E' then c.tap
                  else if target == 'P' then if inIR then PauseIR else PauseDR
                  else if target == 'U' then if inIR then UpdateIR else UpdateDR
                  else Idle
  {
    if target == 'I' {
      ClockTms2(c, true, false, tdi);
    } else if target != 'E' {
      ClockTmsStep(c, target == 'U', [], tdi);
      assert [target == 'U'] + [] == OnwardLevels(target);
    }
  }

  /** The first clock out of Shift-IR or Shift-DR shifts one more bit, and only that one. */
  lemma ExitClocks(c: Chip, target: char, tdi: bool)
    requires c.tap in {ShiftIR, ShiftDR} && target in {'E', 'P', 'U', 'I'}
    ensures var inIR, r := c.tap == ShiftIR, ClockTms(c, ExitLevels(target), tdi);
      && r.ir == (if inIR then c.ir + [tdi] else c.ir) && r.dr == (if inIR then c.dr else c.dr + [tdi])
      && r.tap == if target == 'E' then if inIR then Exit1IR else Exit1DR
                  else if target == 'P' then if inIR then PauseIR else PauseDR
                  else if target == 'U' then if inIR then UpdateIR else UpdateDR
                  else Idle
  {
    hide OnwardLevels;
    ClockTmsStep(c, true, OnwardLevels(target), tdi);
    OnwardClocks(Clock(c, true, tdi), target, tdi);
  }

  lemma ShiftIRToLetter(s: Session, bits: seq<bool>, target: char, tdi: bool)
    requires InIR(s, bits) && target in {'E', 'P', 'U', 'I'}
    ensures LeftIR(Enter(s, target, tdi), target, bits + [tdi])
  {
    hide Enter, Tracks, ExitLevels;
    InIRTracks(s, bits);
    MoveTracks(s, target, tdi);
    EnterExits(s, target, tdi);
    ExitClocks(Settle(s.signal), target, tdi);
  }

  lemma ShiftInIR(s: Session, before: seq<bool>, bits: seq<bool>)
    requires InIR(s, before)
    ensures InIR(Shift(s, bits), before + bits)
  {
    ShiftIRStays(Settle(s.signal), bits);
  }

  lemma StayInIR(s: Session, bits: seq<bool>)
    requires InIR(s, bits)
    ensures Enter(s, 'S', false) == s
  {
  }

  lemma WriteBitInIR(s: Session, before: seq<bool>, n: nat, value: nat)
    requires InIR(s, before) && n <= 7
    ensures InIR(WriteBit(s, n, value, NONE), before + BitsOf(value, n))
  {
    StayInIR(s, before);
    if n > 0 {
      ShiftInIR(s, before, BitsOf(value, n));
    } else {
      assert before + [] == before;
    }
  }

  /** The last bit rides on the clock that leaves. */
  lemma WriteBitLeavesIR(s: Session, before: seq<bool>, n: nat, value: nat, target: char)
    requires InIR(s, before) && n <= 7 && target in {'E', 'P', 'U', 'I'}
    ensures LeftIR(WriteBit(s, n, value, target), target, before + BitsOf(value, n + 1))
  {
    WriteBitInIR(s, before, n, value);
    var s1 := WriteBit(s, n, value, NONE);
    ShiftIRToLetter(s1, before + BitsOf(value, n), target, Bit(value, n));
    BitsOfSnoc(value, n);
    assert before + BitsOf(value, n) + [Bit(value, n)] == before + BitsOf(value, n + 1);
  }

  lemma {:induction false} AllOnesBits(n: nat)
    ensures DataBitsOf(Swapped(false, AllOnes(n))) == Ones(8 * n)
  {
    assert Swapped(false, AllOnes(n)) == AllOnes(n);
    if n > 0 {
      AllOnesBits(n - 1);
      assert Swapped(false, AllOnes(n - 1)) == AllOnes(n - 1);
      assert AllOnes(n)[1..] == AllOnes(n - 1);
      OnesOfFF(8);
      assert Ones(8) + Ones(8 * (n - 1)) == Ones(8 * n);
    }
  }

  lemma OnesInIR(s: Session, before: seq<bool>, n: nat)
    requires InIR(s, before) && 1 <= n <= 4
    ensures InIR(WriteBytes(s, PLAIN, AllOnes(n)), before + Ones(8 * n))
  {
    StayInIR(s, before);
    AllOnesBits(n);
    var data := AllOnes(n);
    assert data[..n] == data;
    var s1 := Shift(s, Ones(8 * n));
    ShiftInIR(s, before, Ones(8 * n));
    StayInIR(s1, before + Ones(8 * n));
    assert FrameEnd(s1, PLAIN, data) == s1;
    assert SendFrames(s, PLAIN, data) == s1;
  }

  lemma FillInIR(s: Session, before: seq<bool>, width: nat)
    requires InIR(s, before) && width <= 39
    ensures InIR(Fill(s, width, NONE), before + Ones(width))
  {
    var s1 := if width > 7 then WriteBytes(s, PLAIN, AllOnes(width / 8)) else s;
    var whole := 8 * (width / 8);
    if width > 7 {
      OnesInIR(s, before, width / 8);
    } else {
      assert before + Ones(0) == before;
    }
    WriteBitInIR(s1, before + Ones(whole), width % 8, 0xff);
    OnesOfFF(width % 8);
    assert before + Ones(whole) + Ones(width % 8) == before + Ones(width);
  }

  lemma FillLeavesIR(s: Session, before: seq<bool>, width: nat, target: char)
    requires InIR(s, before) && width <= 39 && target in {'E', 'P', 'U', 'I'}
    ensures LeftIR(Fill(s, width, target), target, before + Ones(width + 1))
  {
    hide Enter, Tracks, SendFrames, InIR, LeftIR;
    var s1 := if width > 7 then WriteBytes(s, PLAIN, AllOnes(width / 8)) else s;
    var whole := 8 * (width / 8);
    if width > 7 {
      OnesInIR(s, before, width / 8);
    } else {
      assert before + Ones(0) == before;
    }
    WriteBitLeavesIR(s1, before + Ones(whole), width % 8, 0xff, target);
    OnesOfFF(width % 8 + 1);
    assert before + Ones(whole) + Ones(width % 8 + 1) == before + Ones(width + 1);
  }

  /** What the chain should receive: ones for every other device, and the command's low bits for its own. */
  function Instruction(c: Chain, command: nat, index: nat): seq<bool>
    requires index <= |c.lens|
  {
    if index == |c.lens| then Ones(After(c, index))
    else Ones(Before(c, index)) + BitsOf(command, c.lens[index]) + Ones(After(c, index))
  }

  /** The bits to shift for given registers of the devices: what is shifted last stays in the first device. */
  function Joined(registers: seq<seq<bool>>): seq<bool> {
    if registers == [] then [] else Joined(registers[1..]) + registers[0]
  }

  /** An instruction for one device and ones for all others. */
  function Registers(lens: seq<nat>, command: nat, index: int): (r: seq<seq<bool>>)
    ensures |r| == |lens|
    ensures forall d | 0 <= d < |lens| :: r[d] == if d == index then BitsOf(command, lens[d]) else Ones(lens[d])
  {
    seq(|lens|, d requires 0 <= d < |lens| => if d == index then BitsOf(command, lens[d]) else Ones(lens[d]))
  }

  /** Each device gets ones, and the chosen one the low bits of the command, as many as its register holds. */
  lemma InstructionReaches(c: Chain, command: nat, index: nat)
    requires index <= |c.lens|
    ensures Instruction(c, command, index) == Joined(Registers(c.lens, command, index))
  {
    RegistersJoined(c.lens, command, index);
    assert c.lens[..|c.lens|] == c.lens;
  }

  lemma RegistersJoined(lens: seq<nat>, command: nat, index: nat)
    requires index <= |lens|
    ensures Joined(Registers(lens, command, index))
         == if index < |lens|
            then Ones(SumLengths(lens[index + 1..])) + BitsOf(command, lens[index]) + Ones(SumLengths(lens[..index]))
            else Ones(SumLengths(lens))
  {
    hide Joined, Registers, SumLengths;
    if index < |lens| {
      OneChosen(lens, command, index);
    } else {
      NoneChosen(lens, command, index);
    }
  }

  lemma {:induction false} NoneChosen(lens: seq<nat>, command: nat, index: int)
    requires index < 0 || index >= |lens|
    ensures Joined(Registers(lens, command, index)) == Ones(SumLengths(lens))
    decreases |lens|
  {
    hide Joined, Registers, SumLengths, Ones;
    RegistersFirst(lens, command, index);
    SumFirst(lens);
    OnesOnes(0, 0);
    if lens != [] {
      NoneChosen(lens[1..], command, index - 1);
      OnesOnes(SumLengths(lens[1..]), lens[0]);
    }
  }

  lemma {:induction false} OneChosen(lens: seq<nat>, command: nat, index: nat)
    requires index < |lens|
    ensures Joined(Registers(lens, command, index))
         == Ones(SumLengths(lens[index + 1..])) + BitsOf(command, lens[index]) + Ones(SumLengths(lens[..index]))
    decreases |lens|
  {
    hide Joined, Registers, SumLengths, Ones, BitsOf;
    RegistersFirst(lens, command, index);
    SumFirst(lens[..index]);
    OnesOnes(0, 0);
    if index == 0 {
      NoneChosen(lens[1..], command, -1);
    } else {
      var rest := lens[1..];
      OneChosen(rest, command, index - 1);
      assert rest[index..] == lens[index + 1..] && lens[..index][1..] == rest[..index - 1];
      OnesOnes(SumLengths(rest[..index - 1]), lens[0]);
      Regroup(Ones(SumLengths(rest[index..])) + BitsOf(command, rest[index - 1]), Ones(SumLengths(rest[..index - 1])),
              Ones(lens[0]));
    }
  }

  lemma Regroup(a: seq<bool>, b: seq<bool>, c: seq<bool>)
    ensures a + b + c == a + (b + c)
  {
  }

  lemma RegistersFirst(lens: seq<nat>, command: nat, index: int)
    ensures lens == [] ==> Joined(Registers(lens, command, index)) == []
    ensures lens != [] ==>
              Joined(Registers(lens, command, index))
              == Joined(Registers(lens[1..], command, index - 1))
                 + if index == 0 then BitsOf(command, lens[0]) else Ones(lens[0])
  {
    if lens != [] {
      assert Registers(lens, command, index)[1..] == Registers(lens[1..], command, index - 1);
    }
  }

  lemma SumFirst(lens: seq<nat>)
    ensures SumLengths(lens) == if lens == [] then 0 else lens[0] + SumLengths(lens[1..])
  {
  }

  lemma OnesOnes(n: nat, m: nat)
    ensures Ones(n) + Ones(m) == Ones(m + n) && Ones(0) == []
  {
  }

  /** Idle, Shift-IR, and the ones for the devices beyond. */
  lemma IrregStarts(s: Session, bef: nat)
    requires Tracks(s) && CanIdle(s.letter) && bef <= 39
    ensures InIR(Fill(Enter(Enter(s, 'I', false), 'S', false), bef, NONE), Ones(bef))
  {
    EnterIdle(s);
    IdleToShiftIR(Enter(s, 'I', false));
    FillInIR(Enter(Enter(s, 'I', false), 'S', false), [], bef);
    assert [] + Ones(bef) == Ones(bef);
  }

  /** Shifting an instruction, up to the pause for reading if there are bits left to shift after it. */
  lemma IrregShifts(s: Session, c: Chain, read: bool, command: nat, index: nat, tail: char)
    requires Tracks(s) && CanIdle(s.letter) && GoodChain(c) && index < |c.lens| && FillsFit(c, index)
    requires tail in {'E', 'P', 'U', 'I'}
    ensures !read || After(c, index) == 0 ==>
              LeftIR(WriteIrreg(s, c, read, command, index, tail), tail, Instruction(c, command, index))
    ensures read && After(c, index) > 0 ==>
              LeftIR(WriteIrreg(s, c, read, command, index, tail), tail,
                     Ones(Before(c, index)) + BitsOf(command, c.lens[index]))
  {
    var bef, aft, len := Before(c, index), After(c, index), c.lens[index];
    IrregStarts(s, bef);
    var s2 := Fill(Enter(Enter(s, 'I', false), 'S', false), bef, NONE);
    IrregParts(s, c, read, command, index, tail);
    if aft != 0 && !read {
      WriteBitInIR(s2, Ones(bef), len, command);
      FillLeavesIR(WriteBit(s2, len, command, NONE), Ones(bef) + BitsOf(command, len), aft - 1, tail);
    } else {
      WriteBitLeavesIR(s2, Ones(bef), len - 1, command, tail);
      assert Ones(bef) + BitsOf(command, len) + Ones(0) == Ones(bef) + BitsOf(command, len);
    }
  }

  /** The two ways an instruction can end. */
  lemma IrregParts(s: Session, c: Chain, read: bool, command: nat, index: nat, tail: char)
    requires GoodChain(c) && index < |c.lens|
    ensures var s2 := Fill(Enter(Enter(s, 'I', false), 'S', false), Before(c, index), NONE);
      WriteIrreg(s, c, read, command, index, tail)
      == if After(c, index) != 0 && !read
         then Fill(WriteBit(s2, c.lens[index], command, NONE), After(c, index) - 1, tail)
         else WriteBit(s2, c.lens[index] - 1, command, tail)
  {
  }

  /** Bypassing: the index past the last device shifts ones into the whole chain. */
  lemma BypassShifts(s: Session, c: Chain, read: bool, command: nat, tail: char)
    requires Tracks(s) && CanIdle(s.letter) && GoodChain(c) && FillsFit(c, |c.lens|)
    requires tail in {'E', 'P', 'U', 'I'}
    ensures LeftIR(WriteIrreg(s, c, read, command, |c.lens|, tail), tail, Ones(SumLengths(c.lens)))
  {
    EnterIdle(s);
    var s1 := Enter(Enter(s, 'I', false), 'S', false);
    IdleToShiftIR(Enter(s, 'I', false));
    FillInIR(s1, [], 0);
    AfterAll(c, |c.lens|);
    assert c.lens[..|c.lens|] == c.lens;
    FillLeavesIR(Fill(s1, 0, NONE), [], SumLengths(c.lens) - 1, tail);
    assert [] + Ones(0) == [];
    assert [] + Ones(SumLengths(c.lens)) == Ones(SumLengths(c.lens));
  }

  /** With or without reading, the whole chain receives the instruction and ends in Idle;
      a read pauses before the ones for the devices that follow, and resumes. */
  lemma CirregShifts(s: Session, c: Chain, read: bool, command: nat)
    requires Tracks(s) && CanIdle(s.letter) && GoodChain(c) && FillsFit(c, c.jtagIndex)
    ensures var r := WriteCirreg(s, c, read, command);
      r.letter == 'I' && Tracks(r) && Settle(r.signal).ir == Instruction(c, command, c.jtagIndex)
  {
    var index := c.jtagIndex;
    var target := if index != 0 && read then 'P' else 'E';
    var s1 := WriteIrreg(s, c, read, command, index, target);
    IrregShifts(s, c, read, command, index, target);
    AfterAll(c, index);
    var bits := Instruction(c, command, index);
    var s2 := if target == 'P' then Fill(s1, After(c, index) - 1, 'E') else s1;
    if target == 'P' {
      ResumeFill(s1, Ones(Before(c, index)) + BitsOf(command, c.lens[index]), After(c, index) - 1);
    } else {
      assert index == 0 ==> c.lens[..index] == [];
    }
    Exit1IRToIdle(s2, bits);
  }

  lemma Exit1IRToIdle(s: Session, bits: seq<bool>)
    requires LeftIR(s, 'E', bits)
    ensures LeftIR(Enter(s, 'I', false), 'I', bits)
  {
    MoveTracks(s, 'I', false);
    EnterBy(s, 'I', false, "EI10");
    assert Levels("10") == [true, false];
    ClockTms2(Settle(s.signal), true, false, false);
  }

  /** A fill after a pause starts by going back to Shift-IR. */
  lemma ResumeFill(s: Session, before: seq<bool>, width: nat)
    requires LeftIR(s, 'P', before) && width <= 39
    ensures LeftIR(Fill(s, width, 'E'), 'E', before + Ones(width + 1))
  {
    var s1 := Enter(s, 'S', false);
    PauseToShiftIR(s, before);
    StayInIR(s1, before);
    FillLeavesIR(s1, before, width, 'E');
    assert Fill(s, width, 'E') == Fill(s1, width, 'E');
  }
}
