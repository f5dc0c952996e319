/** Where the chip really is, compared with the letter the driver remembers. */
module JtagTracking {
  import opened Bytes
  import opened Bits
  import opened Tap
  import opened Mpsse
  import opened JtagSession

  /** The controller states a letter stands for. Before the first transition the driver knows nothing. */
  predicate Named(letter: char, tap: Tap) {
    if letter == 'R' then tap == Reset
    else if letter == 'I' then tap == Idle
    else if letter == 'S' then tap in {ShiftDR, ShiftIR}
    else if letter == 'D' then tap == ShiftDR
    else if letter == 'P' then tap in {PauseDR, PauseIR}
    else if letter == 'E' then tap in {Exit1DR, Exit1IR}
    else if letter == 'U' then tap in {UpdateDR, UpdateIR}
    else letter == NONE
  }

  /** The level the transitions into a letter leave TMS at. */
  predicate Level(letter: char, tms: bool) {
    letter == NONE || tms == (letter in {'R', 'E', 'U'})
  }

  /** The chip is where the driver believes it is, and it has been sent whole commands only. */
  predicate Tracks(s: Session) {
    s.whole && Named(s.letter, Settle(s.signal).tap) && Level(s.letter, Settle(s.signal).tms)
  }

  /** Clocks a whole transition, state by state. */
  function Walk(t: Tap, levels: seq<bool>): Tap
    decreases |levels|
  {
    if levels == [] then t else Walk(Next(t, levels[0]), levels[1..])
  }

  lemma {:induction false} ClockTmsWalks(c: Chip, levels: seq<bool>, tdi: bool)
    ensures ClockTms(c, levels, tdi).tap == Walk(c.tap, levels)
    ensures ClockTms(c, levels, tdi).tms == if levels == [] then c.tms else levels[|levels| - 1]
    decreases |levels|
  {
    if levels != [] {
      ClockTmsWalks(Clock(c, levels[0], tdi), levels[1..], tdi);
    }
  }

  lemma WalkStep(t: Tap, b: bool, rest: seq<bool>)
    ensures Walk(t, [b] + rest) == Walk(Next(t, b), rest)
  {
    assert ([b] + rest)[1..] == rest;
  }

  /** A table entry leads from a state of its first letter to a state of its second. */
  predicate Leads(i: nat, t: Tap)
    requires i < |TAILS|
  {
    TableHasTail(i);
    var levels := Levels(TAILS[i][2..]);
    Named(TAILS[i][1], Walk(t, levels)) && Level(TAILS[i][1], levels[|levels| - 1])
  }

  lemma TailLeads(i: nat, t: Tap)
    requires i < |TAILS| && Named(TAILS[i][0], t)
    ensures Leads(i, t)
  {
    hide Leads, Named;
    if i < 5 {
      FirstTailsLead(i, t);
    } else if i < 10 {
      MiddleTailsLead(i, t);
    } else {
      LastTailsLead(i, t);
    }
  }

  lemma FirstTailsLead(i: nat, t: Tap)
    requires i < 5 && Named(TAILS[i][0], t)
    ensures Leads(i, t)
  {
    hide Walk;
    Unroll(t, Levels(TAILS[i][2..]));
  }

  lemma MiddleTailsLead(i: nat, t: Tap)
    requires 5 <= i < 10 && Named(TAILS[i][0], t)
    ensures Leads(i, t)
  {
    hide Walk;
    Unroll(t, Levels(TAILS[i][2..]));
  }

  lemma LastTailsLead(i: nat, t: Tap)
    requires 10 <= i < |TAILS| && Named(TAILS[i][0], t)
    ensures Leads(i, t)
  {
    hide Walk;
    Unroll(t, Levels(TAILS[i][2..]));
  }

  /** A walk of up to five steps, written out. */
  lemma Unroll(t: Tap, levels: seq<bool>)
    requires 1 <= |levels| <= 5
    ensures Walk(t, levels) ==
      var t1 := Next(t, levels[0]);
      if |levels| == 1 then t1 else
      var t2 := Next(t1, levels[1]);
      if |levels| == 2 then t2 else
      var t3 := Next(t2, levels[2]);
      if |levels| == 3 then t3 else
      var t4 := Next(t3, levels[3]);
      if |levels| == 4 then t4 else Next(t4, levels[4])
    decreases |levels|
  {
    assert levels == [levels[0]] + levels[1..];
    WalkStep(t, levels[0], levels[1..]);
    if |levels| > 1 {
      Unroll(Next(t, levels[0]), levels[1..]);
    } else {
      assert levels[1..] == [];
    }
  }

  // ----- one call at a time

  /** The calls a driver makes on the controller. */
  datatype Call =
    | Move(required: char)
    | Bits(bits: int, value: nat, target: char)
    | Bytes(f: Frames, data: seq<byte>)
    | Marker(stay: nat)
    | Wait(time: nat, extra: nat)

  predicate GoodCall(c: Call) {
    match c
    case Move(_) => true
    case Bits(bits, _, _) => bits <= 7
    case Bytes(f, data) => GoodBytes(f, data)
    case Marker(_) => true
    case Wait(_, _) => true
  }

  function Apply(s: Session, c: Call): Session
    requires GoodCall(c)
  {
    match c
    case Move(required) => Enter(s, required, false)
    case Bits(bits, value, target) => WriteBit(s, bits, value, target)
    case Bytes(f, data) => WriteBytes(s, f, data)
    case Marker(stay) => ResetMark(s, stay)
    case Wait(time, extra) => Delay(s, time, extra)
  }

  /** Forcing the reset brings the letter and the chip together, wherever the chip was. */
  lemma ResetTracks(s: Session, tdi: bool)
    requires s.whole
    ensures Tracks(Transition(s, "XR11111", tdi))
  {
    var levels := Levels("XR11111"[2..]);
    assert levels == [true, true, true, true, true];
    FiveOnesReset(Settle(s.signal), tdi);
    ClockTmsWalks(Settle(s.signal), levels, tdi);
  }

  /** A move keeps track, whether the table knows it or not. */
  lemma MoveTracks(s: Session, required: char, tdi: bool)
    requires Tracks(s)
    ensures Tracks(Enter(s, required, tdi))
  {
    var i := TailIndex(From(s.letter), required);
    if i < |TAILS| {
      TailInTable(From(s.letter), required);
      TableHasTail(i);
      TailLeads(i, Settle(s.signal).tap);
      ClockTmsWalks(Settle(s.signal), Levels(TAILS[i][2..]), tdi);
    }
  }

  /** The letter a move ends at. */
  function MovedTo(letter: char, required: char): char {
    if TailIndex(From(letter), required) < |TAILS| then required else letter
  }

  lemma MovedToIs(s: Session, required: char, tdi: bool)
    ensures Enter(s, required, tdi).letter == MovedTo(s.letter, required)
    ensures Enter(s, required, tdi).whole == s.whole
  {
    TailInTable(From(s.letter), required);
  }

  // ----- clocks with TMS held

  /** Where clocks with TMS high lead. */
  function High(t: Tap, n: nat): Tap
    decreases n
  {
    if n == 0 then t else High(Next(t, true), n - 1)
  }

  lemma {:induction false} HighFromReset(n: nat)
    ensures High(Reset, n) == Reset
  {
    if n > 0 {
      HighFromReset(n - 1);
    }
  }

  lemma HighFromUpdate(t: Tap, n: nat)
    requires n >= 1 && t in {UpdateDR, UpdateIR}
    ensures High(t, n) == if n == 1 then SelectDR else if n == 2 then SelectIR else Reset
  {
    assert High(t, n) == High(SelectDR, n - 1);
    if n >= 2 {
      assert High(SelectDR, n - 1) == High(SelectIR, n - 2);
    }
    if n >= 3 {
      assert High(SelectIR, n - 2) == High(Reset, n - 3);
      HighFromReset(n - 3);
    }
  }

  lemma HighFromExit1(t: Tap, n: nat)
    requires n >= 1 && t in {Exit1DR, Exit1IR}
    ensures n == 1 ==> High(t, n) in {UpdateDR, UpdateIR}
    ensures n >= 2 ==> High(t, n) == if n == 2 then SelectDR else if n == 3 then SelectIR else Reset
  {
    var u := Next(t, true);
    assert High(t, n) == High(u, n - 1);
    if n >= 2 {
      HighFromUpdate(u, n - 1);
    }
  }

  lemma HighFromShift(t: Tap, n: nat)
    requires n >= 1 && t in {ShiftDR, ShiftIR}
    ensures High(t, n) !in {ShiftDR, ShiftIR}
  {
    var u := Next(t, true);
    assert High(t, n) == High(u, n - 1);
    if n >= 2 {
      HighFromExit1(u, n - 1);
    }
  }

  lemma {:induction false} ClockDataHigh(c: Chip, bits: seq<bool>)
    requires c.tms
    ensures ClockData(c, bits).tap == High(c.tap, |bits|) && ClockData(c, bits).tms
    decreases |bits|
  {
    if bits != [] {
      ClockDataHigh(Clock(c, c.tms, bits[0]), bits[1..]);
    }
  }

  lemma ClockOnesHigh(c: Chip, n: nat, tdi: bool)
    ensures ClockTms(c, Ones(n), tdi).tap == High(c.tap, n)
    ensures n > 0 ==> ClockTms(c, Ones(n), tdi).tms
  {
    hide ClockTms, Walk, High;
    ClockTmsWalks(c, Ones(n), tdi);
    WalkOnes(c.tap, n);
  }

  lemma {:induction false} WalkOnes(t: Tap, n: nat)
    ensures Walk(t, Ones(n)) == High(t, n)
    decreases n
  {
    hide Next;
    if n > 0 {
      assert Ones(n)[1..] == Ones(n - 1);
      WalkOnes(Next(t, true), n - 1);
    }
  }

  /** Data bits keep track, except where TMS was left high on the way through. */
  lemma DataTracks(s: Session, bits: seq<bool>)
    requires Tracks(s) && s.letter !in {'E', 'U'}
    ensures Tracks(Shift(s, bits)) && Shift(s, bits).letter == s.letter
  {
    var c := Settle(s.signal);
    if s.letter != NONE {
      if c.tap == ShiftDR {
        ShiftDRStays(c, bits);
      } else if c.tap == ShiftIR {
        ShiftIRStays(c, bits);
      } else {
        DataInRest(c, bits);
      }
    }
  }

  // ----- exactly which calls keep track

  /** Where `clocks` data clocks with TMS high have led from Exit1 or Update. */
  predicate LostAt(letter: char, tap: Tap, clocks: nat) {
    if letter == 'E' then
      if clocks == 1 then tap in {UpdateDR, UpdateIR}
      else tap == if clocks == 2 then SelectDR else if clocks == 3 then SelectIR else Reset
    else
      letter == 'U' && tap == if clocks == 1 then SelectDR else if clocks == 2 then SelectIR else Reset
  }

  /** The driver is in Exit1 or Update by name, but has clocked data with TMS high there. */
  predicate Lost(s: Session, clocks: nat) {
    clocks >= 1 && s.letter in {'E', 'U'} && LostAt(s.letter, Settle(s.signal).tap, clocks) && Settle(s.signal).tms
  }

  lemma DataLoses(s: Session, bits: seq<bool>)
    requires Tracks(s) && s.letter in {'E', 'U'} && bits != []
    ensures Lost(Shift(s, bits), |bits|) && !Tracks(Shift(s, bits))
  {
    var c := Settle(s.signal);
    ClockDataHigh(c, bits);
    if s.letter == 'E' {
      HighFromExit1(c.tap, |bits|);
    } else {
      HighFromUpdate(c.tap, |bits|);
    }
  }

  /** From a lost session only the way from Exit1 to Idle, after at least three clocks, finds the chip again. */
  lemma LostMove(s: Session, clocks: nat, required: char, tdi: bool)
    requires s.whole && Lost(s, clocks)
    ensures Tracks(Enter(s, required, tdi)) <==> s.letter == 'E' && required == 'I' && clocks >= 3
  {
    var c := Settle(s.signal);
    var i := TailIndex(s.letter, required);
    if i < |TAILS| {
      TailInTable(s.letter, required);
      TableHasTail(i);
      ClockTmsWalks(c, Levels(TAILS[i][2..]), tdi);
      LostWalk(s.letter, c.tap, clocks, required);
      assert Settle(Enter(s, required, tdi).signal) == ClockTms(c, Levels(TAILS[i][2..]), tdi);
    }
  }

  lemma LostWalk(letter: char, t: Tap, clocks: nat, required: char)
    requires clocks >= 1 && letter in {'E', 'U'} && LostAt(letter, t, clocks)
    requires TailIndex(letter, required) < |TAILS|
    ensures var tail := TAILS[TailIndex(letter, required)];
      |tail| >= 3 && tail[1] == required
      && (Named(required, Walk(t, Levels(tail[2..]))) <==> letter == 'E' && required == 'I' && clocks >= 3)
      && Level(required, Levels(tail[2..])[|tail| - 3])
  {
    var tail := TAILS[TailIndex(letter, required)];
    TailInTable(letter, required);
    if letter == 'U' {
      assert tail == "UD100";
    } else if required == 'I' {
      assert tail == "EI10";
    } else {
      assert tail == "ED1100";
    }
    Unroll(t, Levels(tail[2..]));
  }

  /** A bit call keeps track unless it shifts in Exit1 or Update by name. */
  predicate SafeBits(letter: char, bits: int, target: char) {
    var at := MovedTo(letter, 'S');
    at !in {'E', 'U'} || bits <= 0 || (at == 'E' && target == 'I' && bits >= 3)
  }

  lemma BitsTracks(s: Session, bits: int, value: nat, target: char)
    requires Tracks(s) && bits <= 7
    ensures Tracks(WriteBit(s, bits, value, target)) <==> SafeBits(s.letter, bits, target)
  {
    var s1 := Enter(s, 'S', false);
    MoveTracks(s, 'S', false);
    MovedToIs(s, 'S', false);
    var tdi := bits >= 0 && Bit(value, bits);
    if bits <= 0 {
      MoveTracks(s1, target, tdi);
    } else {
      var s2 := Shift(s1, BitsOf(value, bits));
      if s1.letter in {'E', 'U'} {
        DataLoses(s1, BitsOf(value, bits));
        LostMove(s2, bits, target, tdi);
      } else {
        DataTracks(s1, BitsOf(value, bits));
        MoveTracks(s2, target, tdi);
      }
    }
  }

  /** Among the letters, clocks with TMS high stay only where the letter says nothing or says Reset. */
  lemma HighNamed(letter: char, t: Tap, n: nat)
    requires n >= 1 && Named(letter, t) && letter != 'I' && letter != 'P'
    ensures Named(letter, High(t, n)) <==> letter == 'R' || letter == NONE
  {
    if letter == 'R' {
      HighFromReset(n);
    } else if letter == 'E' {
      HighFromExit1(t, n);
    } else if letter == 'U' {
      HighFromUpdate(t, n);
    } else if letter != NONE {
      HighFromShift(t, n);
    }
  }

  predicate SafeMarker(letter: char) {
    letter in {'I', 'P', 'R', NONE}
  }

  lemma MarkerTracks(s: Session, stay: nat)
    requires Tracks(s)
    ensures Tracks(ResetMark(s, stay)) <==> SafeMarker(s.letter)
  {
    var s1 := Enter(s, 'R', false);
    MoveTracks(s, 'R', false);
    MovedToIs(s, 'R', false);
    ClockOnesHigh(Settle(s1.signal), stay + 1, false);
    HighNamed(s1.letter, Settle(s1.signal).tap, stay + 1);
  }

  /** Clocks with TMS low stay in Idle and Pause, and leave Update for Idle. */
  lemma {:induction false} LowClocks(c: Chip, n: nat)
    ensures c.tap in {Idle, PauseDR, PauseIR} ==> ClockTms(c, Zeros(n), false).tap == c.tap
    ensures c.tap in {UpdateDR, UpdateIR} && n > 0 ==> ClockTms(c, Zeros(n), false).tap == Idle
    ensures !ClockTms(c, Zeros(n), false).tms || (n == 0 && c.tms)
    decreases n
  {
    if n > 0 {
      assert Zeros(n)[1..] == Zeros(n - 1);
      LowClocks(Clock(c, false, false), n - 1);
    }
  }

  /** Where waiting from a letter stays: Idle and Pause keep their state, Update does not. */
  predicate Waited(s: Session, from: Session, clocked: bool) {
    && s.letter == from.letter && s.whole == from.whole
    && (from.letter in {'I', 'P'} ==> Tracks(s))
    && (from.letter == 'U' && clocked ==> Settle(s.signal).tap == Idle)
    && (!clocked ==> s == from)
  }

  lemma IdleClocksWait(s: Session, from: Session, clocked: bool, n: nat)
    requires Tracks(from) && Waited(s, from, clocked) && n > 0
    ensures Waited(IdleClocks(s, n), from, true)
  {
    LowClocks(Settle(s.signal), n);
  }

  lemma {:induction false} IdleRunsWait(s: Session, from: Session, clocked: bool, runs: nat)
    requires Tracks(from) && Waited(s, from, clocked)
    ensures Waited(IdleRuns(s, runs), from, clocked || runs > 0)
  {
    if runs > 0 {
      IdleRunsWait(s, from, clocked, runs - 1);
      IdleClocksWait(IdleRuns(s, runs - 1), from, clocked || runs > 1, 7);
    }
  }

  predicate SafeWait(letter: char, time: nat, extra: nat) {
    letter != 'U' || (time == 0 && extra == 0)
  }

  lemma WaitTracks(s: Session, time: nat, extra: nat)
    requires Tracks(s)
    ensures Tracks(Delay(s, time, extra)) <==> SafeWait(s.letter, time, extra)
  {
    var s1 := Enter(s, 'I', false);
    MoveTracks(s, 'I', false);
    MovedToIs(s, 'I', false);
    var s2 := if extra > 0 then IdleClocks(s1, 1) else s1;
    if extra > 0 {
      IdleClocksWait(s1, s1, false, 1);
    }
    IdleRunsWait(s2, s1, extra > 0, time);
    if extra > 0 {
      IdleClocksWait(IdleRuns(s2, time), s1, true, extra + 1);
    }
  }

  /** A last frame of one byte that is held back leaves a data command with nothing in it. */
  predicate EmptyFrame(f: Frames, size: nat)
    requires f.maxFrame >= 1
  {
    f.opttail > 0 && f.maxFrame > 1 && size % f.maxFrame == 1
  }

  predicate SafeBytes(letter: char, f: Frames, size: nat)
    requires f.maxFrame >= 1
  {
    var at := MovedTo(letter, 'S');
    || size == 0
    || (!EmptyFrame(f, size) && (at !in {'E', 'U'} || (at == 'E' && f.target == 'I' && size % f.maxFrame != 0)))
  }

  predicate GoodBytes(f: Frames, data: seq<byte>) {
    GoodFrames(f) && (f.maxFrame <= 0x1_0000 || |data| <= 0x1_0000)
  }

  lemma FrameEndTracks(s: Session, f: Frames, data: seq<byte>)
    requires Tracks(s) && s.letter !in {'E', 'U'} && GoodFrames(f) && 0 < |data| < f.maxFrame
    ensures Tracks(FrameEnd(s, f, data))
  {
    hide Tracks, Enter;
    var s1 := if f.target == 'E' then WriteBit(s, f.dc2trail, 0xff, NONE) else s;
    MovedToIs(s, 'S', false);
    BitsTracks(s, f.dc2trail, 0xff, NONE);
    if f.opttail > 0 {
      BitsTracks(s1, 7, Swapped(f.swap, [data[|data| - 1]])[0], f.target);
    } else {
      BitsTracks(s1, -f.opttail, f.exchar, f.target);
    }
  }

  lemma WholeOfFrameEnd(s: Session, f: Frames, data: seq<byte>)
    requires GoodFrames(f) && 0 < |data| < f.maxFrame
    ensures FrameEnd(s, f, data).whole == s.whole
  {
  }

  /** Frames are whole commands exactly if none of them is empty. */
  lemma {:induction false} FramesWhole(s: Session, f: Frames, data: seq<byte>)
    requires GoodBytes(f, data)
    ensures SendFrames(s, f, data).whole <==> s.whole && (data == [] || !EmptyFrame(f, |data|))
    decreases |data|
  {
    if data != [] {
      FramesStep(s, f, data);
      EmptyStep(f, |data|);
      var n := FrameLength(f, |data|);
      var s1 := Shift(s, DataBitsOf(Swapped(f.swap, data[..n]))).(whole := s.whole && n >= 1);
      if |data| < f.maxFrame {
        WholeOfFrameEnd(s1, f, data);
      } else {
        FramesWhole(s1, f, data[f.maxFrame..]);
      }
    }
  }

  /** Taking one whole frame away leaves the remainder. */
  lemma ModStep(n: nat, m: nat)
    requires 1 <= m <= n
    ensures n % m == (n - m) % m
  {
    var q, r := n / m, n % m;
    assert n - m == (q - 1) * m + r;
    RemainderUnique(n - m, q - 1, r, m);
  }

  lemma RemainderUnique(x: nat, q: int, r: nat, m: nat)
    requires 1 <= m && r < m && x == q * m + r
    ensures x % m == r
  {
    var d := q - x / m;
    assert d * m == x % m - r;
    MultipleIsFar(d, m);
  }

  lemma MultipleIsFar(d: int, m: int)
    requires m >= 1
    ensures d >= 1 ==> d * m >= m
    ensures d <= -1 ==> d * m <= -m
  {
  }

  /** What one frame does: its bytes, and then its end or the frames after it. */
  lemma FramesStep(s: Session, f: Frames, data: seq<byte>)
    requires GoodBytes(f, data) && data != []
    ensures var n := FrameLength(f, |data|);
      var s1 := Shift(s, DataBitsOf(Swapped(f.swap, data[..n]))).(whole := s.whole && n >= 1);
      SendFrames(s, f, data) == if |data| < f.maxFrame then FrameEnd(s1, f, data)
                                else SendFrames(s1, f, data[f.maxFrame..])
  {
  }

  lemma EmptyStep(f: Frames, size: nat)
    requires f.maxFrame >= 1 && size >= 1
    ensures size < f.maxFrame ==> (EmptyFrame(f, size) <==> FrameLength(f, size) == 0) && size % f.maxFrame == size
    ensures size == f.maxFrame ==> !EmptyFrame(f, size) && size % f.maxFrame == 0
    ensures size > f.maxFrame ==>
              && (EmptyFrame(f, size) <==> EmptyFrame(f, size - f.maxFrame))
              && size % f.maxFrame == (size - f.maxFrame) % f.maxFrame
  {
    if size < f.maxFrame {
      RemainderUnique(size, 0, size, f.maxFrame);
    } else if size == f.maxFrame {
      RemainderUnique(size, 1, 0, f.maxFrame);
    } else {
      ModStep(size, f.maxFrame);
    }
  }

  /** From any letter but Exit1 and Update, frames keep track exactly if none of them is empty. */
  lemma {:induction false} FramesTrack(s: Session, f: Frames, data: seq<byte>)
    requires Tracks(s) && s.letter !in {'E', 'U'} && GoodBytes(f, data) && data != []
    ensures Tracks(SendFrames(s, f, data)) <==> !EmptyFrame(f, |data|)
    decreases |data|
  {
    FramesStep(s, f, data);
    EmptyStep(f, |data|);
    var n := FrameLength(f, |data|);
    var bits := DataBitsOf(Swapped(f.swap, data[..n]));
    var s1 := Shift(s, bits).(whole := s.whole && n >= 1);
    DataTracks(s, bits);
    if |data| < f.maxFrame {
      WholeOfFrameEnd(s1, f, data);
      if n > 0 {
        FrameEndTracks(s1, f, data);
      }
    } else if |data| > f.maxFrame {
      FramesTrack(s1, f, data[f.maxFrame..]);
    }
  }

  /** By name in Exit1 or Update, in truth already reset. */
  predicate Adrift(s: Session) {
    s.letter in {'E', 'U'} && Settle(s.signal).tap == Reset && Settle(s.signal).tms
  }

  lemma BitsAdrift(s: Session, bits: seq<bool>)
    requires s.letter in {'E', 'U'} && (Adrift(s) || (Tracks(s) && |bits| >= 4))
    ensures Adrift(Shift(s, bits))
  {
    var c := Settle(s.signal);
    ClockDataHigh(c, bits);
    if Adrift(s) {
      HighFromReset(|bits|);
    } else if s.letter == 'E' {
      HighFromExit1(c.tap, |bits|);
    } else {
      HighFromUpdate(c.tap, |bits|);
    }
  }

  lemma FrameEndAdrift(s: Session, f: Frames, data: seq<byte>)
    requires Adrift(s) && s.whole && GoodFrames(f) && 0 < |data| < f.maxFrame
    ensures Tracks(FrameEnd(s, f, data)) <==> s.letter == 'E' && f.target == 'I'
  {
    hide Tracks, Lost;
    var s1 := if f.target == 'E' then WriteBit(s, f.dc2trail, 0xff, NONE) else s;
    BitsStayAdrift(s, f.dc2trail, 0xff);
    if f.opttail > 0 {
      BitAdrift(s1, 7, Swapped(f.swap, [data[|data| - 1]])[0], f.target);
    } else {
      BitAdrift(s1, -f.opttail, f.exchar, f.target);
    }
  }

  lemma BitsStayAdrift(s: Session, bits: nat, value: nat)
    requires Adrift(s) && bits <= 7
    ensures WriteBit(s, bits, value, NONE) == if bits > 0 then Shift(s, BitsOf(value, bits)) else s
    ensures Adrift(WriteBit(s, bits, value, NONE))
  {
    BitsAdrift(s, BitsOf(value, bits));
  }

  /** By name in Exit1 but reset in truth, only the move to Idle finds the chip again. */
  lemma BitAdrift(s: Session, bits: nat, value: nat, target: char)
    requires Adrift(s) && s.whole && bits <= 7
    ensures Tracks(WriteBit(s, bits, value, target)) <==> s.letter == 'E' && target == 'I'
  {
    BitsStayAdrift(s, bits, value);
    var s1 := WriteBit(s, bits, value, NONE);
    assert Lost(s1, 4);
    LostMove(s1, 4, target, Bit(value, bits));
  }

  lemma AdriftAway(s: Session)
    ensures Adrift(s) || !s.whole ==> !Tracks(s)
  {
  }

  lemma {:induction false} FramesAdrift(s: Session, f: Frames, data: seq<byte>)
    requires s.letter in {'E', 'U'} && (Adrift(s) || Tracks(s)) && s.whole && GoodBytes(f, data) && data != []
    ensures Tracks(SendFrames(s, f, data)) <==>
              !EmptyFrame(f, |data|) && s.letter == 'E' && f.target == 'I' && |data| % f.maxFrame != 0
    decreases |data|
  {
    hide Tracks, Adrift, Enter, LostAt, FrameEnd;
    FramesStep(s, f, data);
    EmptyStep(f, |data|);
    var n := FrameLength(f, |data|);
    var bits := DataBitsOf(Swapped(f.swap, data[..n]));
    var s1 := Shift(s, bits).(whole := s.whole && n >= 1);
    if n > 0 {
      BitsAdrift(s, bits);
      AdriftAway(Shift(s, bits));
    }
    if |data| < f.maxFrame {
      WholeOfFrameEnd(s1, f, data);
      AdriftAway(FrameEnd(s1, f, data));
      if n > 0 {
        FrameEndAdrift(s1, f, data);
      }
    } else if |data| > f.maxFrame {
      FramesAdrift(s1, f, data[f.maxFrame..]);
    }
  }

  lemma BytesTracks(s: Session, f: Frames, data: seq<byte>)
    requires Tracks(s) && GoodBytes(f, data)
    ensures Tracks(WriteBytes(s, f, data)) <==> SafeBytes(s.letter, f, |data|)
  {
    var s1 := Enter(s, 'S', false);
    MoveTracks(s, 'S', false);
    MovedToIs(s, 'S', false);
    if data != [] {
      if s1.letter in {'E', 'U'} {
        FramesAdrift(s1, f, data);
      } else {
        FramesTrack(s1, f, data);
      }
    }
  }

  // ----- runs

  /** Whether a call made at a letter keeps track; the driver could test this before the call. */
  predicate Safe(letter: char, c: Call)
    requires GoodCall(c)
  {
    match c
    case Move(_) => true
    case Bits(bits, _, target) => SafeBits(letter, bits, target)
    case Bytes(f, data) => SafeBytes(letter, f, |data|)
    case Marker(_) => SafeMarker(letter)
    case Wait(time, extra) => SafeWait(letter, time, extra)
  }

  predicate GoodCalls(calls: seq<Call>) {
    forall i | 0 <= i < |calls| :: GoodCall(calls[i])
  }

  predicate SafeRun(s: Session, calls: seq<Call>)
    requires GoodCalls(calls)
    decreases |calls|
  {
    calls == [] || (Safe(s.letter, calls[0]) && SafeRun(Apply(s, calls[0]), calls[1..]))
  }

  /** The driver and the chip agree before and after every call of a run. */
  predicate TracksThroughout(s: Session, calls: seq<Call>)
    requires GoodCalls(calls)
    decreases |calls|
  {
    Tracks(s) && (calls == [] || TracksThroughout(Apply(s, calls[0]), calls[1..]))
  }

  lemma CallTracks(s: Session, c: Call)
    requires Tracks(s) && GoodCall(c)
    ensures Tracks(Apply(s, c)) <==> Safe(s.letter, c)
  {
    match c
    case Move(required) => MoveTracks(s, required, false);
    case Bits(bits, value, target) => BitsTracks(s, bits, value, target);
    case Bytes(f, data) => BytesTracks(s, f, data);
    case Marker(stay) => MarkerTracks(s, stay);
    case Wait(time, extra) => WaitTracks(s, time, extra);
  }

  /** A run keeps track throughout exactly if every call of it is safe at the letter it is made at. */
  lemma {:induction false} RunTracks(s: Session, calls: seq<Call>)
    requires Tracks(s) && GoodCalls(calls)
    ensures TracksThroughout(s, calls) <==> SafeRun(s, calls)
    decreases |calls|
  {
    if calls != [] {
      CallTracks(s, calls[0]);
      if Safe(s.letter, calls[0]) {
        RunTracks(Apply(s, calls[0]), calls[1..]);
      }
    }
  }

  /** After the forced reset every safe run keeps track, whatever state the chip was in. */
  lemma TracksFromReset(chip: Chip, calls: seq<Call>)
    requires GoodCalls(calls)
    requires SafeRun(Transition(Session(NONE, Start(chip), true), "XR11111", false), calls)
    ensures TracksThroughout(Transition(Session(NONE, Start(chip), true), "XR11111", false), calls)
  {
    var s := Session(NONE, Start(chip), true);
    ResetTracks(s, false);
    RunTracks(Transition(s, "XR11111", false), calls);
  }

  /** Not every run does: leaving Shift-DR by name for Exit1 and then writing one bit more moves the chip on
      to Update-DR, unnoticed, wherever it was before the forced reset. */
  lemma UntrackedRun(chip: Chip)
    ensures var s := Transition(Session(NONE, Start(chip), true), "XR11111", false);
      var calls := [Move('I'), Bits(0, 0, 'E'), Bits(1, 0, NONE)];
      Tracks(s) && !TracksThroughout(s, calls)
  {
    hide Enter, Tracks;
    var s := Transition(Session(NONE, Start(chip), true), "XR11111", false);
    var calls := [Move('I'), Bits(0, 0, 'E'), Bits(1, 0, NONE)];
    ResetTracks(Session(NONE, Start(chip), true), false);
    RunTracks(s, calls);
    MovedToIs(s, 'I', false);
    var s1 := Apply(s, calls[0]);
    var s2 := Apply(s1, calls[1]);
    IntoExit1(s1);
    assert !Safe(s2.letter, calls[2]);
    var rest, last := calls[1..], calls[1..][1..];
    assert rest[0] == calls[1] && last[0] == calls[2];
    assert !SafeRun(s2, last);
    assert !SafeRun(s1, rest);
  }

  lemma IntoExit1(s: Session)
    requires s.letter == 'I'
    ensures Apply(s, Bits(0, 0, 'E')).letter == 'E'
  {
    MovedToIs(s, 'S', false);
    MovedToIs(Enter(s, 'S', false), 'E', Bit(0, 0));
  }
}
