/** What sending a file in frames and chunks shifts into the data registers. */
module JtagFile {
  import opened Bytes
  import opened Bits
  import opened Tap
  import opened Mpsse
  import opened JtagSession
  import opened JtagTracking
  import opened JtagScan

  /** What the instruction registers of the chain have been given. */
  function Ir(s: Session): seq<bool> {
    Settle(s.signal).ir
  }

  /** In Shift-DR with `bits` shifted in so far. */
  predicate InDR(s: Session, bits: seq<bool>) {
    match Settle(s.signal)
    case Chip(tap, tms, _, dr) => s.letter in {'S', 'D'} && tap == ShiftDR && !tms && dr == bits
  }

  /** Out of Shift-DR at Exit1 or Pause, with `bits` shifted in. */
  predicate LeftDR(s: Session, letter: char, bits: seq<bool>) {
    match Settle(s.signal)
    case Chip(tap, tms, _, dr) =>
      && s.letter == letter && tms == (letter == 'E') && dr == bits
      && tap == if letter == 'E' then Exit1DR else if letter == 'P' then PauseDR else Idle
  }

  /** Into Shift-DR, with some ones. */
  lemma IdleEntersDR(s: Session, n: nat)
    requires Tracks(s) && s.letter == 'I' && n <= 7
    ensures InDR(IdleToShiftDR(s, n), Ones(n))
    ensures Ir(IdleToShiftDR(s, n)) == Ir(s)
  {
    hide Enter, InDR, Tracks, WriteBit;
    IdleToDR(s);
    BitsInDR(Enter(s, 'D', false), [], n, 0xff);
    OnesOfFF(n);
    assert [] + Ones(n) == Ones(n);
  }

  lemma IdleToDR(s: Session)
    requires Tracks(s) && s.letter == 'I'
    ensures InDR(Enter(s, 'D', false), []) && Ir(Enter(s, 'D', false)) == Ir(s)
  {
    EnterBy(s, 'D', false, "ID100");
    assert Levels("100") == [true, false, false];
    ClockTms3(Settle(s.signal), true, false, false, false);
  }

  lemma BitsInDR(s: Session, before: seq<bool>, n: nat, value: nat)
    requires InDR(s, before) && n <= 7
    ensures InDR(WriteBit(s, n, value, NONE), before + BitsOf(value, n))
    ensures Ir(WriteBit(s, n, value, NONE)) == Ir(s)
  {
    StayInDR(s, before);
    if n > 0 {
      ShiftInDR(s, before, BitsOf(value, n));
    } else {
      assert before + [] == before;
    }
  }

  lemma StayInDR(s: Session, bits: seq<bool>)
    requires InDR(s, bits)
    ensures Enter(s, 'S', false) == s
  {
  }

  lemma PauseToShiftDR(s: Session, bits: seq<bool>)
    requires LeftDR(s, 'P', bits)
    ensures InDR(Enter(s, 'S', false), bits)
    ensures Ir(Enter(s, 'S', false)) == Ir(s)
  {
    EnterBy(s, 'S', false, "PS10");
    assert Levels("10") == [true, false];
    ClockTms2(Settle(s.signal), true, false, false);
  }

  lemma ShiftInDR(s: Session, before: seq<bool>, bits: seq<bool>)
    requires InDR(s, before)
    ensures InDR(Shift(s, bits), before + bits)
    ensures Ir(Shift(s, bits)) == Ir(s)
  {
    ShiftDRStays(Settle(s.signal), bits);
  }

  /** Where the chip is does not depend on whether the commands sent to it were whole. */
  lemma WholeAside(s: Session, whole: bool, bits: seq<bool>)
    requires InDR(s, bits)
    ensures InDR(s.(whole := whole), bits) && Ir(s.(whole := whole)) == Ir(s)
  {
  }

  lemma ShiftDRToLetter(s: Session, bits: seq<bool>, target: char, tdi: bool)
    requires InDR(s, bits) && target in {'E', 'P', 'I'}
    ensures LeftDR(Enter(s, target, tdi), target, bits + [tdi])
    ensures Ir(Enter(s, target, tdi)) == Ir(s)
  {
    hide Enter;
    EnterExits(s, target, tdi);
    ClockTmsWalks(Settle(s.signal), ExitLevels(target), tdi);
    ExitClocks(Settle(s.signal), target, tdi);
  }

  lemma Exit1DRToIdle(s: Session, bits: seq<bool>)
    requires LeftDR(s, 'E', bits)
    ensures LeftDR(Enter(s, 'I', false), 'I', bits)
    ensures Ir(Enter(s, 'I', false)) == Ir(s)
  {
    EnterBy(s, 'I', false, "EI10");
    assert Levels("10") == [true, false];
    ClockTms2(Settle(s.signal), true, false, false);
  }

  // ----- words and frames

  /** What a request in one piece amounts to. */
  lemma PlainStep(s: Session, data: seq<byte>)
    requires 0 < |data| <= 0x1_0000
    ensures WriteBytes(s, PLAIN, data) == Enter(Shift(Enter(s, 'S', false), DataBitsOf(data)), 'S', false)
  {
    PlainFrame(Enter(s, 'S', false), data);
  }

  lemma PlainFrame(s: Session, data: seq<byte>)
    requires 0 < |data| <= 0x1_0000
    ensures SendFrames(s, PLAIN, data) == WriteBit(Shift(s, DataBitsOf(data)), 0, 0, NONE)
  {
    assert data[..|data|] == data;
    assert Swapped(false, data) == data;
    assert FrameLength(PLAIN, |data|) == |data|;
    PlainEnd(Shift(s, DataBitsOf(data)), data);
  }

  lemma PlainEnd(s: Session, data: seq<byte>)
    requires 0 < |data| < SINGLE_FRAME
    ensures FrameEnd(s, PLAIN, data) == WriteBit(s, 0, 0, NONE)
  {
  }

  /** A request in one piece shifts its bytes, low bit first. */
  lemma PlainInDR(s: Session, before: seq<bool>, data: seq<byte>)
    requires InDR(s, before) && 0 < |data| <= 0x1_0000
    ensures InDR(WriteBytes(s, PLAIN, data), before + DataBitsOf(data))
    ensures Ir(WriteBytes(s, PLAIN, data)) == Ir(s)
  {
    PlainStep(s, data);
    StayInDR(s, before);
    ShiftInDR(s, before, DataBitsOf(data));
    StayInDR(Shift(s, DataBitsOf(data)), before + DataBitsOf(data));
  }

  /** Words are sent four bytes at a time; bytes past the last whole word are not sent. */
  lemma {:induction false} WordsInDR(s: Session, before: seq<bool>, data: seq<byte>)
    requires InDR(s, before)
    ensures InDR(WriteInt32(s, data), before + DataBitsOf(data[..|data| / 4 * 4]))
    ensures Ir(WriteInt32(s, data)) == Ir(s)
    decreases |data|
  {
    if |data| < 4 {
      assert before + DataBitsOf(data[..0]) == before;
    } else {
      PlainInDR(s, before, data[..4]);
      WordsInDR(WriteBytes(s, PLAIN, data[..4]), before + DataBitsOf(data[..4]), data[4..]);
      WordBits(before, data);
    }
  }

  lemma WordBits(before: seq<bool>, data: seq<byte>)
    requires |data| >= 4
    ensures before + DataBitsOf(data[..4]) + DataBitsOf(data[4..][..|data[4..]| / 4 * 4])
         == before + DataBitsOf(data[..|data| / 4 * 4])
  {
    var rest := data[4..];
    var used, restUsed := |data| / 4 * 4, |rest| / 4 * 4;
    assert used == 4 + restUsed;
    assert data[..used] == data[..4] + rest[..restUsed];
    DataBitsConcat(data[..4], rest[..restUsed]);
  }

  /** The settings file frames are sent with: at the end of a frame that is not full either its last byte rides
      on the move out, or ones do. */
  predicate FileFrames(f: Frames) {
    match f
    case Frames(target, maxFrame, opttail, _, exchar, dc2trail) =>
      && target in {'E', 'P'} && 1 <= maxFrame <= 0x1_0000 && opttail in {0, 1} && exchar == 1 && dc2trail <= 7
      && (opttail == 1 && target == 'E' ==> dc2trail == 0)
  }

  /** The ones after the last byte, if it is not the one that rides on the move out. */
  function AfterFrames(f: Frames): seq<bool> {
    if f.opttail == 1 then [] else Ones(if f.target == 'E' then f.dc2trail else 0) + [true]
  }

  lemma LastByteBits(b: byte)
    ensures BitsOf(b, 7) + [Bit(b, 7)] == DataBitsOf([b])
  {
    BitsOfSnoc(b, 7);
    assert [b][1..] == [];
    assert DataBitsOf([b]) == BitsOf(b, 8) + [];
  }

  /** What the end of a frame that is not full shifts: the byte held back, or the ones. */
  function EndBits(f: Frames, data: seq<byte>): seq<bool>
    requires data != []
  {
    (if f.opttail == 1 then DataBitsOf(Swapped(f.swap, data[|data| - 1..])) else []) + AfterFrames(f)
  }

  lemma FrameEndInDR(s: Session, before: seq<bool>, f: Frames, data: seq<byte>)
    requires InDR(s, before) && FileFrames(f) && 0 < |data| < f.maxFrame
    ensures LeftDR(FrameEnd(s, f, data), f.target, before + EndBits(f, data))
    ensures Ir(FrameEnd(s, f, data)) == Ir(s)
  {
    hide Enter, InDR, LeftDR;
    StayInDR(s, before);
    if f.opttail == 1 {
      var b := Swapped(f.swap, [data[|data| - 1]])[0];
      HeldByte(s, f, data);
      BitLeavesDR(s, before, 7, b, f.target);
      LastByteBits(b);
      assert Swapped(f.swap, data[|data| - 1..]) == [b];
      assert DataBitsOf([b]) == EndBits(f, data);
      BitsOfSnoc(b, 7);
    } else {
      var n := if f.target == 'E' then f.dc2trail else 0;
      OnesEnd(s, f, data);
      OnesOfFF(n);
      BitsInDR(s, before, n, 0xff);
      BitLeavesDR(WriteBit(s, n, 0xff, NONE), before + Ones(n), 0, 1, f.target);
      assert BitsOf(1, 0 + 1) == [true];
      assert before + Ones(n) + [true] == before + EndBits(f, data);
    }
  }

  /** The last bit rides on the clock that leaves. */
  lemma BitLeavesDR(s: Session, before: seq<bool>, n: nat, value: nat, target: char)
    requires InDR(s, before) && n <= 7 && target in {'E', 'P', 'I'}
    ensures LeftDR(WriteBit(s, n, value, target), target, before + BitsOf(value, n + 1))
    ensures Ir(WriteBit(s, n, value, target)) == Ir(s)
  {
    hide Enter, InDR, LeftDR;
    BitsInDR(s, before, n, value);
    ShiftDRToLetter(WriteBit(s, n, value, NONE), before + BitsOf(value, n), target, Bit(value, n));
    BitsOfSnoc(value, n);
    assert before + BitsOf(value, n) + [Bit(value, n)] == before + BitsOf(value, n + 1);
  }

  /** The held back byte, where no move is needed before it. */
  lemma HeldByte(s: Session, f: Frames, data: seq<byte>)
    requires FileFrames(f) && f.opttail == 1 && 0 < |data| < f.maxFrame && Enter(s, 'S', false) == s
    ensures FrameEnd(s, f, data) == WriteBit(s, 7, Swapped(f.swap, [data[|data| - 1]])[0], f.target)
  {
    assert WriteBit(s, 0, 0xff, NONE) == s;
  }

  /** The ones on the way out, where no byte is held back. */
  lemma OnesEnd(s: Session, f: Frames, data: seq<byte>)
    requires FileFrames(f) && f.opttail == 0 && 0 < |data| < f.maxFrame && Enter(s, 'S', false) == s
    ensures FrameEnd(s, f, data)
         == WriteBit(WriteBit(s, if f.target == 'E' then f.dc2trail else 0, 0xff, NONE), 0, 1, f.target)
  {
    assert WriteBit(s, 0, 0xff, NONE) == s;
  }

  lemma SwappedConcat(swap: bool, a: seq<byte>, b: seq<byte>)
    ensures DataBitsOf(Swapped(swap, a + b)) == DataBitsOf(Swapped(swap, a)) + DataBitsOf(Swapped(swap, b))
  {
    assert Swapped(swap, a + b) == Swapped(swap, a) + Swapped(swap, b);
    DataBitsConcat(Swapped(swap, a), Swapped(swap, b));
  }

  /** How a run of frames ends, by the size of what is left for its last frame. */
  predicate FramesEnd(s: Session, f: Frames, bits: seq<bool>, left: nat) {
    if left == 0 then InDR(s, bits) else LeftDR(s, f.target, bits + AfterFrames(f))
  }

  /** Frames shift every byte; only a partial last frame leaves Shift-DR. */
  lemma {:induction false} FramesInDR(s: Session, before: seq<bool>, f: Frames, data: seq<byte>)
    requires InDR(s, before) && FileFrames(f) && data != []
    ensures FramesEnd(SendFrames(s, f, data), f, before + DataBitsOf(Swapped(f.swap, data)), |data| % f.maxFrame)
    ensures Ir(SendFrames(s, f, data)) == Ir(s)
    decreases |data|
  {
    if |data| <= f.maxFrame {
      LastFrameInDR(s, before, f, data);
    } else {
      var m := f.maxFrame;
      var s1 := Shift(s, DataBitsOf(Swapped(f.swap, data[..m])));
      FullFrame(s, f, data);
      ShiftInDR(s, before, DataBitsOf(Swapped(f.swap, data[..m])));
      FramesInDR(s1, before + DataBitsOf(Swapped(f.swap, data[..m])), f, data[m..]);
      FrameBits(before, f.swap, data, m);
      EmptyStep(f, |data|);
    }
  }

  /** A full frame in the middle of a run. */
  lemma FullFrame(s: Session, f: Frames, data: seq<byte>)
    requires FileFrames(f) && |data| >= f.maxFrame
    ensures SendFrames(s, f, data)
         == SendFrames(Shift(s, DataBitsOf(Swapped(f.swap, data[..f.maxFrame]))), f, data[f.maxFrame..])
  {
    FramesStep(s, f, data);
  }

  /** The last frame of a run. */
  lemma LastFrameInDR(s: Session, before: seq<bool>, f: Frames, data: seq<byte>)
    requires InDR(s, before) && FileFrames(f) && 0 < |data| <= f.maxFrame
    ensures FramesEnd(SendFrames(s, f, data), f, before + DataBitsOf(Swapped(f.swap, data)), |data| % f.maxFrame)
    ensures Ir(SendFrames(s, f, data)) == Ir(s)
  {
    hide Enter, InDR, LeftDR, DataBitsOf, Swapped, FrameEnd;
    EmptyStep(f, |data|);
    if |data| == f.maxFrame {
      FullFrame(s, f, data);
      assert data[..|data|] == data && data[|data|..] == [];
      ShiftInDR(s, before, DataBitsOf(Swapped(f.swap, data)));
    } else {
      FramesStep(s, f, data);
      var n := if f.opttail == 1 then |data| - 1 else |data|;
      var bits := DataBitsOf(Swapped(f.swap, data[..n]));
      var s1 := Shift(s, bits).(whole := s.whole && n >= 1);
      ShiftInDR(s, before, bits);
      WholeAside(Shift(s, bits), s1.whole, before + bits);
      FrameEndInDR(s1, before + bits, f, data);
      PartFrameBits(before, f, data, n);
    }
  }

  lemma PartFrameBits(before: seq<bool>, f: Frames, data: seq<byte>, n: nat)
    requires data != [] && n == if f.opttail == 1 then |data| - 1 else |data|
    ensures before + DataBitsOf(Swapped(f.swap, data[..n])) + EndBits(f, data)
         == before + DataBitsOf(Swapped(f.swap, data)) + AfterFrames(f)
  {
    hide DataBitsOf, Swapped;
    if f.opttail == 1 {
      FrameBits(before, f.swap, data, n);
      assert before + DataBitsOf(Swapped(f.swap, data[..n])) + (DataBitsOf(Swapped(f.swap, data[n..])) + AfterFrames(f))
          == before + DataBitsOf(Swapped(f.swap, data[..n])) + DataBitsOf(Swapped(f.swap, data[n..])) + AfterFrames(f);
    } else {
      assert data[..n] == data;
      assert EndBits(f, data) == AfterFrames(f);
    }
  }

  lemma FrameBits(before: seq<bool>, swap: bool, data: seq<byte>, n: nat)
    requires n <= |data|
    ensures before + DataBitsOf(Swapped(swap, data[..n])) + DataBitsOf(Swapped(swap, data[n..]))
         == before + DataBitsOf(Swapped(swap, data))
  {
    assert data == data[..n] + data[n..];
    SwappedConcat(swap, data[..n], data[n..]);
  }

  // ----- chunks

  /** Between chunks: still shifting, or paused. */
  predicate BetweenChunks(s: Session, bits: seq<bool>) {
    InDR(s, bits) || LeftDR(s, 'P', bits)
  }

  lemma ChunkInDR(s: Session, before: seq<bool>, f: Frames, data: seq<byte>)
    requires BetweenChunks(s, before) && FileFrames(f) && data != []
    ensures FramesEnd(WriteBytes(s, f, data), f, before + DataBitsOf(Swapped(f.swap, data)), |data| % f.maxFrame)
    ensures Ir(WriteBytes(s, f, data)) == Ir(s)
  {
    if InDR(s, before) {
      StayInDR(s, before);
    } else {
      PauseToShiftDR(s, before);
    }
    FramesInDR(Enter(s, 'S', false), before, f, data);
  }

  /** The size of the last chunk of a file and the frame size it is sent with. */
  function LastChunk(size: nat): nat {
    if size <= FILE_READSIZE then size else LastChunk(size - FILE_READSIZE)
  }

  function LastLimit(size: nat, limit: nat): nat {
    if size <= FILE_READSIZE then limit else MAX_SINGLE_USB_DATA
  }

  /** What the last chunk of a file leaves for its last frame. */
  function LastLeft(size: nat, limit: nat): nat
    requires limit >= 1
  {
    LastChunk(size) % LastLimit(size, limit)
  }

  /** A first chunk that is not the last leaves no single byte for its last frame. */
  predicate FirstWhole(size: nat, limit: nat)
    requires limit >= 1
  {
    size > FILE_READSIZE ==> FILE_READSIZE % limit != 1
  }

  /** A whole file, sent in chunks: how it ends depends only on the last one. */
  lemma {:induction false} ChunksInDR(s: Session, before: seq<bool>, limit: nat, data: seq<byte>, e: FileEnd,
                                     swap: bool)
    requires BetweenChunks(s, before) && 1 <= limit <= MAX_SINGLE_USB_DATA && GoodEnd(e) && data != []
    ensures FramesEnd(SendChunks(s, limit, data, e, swap), ChunkFrames(LastLimit(|data|, limit), true, e, swap),
                      before + DataBitsOf(Swapped(swap, data)), LastLeft(|data|, limit))
    ensures Ir(SendChunks(s, limit, data, e, swap)) == Ir(s)
    decreases |data|
  {
    hide Enter, InDR, LeftDR, DataBitsOf, Swapped, SendFrames, AfterFrames;
    if |data| <= FILE_READSIZE {
      LastChunkStep(s, limit, data, e, swap);
      ChunkInDR(s, before, ChunkFrames(limit, true, e, swap), data);
    } else {
      var f := ChunkFrames(limit, false, e, swap);
      var chunk, rest := data[..FILE_READSIZE], data[FILE_READSIZE..];
      ChunkStep(s, limit, data, e, swap);
      ChunkInDR(s, before, f, chunk);
      NextChunk(WriteBytes(s, f, chunk), f, before + DataBitsOf(Swapped(swap, chunk)), FILE_READSIZE % limit);
      ChunksInDR(WriteBytes(s, f, chunk), before + DataBitsOf(Swapped(swap, chunk)), MAX_SINGLE_USB_DATA, rest, e,
                 swap);
      FrameBits(before, swap, data, FILE_READSIZE);
    }
  }

  lemma NextChunk(s: Session, f: Frames, bits: seq<bool>, left: nat)
    requires FramesEnd(s, f, bits, left) && f.target == 'P' && f.opttail == 1
    ensures BetweenChunks(s, bits)
  {
    assert bits + AfterFrames(f) == bits;
  }

  /** A full chunk leaves more than a single byte for its last frame, unless it is the first. */
  lemma FullChunks()
    ensures FILE_READSIZE % MAX_SINGLE_USB_DATA >= 2
  {
  }

  /** A file is sent in whole commands exactly if no chunk leaves a single byte for its last frame. */
  lemma {:induction false} ChunksWhole(s: Session, limit: nat, data: seq<byte>, e: FileEnd, swap: bool)
    requires 1 <= limit <= MAX_SINGLE_USB_DATA && e.dc2trail <= 7
    ensures SendChunks(s, limit, data, e, swap).whole
       <==> s.whole && FirstWhole(|data|, limit) && (e.opttail ==> LastLeft(|data|, limit) != 1)
    decreases |data|
  {
    hide Enter, SendFrames;
    if data == [] {
      RemainderUnique(0, 0, 0, limit);
    } else if |data| <= FILE_READSIZE {
      LastChunkStep(s, limit, data, e, swap);
      ChunkWhole(s, ChunkFrames(limit, true, e, swap), data);
      SingleByte(|data|, limit);
    } else {
      var f := ChunkFrames(limit, false, e, swap);
      var chunk, rest := data[..FILE_READSIZE], data[FILE_READSIZE..];
      ChunkStep(s, limit, data, e, swap);
      ChunkWhole(s, f, chunk);
      SingleByte(FILE_READSIZE, limit);
      FullChunks();
      ChunksWhole(WriteBytes(s, f, chunk), MAX_SINGLE_USB_DATA, rest, e, swap);
    }
  }

  /** Frames of one byte leave nothing over. */
  lemma SingleByte(size: nat, limit: nat)
    requires limit >= 1
    ensures size % limit == 1 ==> limit > 1
  {
  }

  /** A chunk is whole commands exactly if no frame of it is empty. */
  lemma ChunkWhole(s: Session, f: Frames, data: seq<byte>)
    requires GoodBytes(f, data)
    ensures WriteBytes(s, f, data).whole <==> s.whole && (data == [] || !EmptyFrame(f, |data|))
  {
    MovedToIs(s, 'S', false);
    FramesWhole(Enter(s, 'S', false), f, data);
  }

  lemma LastChunkStep(s: Session, limit: nat, data: seq<byte>, e: FileEnd, swap: bool)
    requires limit >= 1 && e.dc2trail <= 7 && 0 < |data| <= FILE_READSIZE
    ensures SendChunks(s, limit, data, e, swap) == WriteBytes(s, ChunkFrames(limit, true, e, swap), data)
  {
    assert data[..|data|] == data && data[|data|..] == [];
  }

  lemma ChunkStep(s: Session, limit: nat, data: seq<byte>, e: FileEnd, swap: bool)
    requires limit >= 1 && e.dc2trail <= 7 && |data| > FILE_READSIZE
    ensures var s1 := WriteBytes(s, ChunkFrames(limit, false, e, swap), data[..FILE_READSIZE]);
      SendChunks(s, limit, data, e, swap)
      == SendChunks(s1, MAX_SINGLE_USB_DATA, data[FILE_READSIZE..], e, swap)
  {
  }

  // ----- the bits of a byte, in reverse

  lemma SwapReverses(b: byte)
    ensures BitsOf(BitSwap(b), 8) == Reverse(BitsOf(b, 8))
  {
    var bits := BitsOf(b, 8);
    var r := Reverse(bits);
    EightBits(b);
    FromEightBits(r);
    SwapWeights(b, bits[0], bits[1], bits[2], bits[3], bits[4], bits[5], bits[6], bits[7]);
    FromBitsOf(r);
  }

  lemma SwapWeights(b: byte, b0: bool, b1: bool, b2: bool, b3: bool, b4: bool, b5: bool, b6: bool, b7: bool)
    requires b0 == (b % 2 == 1) && b1 == (b / 2 % 2 == 1) && b2 == (b / 4 % 2 == 1) && b3 == (b / 8 % 2 == 1)
    requires b4 == (b / 16 % 2 == 1) && b5 == (b / 32 % 2 == 1) && b6 == (b / 64 % 2 == 1) && b7 == (b / 128 % 2 == 1)
    ensures BitSwap(b) == Weight(b7, 1) + Weight(b6, 2) + Weight(b5, 4) + Weight(b4, 8)
                        + Weight(b3, 16) + Weight(b2, 32) + Weight(b1, 64) + Weight(b0, 128)
  {
    LowBitWeighs(b, 128);
    LowBitWeighs(b / 2, 64);
    LowBitWeighs(b / 4, 32);
    LowBitWeighs(b / 8, 16);
    LowBitWeighs(b / 16, 8);
    LowBitWeighs(b / 32, 4);
    LowBitWeighs(b / 64, 2);
    LowBitWeighs(b / 128, 1);
  }

  lemma LowBitWeighs(v: nat, weight: nat)
    ensures v % 2 * weight == Weight(v % 2 == 1, weight)
  {
    if v % 2 == 1 {
      assert 1 * weight == weight;
    }
  }

  /** The bits of a byte, by division. */
  lemma EightBits(b: byte)
    ensures var bits := BitsOf(b, 8);
      && bits[0] == (b % 2 == 1) && bits[1] == (b / 2 % 2 == 1)
      && bits[2] == (b / 4 % 2 == 1) && bits[3] == (b / 8 % 2 == 1)
      && bits[4] == (b / 16 % 2 == 1) && bits[5] == (b / 32 % 2 == 1)
      && bits[6] == (b / 64 % 2 == 1) && bits[7] == (b / 128 % 2 == 1)
  {
    forall k | 0 <= k < 8
      ensures BitsOf(b, 8)[k] == Bit(b, k)
      ensures Bit(b, k) == (b / [1, 2, 4, 8, 16, 32, 64, 128][k] % 2 == 1)
    {
      BitsOfAt(b, 8, k);
      BitByDivision(b, k);
    }
  }

  lemma {:induction false} BitByDivision(v: nat, k: nat)
    requires k < 8
    ensures Bit(v, k) == (v / [1, 2, 4, 8, 16, 32, 64, 128][k] % 2 == 1)
  {
    if k > 0 {
      BitByDivision(v / 2, k - 1);
      var p := [1, 2, 4, 8, 16, 32, 64, 128][k - 1];
      assert v / 2 / p == v / (2 * p);
    }
  }

  function Weight(bit: bool, weight: nat): nat {
    if bit then weight else 0
  }

  lemma FromEightBits(r: seq<bool>)
    requires |r| == 8
    ensures FromBits(r) == Weight(r[0], 1) + Weight(r[1], 2) + Weight(r[2], 4) + Weight(r[3], 8)
                         + Weight(r[4], 16) + Weight(r[5], 32) + Weight(r[6], 64) + Weight(r[7], 128)
  {
    FromFourBits(r);
    FromFourBits(r[4..]);
    assert r[4..][4..] == [];
  }

  lemma FromFourBits(r: seq<bool>)
    requires |r| >= 4
    ensures FromBits(r) == Weight(r[0], 1) + Weight(r[1], 2) + Weight(r[2], 4) + Weight(r[3], 8) + 16 * FromBits(r[4..])
  {
    FromTwoBits(r);
    FromTwoBits(r[2..]);
    assert r[2..][2..] == r[4..];
  }

  lemma FromTwoBits(r: seq<bool>)
    requires |r| >= 2
    ensures FromBits(r) == Weight(r[0], 1) + Weight(r[1], 2) + 4 * FromBits(r[2..])
  {
    assert FromBits(r[1..]) == Weight(r[1], 1) + 2 * FromBits(r[1..][1..]);
    assert r[1..][1..] == r[2..];
  }

  lemma {:induction false} SwappedIsHighBitFirst(data: seq<byte>)
    ensures DataBitsOf(Swapped(true, data)) == HighBitFirst(data)
  {
    if data != [] {
      SwappedIsHighBitFirst(data[1..]);
      SwapReverses(data[0]);
      assert Swapped(true, data)[1..] == Swapped(true, data[1..]);
    }
  }
}
