/** Configuring a device of a chain from a file: when the file arrives, and where in the device it lies. */
module JtagDelivery {
  import opened Bytes
  import opened Bits
  import opened Tap
  import opened Mpsse
  import opened JtagSession
  import opened JtagTracking
  import opened JtagScan
  import opened JtagFile

  /** A chain the driver's bit commands and its buffer of ones are long enough for. */
  predicate ChainFits(c: Chain) {
    GoodChain(c) && FillsFit(c, c.jtagIndex) && Trailing(c) <= 7
  }

  /** Words are sent whole; bytes past the last one are not sent. */
  function Words(data: seq<byte>): (words: seq<byte>)
    ensures |words| % 4 == 0
  {
    data[..|data| / 4 * 4]
  }

  // ----- before the file

  lemma {:induction false} ZerosOf0(n: nat)
    ensures BitsOf(0, n) == Zeros(n)
  {
    if n > 0 {
      ZerosOf0(n - 1);
      assert [false] + Zeros(n - 1) == Zeros(n);
    }
  }

  lemma {:induction false} ZeroBytes(data: seq<byte>)
    requires forall i | 0 <= i < |data| :: data[i] == 0
    ensures DataBitsOf(data) == Zeros(8 * |data|)
  {
    if data != [] {
      ZerosOf0(8);
      ZeroBytes(data[1..]);
      assert Zeros(8) + Zeros(8 * |data[1..]|) == Zeros(8 * |data|);
    }
  }

  /** The bits of a pad. A byte that is held back loses its last bit, as there is no move for it to ride on. */
  function PadLength(tail: int): nat {
    if tail > 0 then 55 else 56 - tail
  }

  lemma PadInDR(s: Session, before: seq<bool>, tail: int)
    requires InDR(s, before) && tail >= -7
    ensures InDR(WriteBytes(s, PadFrames(tail), PAD), before + Zeros(PadLength(tail)))
    ensures Ir(WriteBytes(s, PadFrames(tail), PAD)) == Ir(s)
  {
    hide InDR, Enter;
    var f := PadFrames(tail);
    var n, m := if tail > 0 then 6 else 7, if tail > 0 then 7 else -tail;
    var bits := DataBitsOf(Swapped(false, PAD[..n]));
    StayInDR(s, before);
    FramesStep(s, f, PAD);
    assert Swapped(false, PAD[..n]) == PAD[..n];
    ZeroBytes(PAD[..n]);
    ShiftInDR(s, before, bits);
    BitsInDR(Shift(s, bits), before + bits, m, 0);
    ZerosOf0(m);
    assert before + Zeros(8 * n) + Zeros(m) == before + Zeros(PadLength(tail));
    PadEnds(Shift(s, bits), tail);
  }

  lemma PadEnds(s: Session, tail: int)
    requires tail >= -7
    ensures FrameEnd(s, PadFrames(tail), PAD) == WriteBit(s, if tail > 0 then 7 else -tail, 0, NONE)
  {
  }

  function PadZeros(c: Chain, n: nat): nat
    requires GoodChain(c)
  {
    if n == 0 then 0 else PadZeros(c, n - 1) + PadLength(PadTail(c, n - 1))
  }

  lemma {:induction false} PadsInDR(s: Session, before: seq<bool>, c: Chain, n: nat)
    requires InDR(s, before) && GoodChain(c) && n <= PadCount(c)
    ensures InDR(SendPads(s, c, n), before + Zeros(PadZeros(c, n)))
    ensures Ir(SendPads(s, c, n)) == Ir(s)
    decreases n
  {
    hide InDR, WriteBytes;
    if n == 0 {
      assert before + Zeros(0) == before;
    } else {
      PadsInDR(s, before, c, n - 1);
      PadInDR(SendPads(s, c, n - 1), before + Zeros(PadZeros(c, n - 1)), PadTail(c, n - 1));
      assert before + Zeros(PadZeros(c, n - 1)) + Zeros(PadLength(PadTail(c, n - 1))) == before + Zeros(PadZeros(c, n));
    }
  }

  /** What goes into the data registers before the file: ones for the devices beyond, words and pads. */
  function Header(c: Chain, pre: seq<byte>, post: seq<byte>): seq<bool>
    requires GoodChain(c)
  {
    Ones(Trailing(c)) + DataBitsOf(Words(pre)) + Zeros(PadZeros(c, PadCount(c))) + DataBitsOf(Words(post))
  }

  lemma HeaderShifted(s: Session, c: Chain, read: bool, pre: seq<byte>, post: seq<byte>)
    requires Tracks(s) && CanIdle(s.letter) && ChainFits(c)
    ensures InDR(StartFile(s, c, read, pre, post), Header(c, pre, post))
    ensures Ir(StartFile(s, c, read, pre, post)) == Instruction(c, IRREG_CFG_IN, c.jtagIndex)
  {
    hide Enter, WriteCirreg, IdleToShiftDR, WriteInt32, SendPads, DataBitsOf, Tracks, InDR, Instruction;
    CirregShifts(s, c, read, IRREG_CFG_IN);
    IdleEntersDR(WriteCirreg(s, c, read, IRREG_CFG_IN), Trailing(c));
    var s1 := IdleToShiftDR(WriteCirreg(s, c, read, IRREG_CFG_IN), Trailing(c));
    var bits := Ones(Trailing(c)) + DataBitsOf(Words(pre));
    WordsInDR(s1, Ones(Trailing(c)), pre);
    PadsInDR(WriteInt32(s1, pre), bits, c, PadCount(c));
    WordsInDR(SendPads(WriteInt32(s1, pre), c, PadCount(c)), bits + Zeros(PadZeros(c, PadCount(c))), post);
  }

  // ----- the file and what comes after it

  /** The bits shifted after the file, when its last chunk leaves `left` bytes for its last frame: ones from the
      end of that frame, a one if a bit is shifted on the way out, and otherwise, if the last frame was full,
      a zero on the way to Idle. */
  function Surplus(e: FileEnd, left: nat): seq<bool> {
    var frame := if left == 0 || e.opttail then [] else Ones(if e.extraShift then 0 else e.dc2trail) + [true];
    if e.extraShift then frame + [true] else if left == 0 then [false] else frame
  }

  lemma SurplusIs(e: FileEnd, left: nat)
    ensures left == 0 && !e.extraShift ==> Surplus(e, left) == [false]
    ensures left == 0 && e.extraShift ==> Surplus(e, left) == [true]
    ensures left > 0 && e.opttail ==> Surplus(e, left) == if e.extraShift then [true] else []
    ensures left > 0 && !e.opttail && e.extraShift ==> Surplus(e, left) == [true, true]
    ensures left > 0 && !e.opttail && !e.extraShift ==> Surplus(e, left) == seq(e.dc2trail + 1, _ => true)
  {
  }

  /** No frame of the file is empty. */
  predicate NoEmptyFrame(e: FileEnd, size: nat, limit: nat)
    requires limit >= 1
  {
    FirstWhole(size, limit) && (e.opttail ==> LastLeft(size, limit) != 1)
  }

  /** Leaving Shift-DR for Idle without having left it before shifts one more bit. */
  lemma ShiftDRToIdle(s: Session, bits: seq<bool>)
    requires InDR(s, bits)
    ensures LeftDR(Enter(s, 'I', false), 'I', bits + [false])
    ensures Ir(Enter(s, 'I', false)) == Ir(s)
  {
    ShiftDRToLetter(s, bits, 'I', false);
  }

  /** The bit that is shifted on the way out after the file. */
  lemma ExtraShift(s: Session, bits: seq<bool>)
    requires BetweenChunks(s, bits)
    ensures LeftDR(Fill(s, 0, 'E'), 'E', bits + [true])
    ensures Ir(Fill(s, 0, 'E')) == Ir(s)
  {
    hide InDR, LeftDR, Enter, Bit;
    if InDR(s, bits) {
      StayInDR(s, bits);
    } else {
      PauseToShiftDR(s, bits);
    }
    var s1 := Enter(s, 'S', false);
    StayInDR(s1, bits);
    assert Bit(0xff, 0) by { LowBitOfFF(); }
    ShiftDRToLetter(s1, bits, 'E', true);
    FillNothing(s);
  }

  lemma LowBitOfFF()
    ensures Bit(0xff, 0)
  {
  }

  lemma FillNothing(s: Session)
    ensures Fill(s, 0, 'E') == Enter(Enter(s, 'S', false), 'E', Bit(0xff, 0))
  {
  }

  lemma FinishInIdle(s: Session, e: FileEnd, f: Frames, bits: seq<bool>, left: nat)
    requires FramesEnd(s, f, bits, left) && GoodEnd(e)
    requires f.opttail == (if e.opttail then 1 else 0) && f.dc2trail == e.dc2trail
    requires f.target == if e.extraShift then 'P' else 'E'
    ensures LeftDR(FinishFile(s, e.extraShift), 'I', bits + Surplus(e, left))
    ensures Ir(FinishFile(s, e.extraShift)) == Ir(s)
  {
    hide InDR, LeftDR, Enter, Fill;
    var after := if left == 0 then [] else AfterFrames(f);
    assert left == 0 ==> bits + after == bits;
    if e.extraShift {
      ExtraShift(s, bits + after);
      Exit1DRToIdle(Fill(s, 0, 'E'), bits + after + [true]);
      assert bits + after + [true] == bits + (after + [true]);
    } else if left == 0 {
      ShiftDRToIdle(s, bits);
    } else {
      Exit1DRToIdle(s, bits + after);
    }
  }

  /** After the chunks: the file's bits and the surplus. */
  lemma ChunksFinish(s: Session, before: seq<bool>, limit: nat, data: seq<byte>, e: FileEnd, swap: bool)
    requires InDR(s, before) && 1 <= limit <= MAX_SINGLE_USB_DATA && GoodEnd(e)
    ensures LeftDR(FinishFile(SendChunks(s, limit, data, e, swap), e.extraShift), 'I',
                   before + DataBitsOf(Swapped(swap, data)) + Surplus(e, LastLeft(|data|, limit)))
    ensures Ir(FinishFile(SendChunks(s, limit, data, e, swap), e.extraShift)) == Ir(s)
  {
    hide InDR, LeftDR, Enter, FinishFile, Surplus, LastLimit;
    var f := ChunkFrames(LastLimit(|data|, limit), true, e, swap);
    var all := before + DataBitsOf(Swapped(swap, data));
    if data == [] {
      assert all == before;
      NothingLeft(limit);
    } else {
      ChunksInDR(s, before, limit, data, e, swap);
    }
    FinishInIdle(SendChunks(s, limit, data, e, swap), e, f, all, LastLeft(|data|, limit));
  }

  lemma NothingLeft(limit: nat)
    requires limit >= 1
    ensures LastLeft(0, limit) == 0
  {
    RemainderUnique(0, 0, 0, limit);
  }

  lemma {:induction false} PadsWhole(s: Session, c: Chain, n: nat)
    requires GoodChain(c) && n <= PadCount(c)
    ensures SendPads(s, c, n).whole == s.whole
    decreases n
  {
    hide WriteBytes;
    if n > 0 {
      PadsWhole(s, c, n - 1);
      ChunkWhole(SendPads(s, c, n - 1), PadFrames(PadTail(c, n - 1)), PAD);
      EmptyStep(PadFrames(PadTail(c, n - 1)), 7);
    }
  }

  lemma {:induction false} WordsWhole(s: Session, data: seq<byte>)
    ensures WriteInt32(s, data).whole == s.whole
    decreases |data|
  {
    hide WriteBytes;
    if |data| >= 4 {
      ChunkWhole(s, PLAIN, data[..4]);
      WordsWhole(WriteBytes(s, PLAIN, data[..4]), data[4..]);
    }
  }

  lemma HeaderWhole(s: Session, c: Chain, read: bool, pre: seq<byte>, post: seq<byte>)
    requires Tracks(s) && CanIdle(s.letter) && ChainFits(c)
    ensures StartFile(s, c, read, pre, post).whole
  {
    hide Enter, WriteCirreg, WriteInt32, SendPads, Instruction, WriteBit;
    CirregShifts(s, c, read, IRREG_CFG_IN);
    var s0 := WriteCirreg(s, c, read, IRREG_CFG_IN);
    var s1 := IdleToShiftDR(s0, Trailing(c));
    MovedToIs(s0, 'D', false);
    BitsWhole(Enter(s0, 'D', false), Trailing(c), 0xff);
    WordsWhole(s1, pre);
    PadsWhole(WriteInt32(s1, pre), c, PadCount(c));
    WordsWhole(SendPads(WriteInt32(s1, pre), c, PadCount(c)), post);
  }

  lemma BitsWhole(s: Session, n: nat, value: nat)
    requires n <= 7
    ensures WriteBit(s, n, value, NONE).whole == s.whole
  {
    MovedToIs(s, 'S', false);
  }

  /** A file is sent in whole commands exactly if none of its frames is empty. */
  lemma FileWhole(s: Session, c: Chain, read: bool, e: FileEnd, data: seq<byte>,
                  pre: seq<byte>, post: seq<byte>, swap: bool, limit: nat)
    requires Tracks(s) && CanIdle(s.letter) && ChainFits(c) && 1 <= limit <= MAX_SINGLE_USB_DATA && e.dc2trail <= 7
    ensures StartFile(s, c, read, pre, post).whole
    ensures SendFile(s, c, read, e, data, pre, post, swap, limit).whole <==> NoEmptyFrame(e, |data|, limit)
  {
    hide Enter, StartFile, SendChunks, DataBitsOf, Tracks, FirstWhole, LastLeft;
    var s1 := StartFile(s, c, read, pre, post);
    HeaderWhole(s, c, read, pre, post);
    ChunksWhole(s1, limit, data, e, swap);
    FinishWhole(SendChunks(s1, limit, data, e, swap), e.extraShift);
  }

  lemma FinishWhole(s: Session, extraShift: bool)
    ensures FinishFile(s, extraShift).whole == s.whole
  {
    hide Enter;
    FillNothing(s);
    MovedToIs(s, 'S', false);
    MovedToIs(Enter(s, 'S', false), 'E', Bit(0xff, 0));
    MovedToIs(if extraShift then Fill(s, 0, 'E') else s, 'I', false);
  }

  /** What a file leaves in the registers of the chain. */
  lemma FileShifted(s: Session, c: Chain, read: bool, e: FileEnd, data: seq<byte>,
                    pre: seq<byte>, post: seq<byte>, swap: bool, limit: nat)
    requires Tracks(s) && CanIdle(s.letter) && ChainFits(c) && 1 <= limit <= MAX_SINGLE_USB_DATA && GoodEnd(e)
    ensures LeftDR(SendFile(s, c, read, e, data, pre, post, swap, limit), 'I',
                   Header(c, pre, post) + DataBitsOf(Swapped(swap, data)) + Surplus(e, LastLeft(|data|, limit)))
    ensures Ir(SendFile(s, c, read, e, data, pre, post, swap, limit)) == Instruction(c, IRREG_CFG_IN, c.jtagIndex)
  {
    hide Enter, StartFile, SendChunks, FinishFile, Tracks, InDR, LeftDR, Surplus, Header, Instruction;
    HeaderShifted(s, c, read, pre, post);
    ChunksFinish(StartFile(s, c, read, pre, post), Header(c, pre, post), limit, data, e, swap);
  }

  // ----- in the device

  /** What the configured device has been given of the bits shifted into the chain since Capture-DR: a device in
      bypass, as all before it are, passes each bit on one clock later, and a zero on the first clock. */
  function Received(c: Chain, shifted: seq<bool>): seq<bool> {
    (Zeros(c.jtagIndex) + shifted)[..|shifted|]
  }

  /** The file has arrived: back in Idle, all commands whole, and in the device, behind what goes before it,
      exactly the file, the high bit of each byte first. */
  predicate Delivered(s: Session, c: Chain, pre: seq<byte>, post: seq<byte>, data: seq<byte>)
    requires GoodChain(c)
  {
    match Settle(s.signal)
    case Chip(tap, _, _, dr) =>
      && s.letter == 'I' && Tracks(s) && tap == Idle
      && Received(c, dr) == Zeros(c.jtagIndex) + Header(c, pre, post) + HighBitFirst(data)
  }

  /** With `left` bytes left for the last frame, the main program shifts after the file as many bits as there
      are devices before the configured one. */
  predicate EndsInPlace(c: Chain, left: nat)
    requires GoodChain(c)
  {
    var others := |c.lens| - (if c.cortex then 2 else 1);
    if c.jtagIndex == 0 then left >= 2
    else if others == 0 then left != 1 && c.jtagIndex == 1
    else c.jtagIndex == if left > 0 && others == 2 && c.jtagIndex == |c.lens| - 1 then 2 else 1
  }

  lemma SurplusInPlace(c: Chain, left: nat)
    requires GoodChain(c)
    ensures GoodEnd(MainEnd(c))
    ensures EndsInPlace(c, left) <==> (MainEnd(c).opttail ==> left != 1) && |Surplus(MainEnd(c), left)| == c.jtagIndex
  {
  }

  /** As the main program sends it, a file is delivered exactly if its first chunk is whole and its last chunk
      ends in place. */
  lemma FileDelivered(s: Session, c: Chain, read: bool, pre: seq<byte>, post: seq<byte>,
                      data: seq<byte>, limit: nat)
    requires Tracks(s) && CanIdle(s.letter) && ChainFits(c) && 1 <= limit <= MAX_SINGLE_USB_DATA
    ensures GoodEnd(MainEnd(c))
    ensures Delivered(SendFile(s, c, read, MainEnd(c), data, pre, post, true, limit), c, pre, post, data)
       <==> FirstWhole(|data|, limit) && EndsInPlace(c, LastLeft(|data|, limit))
    ensures Ir(SendFile(s, c, read, MainEnd(c), data, pre, post, true, limit))
         == Joined(Registers(c.lens, 5, c.jtagIndex))
  {
    hide SendFile, StartFile, Tracks, LeftDR, Surplus, Header, EndsInPlace, FirstWhole, LastLeft, Received, Instruction,
         Joined;
    InstructionReaches(c, IRREG_CFG_IN, c.jtagIndex);
    var left := LastLeft(|data|, limit);
    SurplusInPlace(c, left);
    var e := MainEnd(c);
    var r := SendFile(s, c, read, e, data, pre, post, true, limit);
    FileWhole(s, c, read, e, data, pre, post, true, limit);
    FileShifted(s, c, read, e, data, pre, post, true, limit);
    if r.whole {
      SwappedIsHighBitFirst(data);
      ArrivesInPlace(r, c, pre, post, data, Surplus(e, left));
    } else {
      NotDelivered(r, c, pre, post, data);
    }
  }

  lemma NotDelivered(s: Session, c: Chain, pre: seq<byte>, post: seq<byte>, data: seq<byte>)
    requires GoodChain(c) && !s.whole
    ensures !Delivered(s, c, pre, post, data)
  {
  }

  lemma ArrivesInPlace(s: Session, c: Chain, pre: seq<byte>, post: seq<byte>, data: seq<byte>, surplus: seq<bool>)
    requires GoodChain(c) && s.whole && LeftDR(s, 'I', Header(c, pre, post) + HighBitFirst(data) + surplus)
    ensures Delivered(s, c, pre, post, data) <==> |surplus| == c.jtagIndex
  {
    hide Header, HighBitFirst;
    var bits := Header(c, pre, post) + HighBitFirst(data);
    var shifted := Zeros(c.jtagIndex) + (bits + surplus);
    assert |Received(c, bits + surplus)| == |bits| + |surplus|;
    if |surplus| == c.jtagIndex {
      assert shifted == Zeros(c.jtagIndex) + bits + surplus;
      assert shifted[..|bits| + |surplus|] == Zeros(c.jtagIndex) + bits;
      assert Zeros(c.jtagIndex) + bits == Zeros(c.jtagIndex) + Header(c, pre, post) + HighBitFirst(data);
    }
  }

  // ----- bit by bit

  lemma {:induction false} DataBitAt(data: seq<byte>, k: nat, i: nat)
    requires k < |data| && i < 8
    ensures DataBitsOf(data)[8 * k + i] == Bit(data[k], i)
  {
    if k == 0 {
      BitsOfAt(data[0], 8, i);
    } else {
      DataBitAt(data[1..], k - 1, i);
    }
  }

  /** Where everything lies in the device after a delivery: what was captured in the devices before it, ones for
      those beyond it, the words low bit first, zeros, more words, and from `FileStart` on the file. */
  lemma DeliveredParts(s: Session, c: Chain, pre: seq<byte>, post: seq<byte>, data: seq<byte>)
    requires GoodChain(c) && |pre| % 4 == 0 && |post| % 4 == 0 && Delivered(s, c, pre, post, data)
    ensures var got, others, file := Received(c, Settle(s.signal).dr), |c.lens| - 1, FileStart(c, pre, post);
      && |got| == file + 8 * |data| && file >= others + 8 * |pre| + 8 * |post|
      && got[..c.jtagIndex] == Zeros(c.jtagIndex)
      && got[c.jtagIndex..others] == Ones(others - c.jtagIndex)
      && got[others..others + 8 * |pre|] == DataBitsOf(pre)
      && got[others + 8 * |pre|..file - 8 * |post|] == Zeros(file - 8 * |post| - others - 8 * |pre|)
      && got[file - 8 * |post|..file] == DataBitsOf(post)
      && got[file..] == HighBitFirst(data)
  {
    hide Tracks, Received, DataBitsOf, HighBitFirst, PadZeros, FileStart;
    var zeros := PadZeros(c, PadCount(c));
    assert Words(pre) == pre && Words(post) == post;
    HighBitLength(data);
    FileStartIs(c, pre, post);
    Parts(Received(c, Settle(s.signal).dr), Zeros(c.jtagIndex), Ones(Trailing(c)), DataBitsOf(pre), Zeros(zeros),
          DataBitsOf(post), HighBitFirst(data));
  }

  lemma FileStartIs(c: Chain, pre: seq<byte>, post: seq<byte>)
    requires GoodChain(c)
    ensures FileStart(c, pre, post)
         == |c.lens| - 1 + 8 * |Words(pre)| + PadZeros(c, PadCount(c)) + 8 * |Words(post)|
  {
    hide DataBitsOf, PadZeros, Words;
  }

  lemma Parts(all: seq<bool>, a: seq<bool>, b: seq<bool>, c: seq<bool>, d: seq<bool>, e: seq<bool>, f: seq<bool>)
    requires all == a + (b + c + d + e) + f
    ensures var n1 := |a|; var n2 := n1 + |b|; var n3 := n2 + |c|; var n4 := n3 + |d|; var n5 := n4 + |e|;
      && all[..n1] == a && all[n1..n2] == b && all[n2..n3] == c && all[n3..n4] == d && all[n4..n5] == e
      && all[n5..] == f && |all| == n5 + |f|
  {
  }

  /** Bit `i` of byte `k` of the file, counted from the top, in the device. */
  lemma DeliveredBit(s: Session, c: Chain, pre: seq<byte>, post: seq<byte>, data: seq<byte>, k: nat, i: nat)
    requires GoodChain(c) && |pre| % 4 == 0 && |post| % 4 == 0 && Delivered(s, c, pre, post, data)
    requires k < |data| && i < 8
    ensures |Received(c, Settle(s.signal).dr)| == FileStart(c, pre, post) + 8 * |data|
    ensures Received(c, Settle(s.signal).dr)[FileStart(c, pre, post) + 8 * k + i] == Bit(data[k], 7 - i)
  {
    hide Delivered, Received, FileStart, HighBitFirst;
    DeliveredParts(s, c, pre, post, data);
    HighBitAt(data, k, i);
    var got, file := Received(c, Settle(s.signal).dr), FileStart(c, pre, post);
    assert got[file..][8 * k + i] == got[file + 8 * k + i];
  }

  // ----- on a word boundary

  /** Where in the device the file begins. */
  function FileStart(c: Chain, pre: seq<byte>, post: seq<byte>): nat
    requires GoodChain(c)
  {
    c.jtagIndex + |Header(c, pre, post)|
  }

  /** In chains of up to eight devices the file begins on a 32-bit word boundary of the configured device exactly
      if it is at an end of the chain, or has as many devices beyond it as before it and the core together. */
  lemma FileOnWord(c: Chain, pre: seq<byte>, post: seq<byte>)
    requires GoodChain(c) && |c.lens| <= 8
    ensures FileStart(c, pre, post) % 32 == 0
       <==> || c.jtagIndex == 0 || c.jtagIndex == |c.lens| - 1
            || |c.lens| - 1 - c.jtagIndex == c.jtagIndex + if c.cortex then 1 else 0
  {
    hide PadZeros, FileStart, Words;
    var words := |Words(pre)| / 4 + |Words(post)| / 4;
    FileStartIs(c, pre, post);
    PadsAlign(c);
    assert FileStart(c, pre, post) == 32 * words + (|c.lens| - 1 + PadZeros(c, PadCount(c)));
    AddWords(words, |c.lens| - 1 + PadZeros(c, PadCount(c)));
  }

  lemma AddWords(words: nat, n: nat)
    ensures (32 * words + n) % 32 == n % 32
  {
  }

  lemma PadsAlign(c: Chain)
    requires GoodChain(c) && |c.lens| <= 8
    ensures c.jtagIndex + Trailing(c) + PadZeros(c, PadCount(c))
         == if |c.lens| == 1 then 0
            else if !Mid(c) then 64
            else 128 + Trailing(c) - c.jtagIndex - if c.cortex then 1 else 0
  {
    assert PadZeros(c, 0) == 0;
    if PadCount(c) == 2 {
      assert PadZeros(c, 2) == PadLength(PadTail(c, 0)) + PadLength(PadTail(c, 1));
    }
  }

  /** The chains the authors list: the number of devices, the configured one, and whether there is a core. */
  const LISTED: set<(nat, nat, bool)> :=
    {(1, 0, false), (2, 1, true), (2, 0, false), (2, 1, false), (3, 0, true), (3, 0, false), (3, 1, false),
     (3, 2, false), (4, 0, true), (4, 1, true)}

  /** In each of them a file whose last frame is neither full nor a single byte ends in place and begins on a word. */
  lemma ListedChains(c: Chain, pre: seq<byte>, post: seq<byte>, left: nat)
    requires GoodChain(c) && (|c.lens|, c.jtagIndex, c.cortex) in LISTED && left >= 2
    ensures EndsInPlace(c, left) && FileStart(c, pre, post) % 32 == 0
  {
    hide Header, FileStart;
    FileOnWord(c, pre, post);
  }
}
