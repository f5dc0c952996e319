/** What the JTAG driver asks of the chip, call by call: the letter it remembers and the clocks it sends. */
module JtagSession {
  import opened Bytes
  import opened Bits
  import opened Tap
  import opened Mpsse

  /** No state known yet, and no state to move to. */
  const NONE := '\0'
  const SINGLE_FRAME := 99999

  /** The transitions the driver knows: from, to, and the TMS levels in between. */
  const TAILS: seq<string> :=
    ["PS10", "EI10", "RI0", "SI110", "SP10", "SE1", "SU11", "UD100", "ID100", "RD0100", "IR111", "PR11111", "IS1100",
     "ED1100"]

  /** The driver's letter, what it has put on the wires, and whether every command sent so far was whole. */
  datatype Session = Session(letter: char, signal: Signal, whole: bool)

  function Levels(tail: string): seq<bool> {
    seq(|tail|, i requires 0 <= i < |tail| => tail[i] == '1')
  }

  /** The only entry of the table from one letter to another, or the table's length if there is none. */
  function TailIndex(from: char, to: char): nat {
    if from == 'P' && to == 'S' then 0
    else if from == 'E' && to == 'I' then 1
    else if from == 'R' && to == 'I' then 2
    else if from == 'S' && to == 'I' then 3
    else if from == 'S' && to == 'P' then 4
    else if from == 'S' && to == 'E' then 5
    else if from == 'S' && to == 'U' then 6
    else if from == 'U' && to == 'D' then 7
    else if from == 'I' && to == 'D' then 8
    else if from == 'R' && to == 'D' then 9
    else if from == 'I' && to == 'R' then 10
    else if from == 'P' && to == 'R' then 11
    else if from == 'I' && to == 'S' then 12
    else if from == 'E' && to == 'D' then 13
    else 14
  }

  lemma TableHasTail(i: nat)
    requires i < |TAILS|
    ensures 3 <= |TAILS[i]| <= 7 && TailIndex(TAILS[i][0], TAILS[i][1]) == i
  {
  }

  lemma TailInTable(from: char, to: char)
    ensures TailIndex(from, to) < |TAILS| ==>
              var tail := TAILS[TailIndex(from, to)];
              |tail| >= 3 && tail[0] == from && tail[1] == to
  {
  }

  function Transition(s: Session, tail: string, tdi: bool): Session
    requires |tail| >= 3
  {
    Session(tail[1], Driven(s.signal, Levels(tail[2..]), tdi), s.whole)
  }

  function From(letter: char): char {
    if letter == 'D' then 'S' else letter
  }

  /** Moves to a letter if the table knows how, and otherwise does nothing. */
  function Enter(s: Session, required: char, tdi: bool): Session {
    var i := TailIndex(From(s.letter), required);
    if i < |TAILS| then
      TableHasTail(i);
      Transition(s, TAILS[i], tdi)
    else s
  }

  function Shift(s: Session, bits: seq<bool>): Session {
    s.(signal := Fed(s.signal, bits))
  }

  /** Shifts `bits` bits of `data`, and one more on the way out if there is a state to move to. */
  function WriteBit(s: Session, bits: int, data: nat, target: char): Session
    requires bits <= 7
  {
    var s1 := Enter(s, 'S', false);
    var s2 := if bits > 0 then Shift(s1, BitsOf(data, bits)) else s1;
    if target != NONE then Enter(s2, target, bits >= 0 && Bit(data, bits)) else s2
  }

  /** A byte with its bits in the opposite order: bit 0 moved to bit 7, and so on. */
  function BitSwap(b: byte): byte {
    b % 2 * 0x80 + b / 2 % 2 * 0x40 + b / 4 % 2 * 0x20 + b / 8 % 2 * 0x10
    + b / 16 % 2 * 0x08 + b / 32 % 2 * 0x04 + b / 64 % 2 * 0x02 + b / 128 % 2
  }

  function Swapped(swap: bool, data: seq<byte>): (r: seq<byte>)
    ensures |r| == |data|
  {
    seq(|data|, i requires 0 <= i < |data| => if swap then BitSwap(data[i]) else data[i])
  }

  /** How a run of bytes is sent: where to go at its end, the frame size, the bit reversal,
      and what to do with the last byte of the last frame. */
  datatype Frames = Frames(target: char, maxFrame: nat, opttail: int, swap: bool, exchar: byte, dc2trail: nat)

  predicate GoodFrames(f: Frames) {
    match f
    case Frames(_, maxFrame, opttail, _, _, dc2trail) => 1 <= maxFrame && -7 <= opttail && dc2trail <= 7
  }

  /** The number of bytes the first frame of `size` bytes sends as whole bytes. */
  function FrameLength(f: Frames, size: nat): nat {
    if size >= f.maxFrame then f.maxFrame else if f.opttail > 0 && size > 0 then size - 1 else size
  }

  /** The end of a frame that is not full: the bits held back, and the move. */
  function FrameEnd(s: Session, f: Frames, data: seq<byte>): Session
    requires GoodFrames(f) && 0 < |data| < f.maxFrame
  {
    var s1 := if f.target == 'E' then WriteBit(s, f.dc2trail, 0xff, NONE) else s;
    if f.opttail > 0 then WriteBit(s1, 7, Swapped(f.swap, [data[|data| - 1]])[0], f.target)
    else WriteBit(s1, -f.opttail, f.exchar, f.target)
  }

  function SendFrames(s: Session, f: Frames, data: seq<byte>): Session
    requires GoodFrames(f)
    decreases |data|
  {
    if data == [] then s
    else
      var n := FrameLength(f, |data|);
      var s1 := Shift(s, DataBitsOf(Swapped(f.swap, data[..n]))).(whole := s.whole && 1 <= n <= 0x1_0000);
      if |data| < f.maxFrame then FrameEnd(s1, f, data)
      else SendFrames(s1, f, data[f.maxFrame..])
  }

  function WriteBytes(s: Session, f: Frames, data: seq<byte>): Session
    requires GoodFrames(f)
  {
    SendFrames(Enter(s, 'S', false), f, data)
  }

  /** The frame settings of a request sent in one piece, with no move at the end. */
  const PLAIN := Frames(NONE, SINGLE_FRAME, 0, false, 0, 0)

  function AllOnes(n: nat): (data: seq<byte>)
    ensures |data| == n
  {
    seq(n, _ => 0xff)
  }

  /** Shifts `width` ones, and one more on the way out if there is a state to move to. */
  function Fill(s: Session, width: nat, tail: char): Session {
    var s1 := if width > 7 then WriteBytes(s, PLAIN, AllOnes(width / 8)) else s;
    WriteBit(s1, width % 8, 0xff, tail)
  }

  /** Clocks TMS high: the marker the driver leaves in the trace. */
  function ResetMark(s: Session, stay: nat): Session {
    var s1 := Enter(s, 'R', false);
    s1.(signal := Driven(s1.signal, Ones(stay + 1), false))
  }

  function IdleClocks(s: Session, n: nat): Session {
    s.(signal := Driven(s.signal, Zeros(n), false))
  }

  function IdleRuns(s: Session, runs: nat): Session {
    if runs == 0 then s else IdleClocks(IdleRuns(s, runs - 1), 7)
  }

  function Delay(s: Session, time: nat, extra: nat): Session {
    var s1 := Enter(s, 'I', false);
    var s2 := if extra > 0 then IdleClocks(s1, 1) else s1;
    var s3 := IdleRuns(s2, time);
    if extra > 0 then IdleClocks(s3, extra + 1) else s3
  }

  /** The marker is one clock more than it is told, after the move to Reset, if there is one. */
  lemma MarkerClocks(s: Session, stay: nat)
    ensures Clocks(ResetMark(s, stay).signal) == Clocks(Enter(s, 'R', false).signal) + stay + 1
    ensures ResetMark(s, stay).letter == Enter(s, 'R', false).letter
  {
  }

  /** A delay is seven clocks for each unit of time, after the move to Idle, and for extra clocks two more than told. */
  lemma DelayClocks(s: Session, time: nat, extra: nat)
    ensures Clocks(Delay(s, time, extra).signal)
         == Clocks(Enter(s, 'I', false).signal) + 7 * time + if extra > 0 then extra + 2 else 0
    ensures Delay(s, time, extra).letter == Enter(s, 'I', false).letter
  {
    hide Enter;
    var s1 := Enter(s, 'I', false);
    RunsClocks(if extra > 0 then IdleClocks(s1, 1) else s1, time);
  }

  lemma {:induction false} RunsClocks(s: Session, runs: nat)
    ensures Clocks(IdleRuns(s, runs).signal) == Clocks(s.signal) + 7 * runs && IdleRuns(s, runs).letter == s.letter
  {
    if runs > 0 {
      RunsClocks(s, runs - 1);
    }
  }

  // ----- scans of the instruction and data registers

  /** The bits of the devices before or after one in the chain. */
  function SumLengths(lens: seq<nat>): nat {
    if lens == [] then 0 else lens[0] + SumLengths(lens[1..])
  }

  /** The lengths of the instruction registers in a chain, the device that is configured, and whether one of
      the others is a processor core. Device 0 is the first to see what the driver sends. */
  datatype Chain = Chain(lens: seq<nat>, jtagIndex: nat, cortex: bool)

  predicate GoodChain(c: Chain) {
    match c
    case Chain(lens, jtagIndex, _) => jtagIndex < |lens| && forall i | 0 <= i < |lens| :: 1 <= lens[i] <= 7
  }

  /** Bits that pass through the devices beyond device `index`: shifted before its own. */
  function Before(c: Chain, index: nat): nat
    requires index <= |c.lens|
  {
    if index == |c.lens| then 0 else SumLengths(c.lens[index + 1..])
  }

  /** Bits for the devices on the near side of device `index`: shifted after its own. */
  function After(c: Chain, index: nat): nat
    requires index <= |c.lens|
  {
    SumLengths(c.lens[..index])
  }

  /** The static buffer of ones is four bytes long, and one bit can ride on the way out. */
  predicate FillsFit(c: Chain, index: nat)
    requires index <= |c.lens|
  {
    Before(c, index) <= 39 && After(c, index) <= 40
  }

  function WriteIrreg(s: Session, c: Chain, read: bool, command: nat, index: nat, tail: char): Session
    requires GoodChain(c) && index <= |c.lens|
  {
    var s1 := Enter(Enter(s, 'I', false), 'S', false);
    EndIrreg(Fill(s1, Before(c, index), NONE), c, read, command, index, tail)
  }

  /** The instruction of one device and ones for those on the near side; a reading scan leaves the latter out. */
  function EndIrreg(s: Session, c: Chain, read: bool, command: nat, index: nat, tail: char): Session
    requires GoodChain(c) && index <= |c.lens|
  {
    var trim := read && index != |c.lens|;
    AfterAll(c, index);
    if After(c, index) != 0 && !trim then
      var s1 := if index != |c.lens| then WriteBit(s, c.lens[index], command, NONE) else s;
      Fill(s1, After(c, index) - 1, tail)
    else WriteBit(s, c.lens[index] - 1, command, tail)
  }

  /** A chain with devices has instruction bits. */
  lemma AfterAll(c: Chain, index: nat)
    requires GoodChain(c) && index <= |c.lens|
    ensures index > 0 ==> After(c, index) > 0
  {
    if index > 0 {
      assert c.lens[..index][0] == c.lens[0];
    }
  }

  function WriteCirreg(s: Session, c: Chain, read: bool, command: nat): Session
    requires GoodChain(c)
  {
    var target := if c.jtagIndex != 0 && read then 'P' else 'E';
    var s1 := WriteIrreg(s, c, read, command, c.jtagIndex, target);
    AfterAll(c, c.jtagIndex);
    var s2 := if target == 'P' then Fill(s1, After(c, c.jtagIndex) - 1, 'E') else s1;
    Enter(s2, 'I', false)
  }

  /** The devices beyond the configured one. */
  function Trailing(c: Chain): nat
    requires GoodChain(c)
  {
    |c.lens| - 1 - c.jtagIndex
  }

  /** The configured device has others on both sides. */
  predicate Mid(c: Chain) {
    c.jtagIndex != 0 && c.jtagIndex != |c.lens| - 1
  }

  /** The other devices that are not the processor core. */
  function Others(c: Chain): int {
    |c.lens| - (if c.cortex then 1 else 0) - 1
  }

  function IdleToShiftDR(s: Session, bits: nat): Session
    requires bits <= 7
  {
    WriteBit(Enter(s, 'D', false), bits, 0xff, NONE)
  }

  /** Sends whole 32-bit words, each in a frame of its own. */
  function WriteInt32(s: Session, data: seq<byte>): Session
    decreases |data|
  {
    if |data| < 4 then s else WriteInt32(WriteBytes(s, PLAIN, data[..4]), data[4..])
  }

  const IRREG_CFG_IN := 0x05
  const FILE_READSIZE := 6464
  const MAX_SINGLE_USB_DATA := 4046

  /** What is done at the end of a file: whether a bit is shifted on the way out, whether the last byte of the
      last frame is held back for the way out, and how many bits go before it. */
  datatype FileEnd = FileEnd(extraShift: bool, opttail: bool, dc2trail: nat)

  /** A byte that is held back for the way out has no other bits before it. */
  predicate GoodEnd(e: FileEnd) {
    match e
    case FileEnd(extraShift, opttail, dc2trail) => dc2trail <= 7 && (opttail && !extraShift ==> dc2trail == 0)
  }

  function Dc2Trail(c: Chain): nat
    requires GoodChain(c)
  {
    if Others(c) == 2 && Trailing(c) == 0 then 1 else 0
  }

  /** How the main program ends the file. */
  function MainEnd(c: Chain): FileEnd
    requires GoodChain(c)
  {
    FileEnd(Others(c) == 0 && c.jtagIndex != 0, c.jtagIndex == 0 || Others(c) == 0, Dc2Trail(c))
  }

  /** How a chunk of the file is sent: a pause after it, or an exit after the last one. */
  function ChunkFrames(limit: nat, last: bool, e: FileEnd, swap: bool): Frames {
    Frames(if last && !e.extraShift then 'E' else 'P', limit, if !last || e.opttail then 1 else 0, swap, 1, e.dc2trail)
  }

  /** Sends a file in chunks; `limit` is the frame size of the first chunk. */
  function SendChunks(s: Session, limit: nat, data: seq<byte>, e: FileEnd, swap: bool): Session
    requires limit >= 1 && e.dc2trail <= 7
    decreases |data|
  {
    if data == [] then s
    else
      var n := if |data| < FILE_READSIZE then |data| else FILE_READSIZE;
      var s1 := WriteBytes(s, ChunkFrames(limit, n == |data|, e, swap), data[..n]);
      SendChunks(s1, MAX_SINGLE_USB_DATA, data[n..], e, swap)
  }

  /** Zeros sent before a file to a chain of several devices. */
  const PAD: seq<byte> := [0, 0, 0, 0, 0, 0, 0]

  function PadCount(c: Chain): nat {
    if |c.lens| == 1 then 0 else if Mid(c) then 2 else 1
  }

  /** What becomes of the last byte of a pad, as for other frames: minus the number of bits after it,
      or a number above 0 if it is held back. */
  function PadTail(c: Chain, k: nat): (tail: int)
    requires GoodChain(c)
    ensures |c.lens| > 1 ==> tail >= -7
  {
    |c.lens| - 9 + (if c.cortex then k else 0) - (if Mid(c) then Trailing(c) else 0)
  }

  function PadFrames(tail: int): Frames {
    Frames(NONE, SINGLE_FRAME, tail, false, 0, 0)
  }

  function SendPads(s: Session, c: Chain, n: nat): Session
    requires GoodChain(c) && n <= PadCount(c)
  {
    if n == 0 then s else WriteBytes(SendPads(s, c, n - 1), PadFrames(PadTail(c, n - 1)), PAD)
  }

  /** Everything that goes before a file: the instruction, Shift-DR, ones for the devices beyond, words and pads. */
  function StartFile(s: Session, c: Chain, read: bool, pre: seq<byte>, post: seq<byte>): Session
    requires GoodChain(c) && Trailing(c) <= 7
  {
    var s1 := IdleToShiftDR(WriteCirreg(s, c, read, IRREG_CFG_IN), Trailing(c));
    WriteInt32(SendPads(WriteInt32(s1, pre), c, PadCount(c)), post)
  }

  function FinishFile(s: Session, extraShift: bool): Session {
    Enter(if extraShift then Fill(s, 0, 'E') else s, 'I', false)
  }

  /** Configures a device from a file. */
  function SendFile(s: Session, c: Chain, read: bool, e: FileEnd, data: seq<byte>,
                    pre: seq<byte>, post: seq<byte>, swap: bool, limit: nat): Session
    requires GoodChain(c) && Trailing(c) <= 7 && limit >= 1 && e.dc2trail <= 7
  {
    FinishFile(SendChunks(StartFile(s, c, read, pre, post), limit, data, e, swap), e.extraShift)
  }
}
