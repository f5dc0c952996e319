/** The byte commands of the FTDI serial engine: their encoding, a reader of them, and what they clock into a chip. */
module Mpsse {
  import opened Bytes
  import opened Bits
  import opened Tap

  const SEND_IMMEDIATE: byte := 0x87

  datatype Command =
    | Tms(read: bool, count: nat, bits: byte)       // TMS levels from the low bits; bit 7 is the TDI level
    | DataBits(read: bool, count: nat, bits: byte)  // data bits from the low bits
    | DataBytes(read: bool, data: seq<byte>)        // whole data bytes
    | ReadBytes(count: nat)
    | ReadBits(last: byte)
    | Setup(op: byte, low: byte, high: byte)        // pin levels, clock divisor, clocks without data
    | Plain(op: byte)

  predicate WellFormed(c: Command) {
    match c
    case Tms(_, count, _) => 1 <= count <= 7
    case DataBits(_, count, _) => 1 <= count <= 8
    case DataBytes(_, data) => 1 <= |data| <= 0x1_0000
    case ReadBytes(count) => 1 <= count <= 0x1_0000
    case ReadBits(_) => true
    case Setup(op, _, _) => op in {0x80, 0x82, 0x86, 0x8f}
    case Plain(op) => op in {0x85, 0x87, 0x8a}
  }

  predicate AllWellFormed(cs: seq<Command>) {
    forall i | 0 <= i < |cs| :: WellFormed(cs[i])
  }

  /** The two length bytes of `n` data bytes: `n - 1`, low byte first, in 16 bits. */
  function Length16(n: nat): (bytes: seq<byte>)
    ensures |bytes| == 2
  {
    [(n - 1) % 0x100, (n - 1) / 0x100 % 0x100]
  }

  function Length(low: int, high: int): int {
    low + 0x100 * high + 1
  }

  function Encode(c: Command): (bytes: seq<byte>)
    ensures |bytes| >= 1
  {
    match c
    case Tms(read, count, bits) => [if read then 0x6f else 0x4b, (count - 1) % 0x100, bits]
    case DataBits(read, count, bits) => [if read then 0x3f else 0x1b, (count - 1) % 0x100, bits]
    case DataBytes(read, data) => [if read then 0x3d else 0x19] + Length16(|data|) + data
    case ReadBytes(count) => [0x2c] + Length16(count)
    case ReadBits(last) => [0x2e, last]
    case Setup(op, low, high) => [op, low, high]
    case Plain(op) => [op]
  }

  /** The commands' bytes: an operation, a length less one, the low byte of it first, and the data. */
  lemma EncodesAs(count: nat, bits: byte, data: seq<byte>)
    requires 1 <= count <= 8 && 1 <= |data| <= 0x1_0000
    ensures Encode(Tms(false, count, bits)) == [0x4b, count - 1, bits]
    ensures Encode(Tms(true, count, bits)) == [0x6f, count - 1, bits]
    ensures Encode(DataBits(false, count, bits)) == [0x1b, count - 1, bits]
    ensures Encode(DataBits(true, count, bits)) == [0x3f, count - 1, bits]
    ensures Encode(DataBytes(false, data)) == [0x19, (|data| - 1) % 256, (|data| - 1) / 256] + data
    ensures Encode(DataBytes(true, data)) == [0x3d, (|data| - 1) % 256, (|data| - 1) / 256] + data
  {
    assert (count - 1) % 0x100 == count - 1;
    assert (|data| - 1) / 0x100 % 0x100 == (|data| - 1) / 256;
  }

  function EncodeAll(cs: seq<Command>): seq<byte> {
    if cs == [] then [] else Encode(cs[0]) + EncodeAll(cs[1..])
  }

  /** The first command of a byte stream and the number of bytes it takes. */
  function ParseOne(p: seq<byte>): (r: Option<(Command, nat)>)
    ensures r.Some? ==> 1 <= r.value.1 <= |p|
  {
    if p == [] then None
    else
      var op := p[0];
      if op in {0x85, 0x87, 0x8a} then Some((Plain(op), 1))
      else if |p| < 2 then None
      else if op == 0x2e then Some((ReadBits(p[1]), 2))
      else if |p| < 3 then None
      else if op in {0x80, 0x82, 0x86, 0x8f} then Some((Setup(op, p[1], p[2]), 3))
      else if op in {0x4b, 0x6f} then (if p[1] < 7 then Some((Tms(op == 0x6f, p[1] + 1, p[2]), 3)) else None)
      else if op in {0x1b, 0x3f} then (if p[1] < 8 then Some((DataBits(op == 0x3f, p[1] + 1, p[2]), 3)) else None)
      else
        var n := Length(p[1], p[2]);
        if op == 0x2c then Some((ReadBytes(n), 3))
        else if op in {0x19, 0x3d} && |p| >= 3 + n then Some((DataBytes(op == 0x3d, p[3..3 + n]), 3 + n))
        else None
  }

  /** Reads a whole stream of commands. */
  function Parse(p: seq<byte>): Option<seq<Command>> {
    if p == [] then Some([])
    else
      match ParseOne(p)
      case None => None
      case Some((c, n)) =>
        match Parse(p[n..])
        case None => None
        case Some(rest) => Some([c] + rest)
  }

  lemma ParseOneEncoded(c: Command, rest: seq<byte>)
    requires WellFormed(c)
    ensures ParseOne(Encode(c) + rest) == Some((c, |Encode(c)|))
  {
    if c.DataBytes? {
      hide ParseOne, Encode;
      ParseOneData(c.read, c.data, rest);
    }
  }

  lemma ParseOneData(read: bool, data: seq<byte>, rest: seq<byte>)
    requires 1 <= |data| <= 0x1_0000
    ensures ParseOne(Encode(DataBytes(read, data)) + rest) == Some((DataBytes(read, data), 3 + |data|))
    ensures |Encode(DataBytes(read, data))| == 3 + |data|
  {
    var p := Encode(DataBytes(read, data)) + rest;
    assert p[1] == Length16(|data|)[0] && p[2] == Length16(|data|)[1];
    assert Length(p[1], p[2]) == |data|;
    assert p[3..3 + |data|] == data;
  }

  /** Encoded commands read back as themselves. */
  lemma {:induction false} ParseEncoded(cs: seq<Command>)
    requires AllWellFormed(cs)
    ensures Parse(EncodeAll(cs)) == Some(cs)
  {
    hide Encode, ParseOne;
    if cs != [] {
      var e := Encode(cs[0]);
      ParseOneEncoded(cs[0], EncodeAll(cs[1..]));
      ParseEncoded(cs[1..]);
      assert EncodeAll(cs)[|e|..] == EncodeAll(cs[1..]);
      assert [cs[0]] + cs[1..] == cs;
    }
  }

  /** A stream that goes on, after whole commands, with something unreadable is unreadable. */
  lemma {:induction false} ParseBroken(cs: seq<Command>, bad: seq<byte>)
    requires AllWellFormed(cs) && Parse(bad).None?
    ensures Parse(EncodeAll(cs) + bad).None?
  {
    hide Encode, ParseOne;
    if cs == [] {
      assert EncodeAll(cs) + bad == bad;
    } else {
      var e := Encode(cs[0]);
      var rest := EncodeAll(cs[1..]) + bad;
      assert EncodeAll(cs) + bad == e + rest;
      ParseOneEncoded(cs[0], rest);
      ParseBroken(cs[1..], bad);
      assert (e + rest)[|e|..] == rest;
    }
  }

  /** A data command with nothing in it announces 65536 bytes: with fewer to follow, the stream is unreadable. */
  lemma EmptyPayloadUnreadable(cs: seq<Command>, read: bool, rest: seq<byte>)
    requires AllWellFormed(cs) && |rest| < 0x1_0000
    ensures Parse(EncodeAll(cs) + (Encode(DataBytes(read, [])) + rest)).None?
  {
    var bad := Encode(DataBytes(read, [])) + rest;
    assert bad[1] == 0xff && bad[2] == 0xff;
    ParseBroken(cs, bad);
  }

  lemma {:induction false} EncodeAllConcat(a: seq<Command>, b: seq<Command>)
    ensures EncodeAll(a + b) == EncodeAll(a) + EncodeAll(b)
  {
    if a == [] {
      assert a + b == b;
    } else {
      assert (a + b)[1..] == a[1..] + b;
      EncodeAllConcat(a[1..], b);
    }
  }

  // ----- what commands put on the wires

  /** Commands that clock nothing or drive every bit they clock. */
  predicate Drives(c: Command) {
    c.Tms? || c.DataBits? || c.DataBytes? || (c.Setup? && c.op != 0x8f) || c.Plain?
  }

  /** The bits of data bytes in the order they are shifted: low bit first. */
  function DataBitsOf(data: seq<byte>): (bits: seq<bool>)
    ensures |bits| == 8 * |data|
  {
    if data == [] then [] else BitsOf(data[0], 8) + DataBitsOf(data[1..])
  }

  /** What a command adds to a signal. */
  function Exec(signal: Signal, c: Command): Signal
    requires Drives(c)
  {
    match c
    case Tms(_, count, bits) => Driven(signal, BitsOf(bits, count), bits >= 0x80)
    case DataBits(_, count, bits) => Fed(signal, BitsOf(bits, count))
    case DataBytes(_, data) => Fed(signal, DataBitsOf(data))
    case Setup(_, _, _) => signal
    case Plain(_) => signal
  }

  predicate AllDrive(cs: seq<Command>) {
    forall i | 0 <= i < |cs| :: Drives(cs[i])
  }

  function ExecAll(signal: Signal, cs: seq<Command>): Signal
    requires AllDrive(cs)
  {
    if cs == [] then signal else Exec(ExecAll(signal, cs[..|cs| - 1]), cs[|cs| - 1])
  }

  lemma {:induction false} DataBitsConcat(a: seq<byte>, b: seq<byte>)
    ensures DataBitsOf(a + b) == DataBitsOf(a) + DataBitsOf(b)
  {
    if a == [] {
      assert a + b == b;
    } else {
      assert (a + b)[1..] == a[1..] + b;
      DataBitsConcat(a[1..], b);
    }
  }

  // ----- what the reader of a flushed buffer expects back

  /** The length a reading command's answer is recorded with: bytes positive, bits negative. */
  function ReadSize(c: Command): seq<int> {
    match c
    case Tms(read, _, _) => if read then [-1] else []
    case DataBits(read, count, _) => if read then [-(count as int)] else []
    case DataBytes(read, data) => if read then [|data|] else []
    case ReadBytes(count) => [count]
    case ReadBits(last) => [-(last + 1)]
    case Setup(_, _, _) => []
    case Plain(_) => []
  }

  function ReadSizes(cs: seq<Command>): seq<int> {
    if cs == [] then [] else ReadSize(cs[0]) + ReadSizes(cs[1..])
  }

  /** What is recorded for a reading command is what it clocks: so many bytes, or with a minus so many bits; the
      commands that drive TMS read back one bit, however many levels they clock. */
  lemma AnswerIsClocked(c: Command, signal: Signal)
    requires WellFormed(c) && Drives(c)
    ensures var n := Clocks(Exec(signal, c)) - Clocks(signal);
      ReadSize(c) == match c
                     case Tms(read, _, _) => if read then [-1] else []
                     case DataBits(read, _, _) => if read then [-n] else []
                     case DataBytes(read, _) => if read then [n / 8] else []
                     case _ => []
  {
  }

  datatype ParseResult = Sizes(sizes: seq<int>) | UnknownCommand

  /** What a command's first byte says of its length: 1, 2 or 3 bytes before any payload, or 0 when unknown. */
  function HeaderLength(ch: byte): nat {
    match ch
    case 0x85 | 0x87 | 0x8a | 0xaa | 0xab => 1
    case 0x2e => 2
    case 0x19 | 0x1b | 0x2c | 0x3d | 0x3f | 0x4b | 0x6f | 0x80 | 0x82 | 0x86 | 0x8f => 3
    case _ => 0
  }

  /** Command bits: reads back, counts bits instead of bytes, drives TMS. */
  predicate Reads(ch: byte) { ch / 0x20 % 2 == 1 }
  predicate CountsBits(ch: byte) { ch / 0x02 % 2 == 1 }
  predicate DrivesTms(ch: byte) { ch / 0x40 % 2 == 1 }

  /** Looks at one command of a flushed buffer: its length (0 when unknown), and what it answers. */
  method ReadSizeOf(ch: byte, low: byte, high: byte) returns (length: nat, size: seq<int>)
    ensures length == CommandLength(ch, low, high) && size == AnswerSize(ch, low, high)
  {
    var plen := HeaderLength(ch);
    var tlen := Length(low, high);
    size := [];
    if plen == 0 {
      return 0, size;
    }
    if Reads(ch) {
      if CountsBits(ch) {
        var bitsize: int := (low as int) + 1;
        if DrivesTms(ch) {
          bitsize := 1;
        }
        size := [-bitsize];
      } else if ch == 0x2c || ch == 0x3d {
        size := [tlen];
      } else {
        size := [low];
      }
    }
    length := plen;
    if ch == 0x19 || ch == 0x3d {
      length := length + tlen;
    }
  }

  function CommandLength(ch: byte, low: byte, high: byte): nat {
    HeaderLength(ch) + if ch == 0x19 || ch == 0x3d then Length(low, high) else 0
  }

  function AnswerSize(ch: byte, low: byte, high: byte): seq<int> {
    if HeaderLength(ch) == 0 || !Reads(ch) then []
    else if CountsBits(ch) then [if DrivesTms(ch) then -1 else -((low as int) + 1)]
    else [if ch == 0x2c || ch == 0x3d then Length(low, high) else low]
  }

  /** The bytes from `p` on are the commands `cs`, whose answers are still to be recorded. */
  ghost predicate Ahead(buffer: seq<byte>, p: nat, left: int, cs: seq<Command>) {
    0 <= left && p + left + 2 <= |buffer| && AllWellFormed(cs) && buffer[p..p + left] == EncodeAll(cs)
  }

  /** Walks over a flushed buffer and records how much each reading command will answer. Over whole commands
      it ends exactly at the end of the buffer and knows every command. `left` is signed: a command whose
      payload runs past the end would leave it below zero. */
  method ReadSizesOf(buffer: array<byte>, length: nat, ghost cs: seq<Command>) returns (r: ParseResult)
    requires length + 2 <= buffer.Length
    ensures Ahead(buffer[..], 0, length, cs) ==> r == Sizes(ReadSizes(cs))
  {
    hide EncodeAll, HeaderLength, CommandLength, AnswerSize, ReadSize, AllWellFormed;
    var p: nat := 0;
    var left: int := length;
    var sizes: seq<int> := [];
    ghost var bytes := buffer[..];
    ghost var good := Ahead(bytes, 0, length, cs);
    ghost var rest := cs;
    while left > 0
      invariant left == length - p
      invariant good ==> Ahead(bytes, p, left, rest) && ReadSizes(cs) == sizes + ReadSizes(rest)
      decreases left
    {
      var used, size := ReadSizeOf(buffer[p], buffer[p + 1], buffer[p + 2]);
      if good {
        NextInBuffer(bytes, p, left, rest);
        rest := rest[1..];
      }
      if used == 0 {
        return UnknownCommand;
      }
      sizes := sizes + size;
      p := p + used;
      left := left - used;
    }
    if good {
      assert bytes[p..p + left] == [];
      EncodeNonEmpty(rest);
      assert ReadSizes(rest) == [];
    }
    r := Sizes(sizes);
  }

  lemma NextInBuffer(buffer: seq<byte>, p: nat, left: nat, cs: seq<Command>)
    requires 0 < left && Ahead(buffer, p, left, cs)
    ensures cs != []
    ensures var used := CommandLength(buffer[p], buffer[p + 1], buffer[p + 2]);
      used > 0 && Ahead(buffer, p + used, left - used, cs[1..])
    ensures ReadSizes(cs) == AnswerSize(buffer[p], buffer[p + 1], buffer[p + 2]) + ReadSizes(cs[1..])
  {
    var bytes := buffer[p..p + left + 2];
    assert bytes[..left] == buffer[p..p + left];
    NextCommand(bytes, cs, left);
    var used := |Encode(cs[0])|;
    assert buffer[p + used..p + left] == bytes[used..left];
  }

  lemma EncodeNonEmpty(cs: seq<Command>)
    ensures cs != [] ==> EncodeAll(cs) != []
  {
  }

  /** What the walk sees of the next command; the two bytes after the last command are never taken for its own. */
  lemma NextCommand(bytes: seq<byte>, rest: seq<Command>, left: nat)
    requires AllWellFormed(rest) && left > 0 && |bytes| == left + 2 && bytes[..left] == EncodeAll(rest)
    ensures rest != [] && |Encode(rest[0])| <= left
    ensures |Encode(rest[0])| == CommandLength(bytes[0], bytes[1], bytes[2])
    ensures HeaderLength(bytes[0]) > 0 && ReadSize(rest[0]) == AnswerSize(bytes[0], bytes[1], bytes[2])
    ensures bytes[|Encode(rest[0])|..left] == EncodeAll(rest[1..])
  {
    hide HeaderLength, CommandLength, AnswerSize, ReadSize, Encode;
    var e := Encode(rest[0]);
    assert bytes[..left] == e + EncodeAll(rest[1..]);
    assert forall k | 0 <= k < |e| :: bytes[k] == e[k];
    assert bytes[|e|..left] == bytes[..left][|e|..];
    HeaderTells(rest[0], if |e| > 1 then e[1] else bytes[1], if |e| > 2 then e[2] else bytes[2]);
  }

  /** A command's first bytes say how long it is and whether, and how much, it reads. */
  lemma HeaderTells(c: Command, low: byte, high: byte)
    requires WellFormed(c)
    requires |Encode(c)| > 1 ==> low == Encode(c)[1]
    requires |Encode(c)| > 2 ==> high == Encode(c)[2]
    ensures HeaderLength(Encode(c)[0]) > 0
    ensures |Encode(c)| == CommandLength(Encode(c)[0], low, high)
    ensures ReadSize(c) == AnswerSize(Encode(c)[0], low, high)
  {
    hide Encode, HeaderLength, CommandLength, AnswerSize, ReadSize;
    LengthTells(c, low, high);
    AnswerTells(c, low, high);
  }

  lemma LengthTells(c: Command, low: byte, high: byte)
    requires WellFormed(c)
    requires |Encode(c)| > 1 ==> low == Encode(c)[1]
    requires |Encode(c)| > 2 ==> high == Encode(c)[2]
    ensures HeaderLength(Encode(c)[0]) > 0
    ensures |Encode(c)| == CommandLength(Encode(c)[0], low, high)
  {
  }

  lemma AnswerTells(c: Command, low: byte, high: byte)
    requires WellFormed(c)
    requires |Encode(c)| > 1 ==> low == Encode(c)[1]
    requires |Encode(c)| > 2 ==> high == Encode(c)[2]
    ensures ReadSize(c) == AnswerSize(Encode(c)[0], low, high)
  {
  }
}
