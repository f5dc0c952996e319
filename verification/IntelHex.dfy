/** Intel HEX files (Intel Hexadecimal Object File Format Specification, Revision A, 1988): records as text,
    and a reader. */
module IntelHex {
  import opened Bytes

  const SPACE := 0x1_0000_0000

  function Digit(d: nat): char
    requires d < 16
  {
    "0123456789ABCDEF"[d]
  }

  function DigitValue(c: char): Option<nat> {
    if '0' <= c <= '9' then Some((c - '0') as nat)
    else if 'A' <= c <= 'F' then Some((c - 'A') as nat + 10)
    else None
  }

  /** Two digits for each byte. */
  function HexOf(bytes: seq<byte>): string {
    if bytes == [] then "" else [Digit(bytes[0] / 16), Digit(bytes[0] % 16)] + HexOf(bytes[1..])
  }

  function Line(bytes: seq<byte>): string {
    ":" + HexOf(bytes) + "\n"
  }

  /** Bytes up to the end of a line, and what follows the line. */
  function ReadHex(s: string): (r: Option<(seq<byte>, string)>)
    ensures r.Some? ==> |r.value.1| < |s|
  {
    if s == [] then None
    else if s[0] == '\n' then Some(([], s[1..]))
    else if |s| < 2 then None
    else
      match (DigitValue(s[0]), DigitValue(s[1]), ReadHex(s[2..]))
      case (Some(high), Some(low), Some((bytes, rest))) =>
        if high < 16 && low < 16 then Some(([16 * high + low] + bytes, rest)) else None
      case _ => None
  }

  function Sum(bytes: seq<byte>): nat {
    if bytes == [] then 0 else bytes[0] + Sum(bytes[1..])
  }

  /** A record with its checksum. */
  function Record(kind: byte, offset: nat, data: seq<byte>): seq<byte>
    requires offset < 0x1_0000 && |data| < 0x100
  {
    var body := [|data|, offset / 0x100, offset % 0x100, kind] + data;
    body + [(0x100 - Sum(body) % 0x100) % 0x100]
  }

  /** Length and checksum agree. */
  predicate GoodRecord(r: seq<byte>) {
    |r| >= 5 && |r| - 5 == r[0] && Sum(r) % 0x100 == 0
  }

  /** Data stored at a linear address. */
  function Store(m: map<nat, byte>, at: nat, data: seq<byte>): map<nat, byte>
    decreases |data|
  {
    if data == [] then m else Store(m[at % SPACE := data[0]], at + 1, data[1..])
  }

  /** Two bytes, the high one first. */
  function Big(high: nat, low: nat): nat {
    0x100 * high + low
  }

  /** Reads records up to the end record; `base` is the linear base address. */
  function Read(s: string, base: nat, m: map<nat, byte>): Option<map<nat, byte>>
    decreases |s|
  {
    if s == [] || s[0] != ':' then None
    else
      match ReadHex(s[1..])
      case None => None
      case Some((r, rest)) =>
        if !GoodRecord(r) then None
        else if r[3] == 0x00 then
          Read(rest, base, Store(m, base + Big(r[1], r[2]), r[4..|r| - 1]))
        else if r[3] == 0x04 && r[0] == 2 then Read(rest, Big(r[4], r[5]) * 0x1_0000, m)
        else if r[3] == 0x01 && r[0] == 0 && rest == [] then Some(m)
        else None
  }

  lemma DigitRead(d: nat)
    requires d < 16
    ensures DigitValue(Digit(d)) == Some(d) && Digit(d) != '\n'
  {
  }

  lemma {:induction false} HexRead(bytes: seq<byte>, rest: string)
    ensures ReadHex(HexOf(bytes) + "\n" + rest) == Some((bytes, rest))
  {
    hide Digit, DigitValue;
    var s := HexOf(bytes) + "\n" + rest;
    if bytes == [] {
      assert s == "\n" + rest;
    } else {
      DigitRead(bytes[0] / 16);
      DigitRead(bytes[0] % 16);
      HexRead(bytes[1..], rest);
      assert s == [Digit(bytes[0] / 16), Digit(bytes[0] % 16)] + (HexOf(bytes[1..]) + "\n" + rest);
      assert s[2..] == HexOf(bytes[1..]) + "\n" + rest;
      assert 16 * (bytes[0] / 16) + bytes[0] % 16 == bytes[0] && [bytes[0]] + bytes[1..] == bytes;
    }
  }

  lemma {:induction false} SumSnoc(bytes: seq<byte>, b: byte)
    ensures Sum(bytes + [b]) == Sum(bytes) + b
  {
    if bytes == [] {
      assert [b][1..] == [];
    } else {
      assert (bytes + [b])[1..] == bytes[1..] + [b];
      SumSnoc(bytes[1..], b);
    }
  }

  lemma {:induction false} SumConcat(a: seq<byte>, b: seq<byte>)
    ensures Sum(a + b) == Sum(a) + Sum(b)
  {
    if a == [] {
      assert a + b == b;
    } else {
      assert (a + b)[1..] == a[1..] + b;
      SumConcat(a[1..], b);
    }
  }

  lemma SumTwo(a: byte, b: byte)
    ensures Sum([a, b]) == (a as int) + b
  {
    assert Sum([b]) == b + Sum([]);
    assert [a, b][1..] == [b];
  }

  /** The checksum is the negated sum of what comes before it. */
  lemma ChecksumIs(kind: byte, offset: nat, data: seq<byte>)
    requires offset < 0x1_0000 && |data| < 0x100
    ensures var r := Record(kind, offset, data);
      r[|r| - 1] == (0x100 - (|data| + offset / 0x100 + offset % 0x100 + kind + Sum(data)) % 0x100) % 0x100
  {
    hide Sum;
    var a: byte, b: byte, c: byte := |data|, offset / 0x100, offset % 0x100;
    SumTwo(a, b);
    SumTwo(c, kind);
    SumConcat([a, b], [c, kind]);
    SumConcat([a, b, c, kind], data);
    assert [a, b] + [c, kind] == [a, b, c, kind];
  }

  /** The bytes of every record sum to 0 modulo 256. */
  lemma RecordIsGood(kind: byte, offset: nat, data: seq<byte>)
    requires offset < 0x1_0000 && |data| < 0x100
    ensures GoodRecord(Record(kind, offset, data))
  {
    var body: seq<byte> := [|data|, offset / 0x100, offset % 0x100, kind] + data;
    SumSnoc(body, (0x100 - Sum(body) % 0x100) % 0x100);
    SumZero(Sum(body));
  }

  lemma SumZero(n: nat)
    ensures (n + (0x100 - n % 0x100) % 0x100) % 0x100 == 0
  {
  }

  /** Reading a line of a record carries on after it. */
  lemma LineRead(r: seq<byte>, rest: string)
    ensures var s := Line(r) + rest;
      s != [] && s[0] == ':' && ReadHex(s[1..]) == Some((r, rest))
  {
    hide HexOf, ReadHex;
    HexRead(r, rest);
    assert (Line(r) + rest)[1..] == HexOf(r) + "\n" + rest;
  }

  lemma BigOf(n: nat)
    requires n < 0x1_0000
    ensures Big(n / 0x100, n % 0x100) == n
  {
  }

  lemma DataRead(offset: nat, data: seq<byte>, rest: string, base: nat, m: map<nat, byte>)
    requires offset < 0x1_0000 && |data| < 0x100
    ensures Read(Line(Record(0x00, offset, data)) + rest, base, m) == Read(rest, base, Store(m, base + offset, data))
  {
    hide Line, GoodRecord, ReadHex;
    var r := Record(0x00, offset, data);
    RecordIsGood(0x00, offset, data);
    LineRead(r, rest);
    BigOf(offset);
    assert r[4..|r| - 1] == data;
  }

  lemma BaseRead(high: nat, rest: string, base: nat, m: map<nat, byte>)
    requires high < 0x1_0000
    ensures Read(Line(Record(0x04, 0, [high / 0x100, high % 0x100])) + rest, base, m) == Read(rest, high * 0x1_0000, m)
  {
    hide Line, GoodRecord, ReadHex;
    var r := Record(0x04, 0, [high / 0x100, high % 0x100]);
    RecordIsGood(0x04, 0, [high / 0x100, high % 0x100]);
    LineRead(r, rest);
    BigOf(high);
  }

  lemma EndRead(base: nat, m: map<nat, byte>)
    ensures Read(Line(Record(0x01, 0, [])), base, m) == Some(m)
  {
    hide Line, GoodRecord, ReadHex;
    var r := Record(0x01, 0, []);
    RecordIsGood(0x01, 0, []);
    LineRead(r, []);
    assert Line(r) + [] == Line(r);
  }
}
