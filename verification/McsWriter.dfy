/** The writer of flashable files: a bitstream, without its header, as Intel HEX records. */
module McsWriter {
  import opened Bytes
  import opened IntelHex
  import opened Multiples

  const HEADER := 120
  const PER_LINE := 16

  /** One byte as two digits. */
  function Hex2(b: byte): string {
    [Digit(b / 16), Digit(b % 16)]
  }

  function Hex4(n: nat): string
    requires n < 0x1_0000
  {
    Hex2(n / 0x100) + Hex2(n % 0x100)
  }

  lemma {:induction false} HexConcat(a: seq<byte>, b: seq<byte>)
    ensures HexOf(a + b) == HexOf(a) + HexOf(b)
  {
    if a == [] {
      assert a + b == b;
    } else {
      assert (a + b)[1..] == a[1..] + b;
      HexConcat(a[1..], b);
    }
  }

  lemma HexOne(b: byte)
    ensures HexOf([b]) == Hex2(b)
  {
    assert [b][1..] == [];
    assert Hex2(b) + "" == Hex2(b);
  }

  lemma HexNext(b: byte, rest: seq<byte>)
    ensures HexOf([b] + rest) == Hex2(b) + HexOf(rest)
  {
    HexOne(b);
    HexConcat([b], rest);
  }

  /** The text of a record, piece by piece. */
  lemma LineIs(kind: byte, offset: nat, data: seq<byte>)
    requires offset < 0x1_0000 && |data| < 0x100
    ensures var r := Record(kind, offset, data);
      Line(r) == ":" + Hex2(|data|) + Hex4(offset) + Hex2(kind) + HexOf(data) + Hex2(r[|r| - 1]) + "\n"
  {
    hide HexOf, Hex2;
    var r := Record(kind, offset, data);
    var head: seq<byte> := [|data|, offset / 0x100, offset % 0x100, kind];
    HexFour(|data|, offset / 0x100, offset % 0x100, kind);
    HexConcat(head, data);
    HexConcat(head + data, [r[|r| - 1]]);
    HexOne(r[|r| - 1]);
  }

  lemma HexFour(a: byte, b: byte, c: byte, d: byte)
    ensures HexOf([a, b, c, d]) == Hex2(a) + (Hex2(b) + Hex2(c)) + Hex2(d)
  {
    hide HexOf, Hex2;
    HexNext(c, [d]);
    HexOne(d);
    HexNext(b, [c, d]);
    HexNext(a, [b, c, d]);
    assert [c, d] == [c] + [d] && [b, c, d] == [b] + [c, d] && [a, b, c, d] == [a] + [b, c, d];
  }

  /** The address record, at every 64 KiB. */
  function BaseLine(at: nat): string
    requires at < SPACE
  {
    if at % 0x1_0000 == 0 then Line(Record(0x04, 0, [at / 0x1_0000 / 0x100, at / 0x1_0000 % 0x100])) else ""
  }

  const END_LINE := ":00000001FF\n"

  /** What is written for the data from `at` on. */
  function Emit(data: seq<byte>, at: nat): string
    requires at < SPACE
    decreases |data|, 1
  {
    BaseLine(at) + AfterBase(data, at)
  }

  function AfterBase(data: seq<byte>, at: nat): string
    requires at < SPACE
    decreases |data|, 0
  {
    var n := if |data| < PER_LINE then |data| else PER_LINE;
    if n == 0 then END_LINE
    else
      Line(Record(0x00, at % 0x1_0000, data[..n]))
      + if n < PER_LINE then END_LINE else Emit(data[n..], (at + n) % SPACE)
  }

  lemma EndLineIs()
    ensures Line(Record(0x01, 0, [])) == END_LINE
  {
    hide HexOf, Sum, Record, Hex2;
    LineIs(0x01, 0, []);
    ChecksumIs(0x01, 0, []);
    NoBytes();
    EndDigits();
  }

  lemma EndDigits()
    ensures ":" + Hex2(0) + Hex4(0) + Hex2(1) + "" + Hex2(0xff) + "\n" == END_LINE
  {
  }

  lemma NoBytes()
    ensures HexOf([]) == "" && Sum([]) == 0
  {
  }

  /** The memory a file stands for. */
  function Image(data: seq<byte>): map<nat, byte> {
    map i: nat | i < |data| :: data[i]
  }

  lemma {:induction false} StoreExtends(data: seq<byte>, at: nat, chunk: seq<byte>)
    requires at + |chunk| <= |data| <= SPACE && chunk == data[at..at + |chunk|]
    ensures Store(Image(data[..at]), at, chunk) == Image(data[..at + |chunk|])
    decreases |chunk|
  {
    hide Image;
    if chunk != [] {
      ImageExtends(data, at);
      assert chunk[1..] == data[at + 1..at + 1 + |chunk[1..]|];
      StoreExtends(data, at + 1, chunk[1..]);
    }
  }

  lemma ImageExtends(data: seq<byte>, at: nat)
    requires at < |data|
    ensures Image(data[..at])[at := data[at]] == Image(data[..at + 1])
  {
  }

  /** Sixteen bytes do not cross a 64 KiB boundary. */
  lemma NextBase(at: nat)
    requires at % PER_LINE == 0
    ensures (at + PER_LINE) % PER_LINE == 0
    ensures (at + PER_LINE) % 0x1_0000 != 0 ==> (at + PER_LINE) - (at + PER_LINE) % 0x1_0000 == at - at % 0x1_0000
  {
    var q, r := at / 0x1_0000, at % 0x1_0000;
    LineInBlock(at);
    if r + PER_LINE < 0x1_0000 {
      ModUnique(at + PER_LINE, 0x1_0000, q, r + PER_LINE);
    } else {
      ModUnique(at + PER_LINE, 0x1_0000, q + 1, 0);
    }
  }

  lemma LineInBlock(at: nat)
    requires at % PER_LINE == 0
    ensures at % 0x1_0000 + PER_LINE <= 0x1_0000
    ensures (at + PER_LINE) % PER_LINE == 0
  {
    var line, block, r := at / PER_LINE, at / 0x1_0000, at % 0x1_0000;
    assert at == 16 * line && at == 0x1_0000 * block + r;
    assert r == 16 * (line - 0x1000 * block);
    ModUnique(at + PER_LINE, PER_LINE, line + 1, 0);
  }

  /** The reader recovers the data, across every 64 KiB boundary. */
  lemma {:induction false} EmitRead(data: seq<byte>, at: nat, base: nat)
    requires at <= |data| <= SPACE && at % PER_LINE == 0
    requires at % 0x1_0000 != 0 ==> base == at - at % 0x1_0000
    ensures Read(Emit(data[at..], at % SPACE), base, Image(data[..at])) == Some(Image(data))
    decreases |data| - at
  {
    hide Read, Line, Record, Store, Image, Emit, AfterBase;
    var rest, here, m := data[at..], at % SPACE, Image(data[..at]);
    var now := if here % 0x1_0000 == 0 then here else base;
    EmitIs(rest, here);
    if here % 0x1_0000 == 0 {
      BaseRead(here / 0x1_0000, AfterBase(rest, here), base, m);
    } else {
      assert "" + AfterBase(rest, here) == AfterBase(rest, here);
    }
    if rest == [] {
      NothingAfterBase(here);
      EndLineIs();
      EndRead(now, m);
      assert data[..at] == data;
    } else {
      TailRead(data, at, now);
      if |rest| >= PER_LINE {
        NextBase(at);
        EmitRead(data, at + PER_LINE, now);
      }
    }
  }

  lemma NothingAfterBase(at: nat)
    requires at < SPACE
    ensures AfterBase([], at) == END_LINE
  {
  }

  /** One data record read. */
  lemma TailRead(data: seq<byte>, at: nat, base: nat)
    requires at < |data| <= SPACE && base == at - at % 0x1_0000
    ensures var n := if |data| - at < PER_LINE then |data| - at else PER_LINE;
      Read(AfterBase(data[at..], at), base, Image(data[..at]))
      == if n < PER_LINE then Some(Image(data))
         else Read(Emit(data[at + n..], (at + n) % SPACE), base, Image(data[..at + n]))
  {
    hide Read, Line, Record, Store, Image, Emit;
    var n := if |data| - at < PER_LINE then |data| - at else PER_LINE;
    var chunk := data[at..at + n];
    var next := if n < PER_LINE then END_LINE else Emit(data[at + n..], (at + n) % SPACE);
    assert data[at..][..n] == chunk && data[at..][n..] == data[at + n..];
    DataRead(at % 0x1_0000, chunk, next, base, Image(data[..at]));
    StoreExtends(data, at, chunk);
    if n < PER_LINE {
      EndLineIs();
      EndRead(base, Image(data[..at + n]));
      assert data[..at + n] == data;
    }
  }

  // ----- the program

  /** The negated sum, as printed. */
  function Negated(chksum: nat): byte {
    (0x100 - chksum % 0x100) % 0x100
  }

  method WriteBase(loadAddr: nat) returns (line: string)
    requires loadAddr < SPACE && loadAddr % 0x1_0000 == 0
    ensures line == BaseLine(loadAddr)
  {
    hide HexOf, Sum, Hex2;
    var high := loadAddr / 0x1_0000;
    var chksum := 0x02 + 0x04 + high / 0x100 + high % 0x100;
    line := ":" + "02000004" + Hex4(high) + Hex2(Negated(chksum)) + "\n";
    BaseIs(high);
  }

  lemma BaseIs(high: nat)
    requires high < 0x1_0000
    ensures Line(Record(0x04, 0, [high / 0x100, high % 0x100]))
         == ":" + "02000004" + Hex4(high) + Hex2(Negated(0x02 + 0x04 + high / 0x100 + high % 0x100)) + "\n"
  {
    hide HexOf, Hex2, Sum, Record;
    var data: seq<byte> := [high / 0x100, high % 0x100];
    LineIs(0x04, 0, data);
    ChecksumIs(0x04, 0, data);
    SumTwo(high / 0x100, high % 0x100);
    assert data == [high / 0x100] + [high % 0x100];
    HexNext(high / 0x100, [high % 0x100]);
    HexOne(high % 0x100);
    BaseHead();
  }

  lemma BaseHead()
    ensures Hex2(2) + Hex4(0) + Hex2(4) == "02000004"
  {
  }

  /** Prints one line of data. */
  method WriteData(loadAddr: nat, lineData: array<byte>, numBytes: nat, sum: nat) returns (line: string)
    requires loadAddr < SPACE && lineData.Length == PER_LINE && 0 < numBytes <= PER_LINE
    requires sum == Sum(lineData[..numBytes])
    ensures line == Line(Record(0x00, loadAddr % 0x1_0000, lineData[..numBytes]))
  {
    hide HexOf, Sum, Record, Hex2;
    var low := loadAddr % 0x1_0000;
    line := ":" + Hex2(numBytes) + Hex4(low) + "00";
    assert "00" == Hex2(0) by { ZeroDigits(); }
    ghost var head := line;
    assert HexOf([]) == "" by { NoBytes(); }
    for i := 0 to numBytes
      invariant line == head + HexOf(lineData[..i])
    {
      HexConcat(lineData[..i], [lineData[i]]);
      HexOne(lineData[i]);
      assert lineData[..i + 1] == lineData[..i] + [lineData[i]];
      line := line + Hex2(lineData[i]);
    }
    var chksum := sum + numBytes;
    chksum := chksum + low / 0x100 + low % 0x100;
    line := line + Hex2(Negated(chksum)) + "\n";
    LineIs(0x00, low, lineData[..numBytes]);
    ChecksumIs(0x00, low, lineData[..numBytes]);
  }

  lemma ZeroDigits()
    ensures Hex2(0) == "00"
  {
  }

  /** Reads the bytes of one line. */
  method ReadLine(infile: seq<byte>, start: nat, lineData: array<byte>) returns (numBytes: nat, chksum: nat, eof: bool)
    requires lineData.Length == PER_LINE && start <= |infile|
    modifies lineData
    ensures numBytes == if |infile| - start < PER_LINE then |infile| - start else PER_LINE
    ensures lineData[..numBytes] == infile[start..start + numBytes] && chksum == Sum(lineData[..numBytes])
    ensures eof <==> numBytes < PER_LINE
  {
    numBytes, chksum, eof := 0, 0, false;
    assert Sum([]) == 0;
    while numBytes < PER_LINE
      invariant numBytes <= PER_LINE && start + numBytes <= |infile| && !eof
      invariant lineData[..numBytes] == infile[start..start + numBytes] && chksum == Sum(lineData[..numBytes])
    {
      if start + numBytes == |infile| {
        eof := true;
        break;
      }
      SumSnoc(lineData[..numBytes], infile[start + numBytes]);
      lineData[numBytes] := infile[start + numBytes];
      assert lineData[..numBytes + 1] == lineData[..numBytes] + [infile[start + numBytes]];
      chksum := chksum + infile[start + numBytes];
      numBytes := numBytes + 1;
    }
  }

  /** The bitstream behind the header of a file. */
  function Bitstream(infile: seq<byte>): seq<byte> {
    if |infile| < HEADER then [] else infile[HEADER..]
  }

  /** The next line of data, if there is any left. */
  method NextLine(data: seq<byte>, at: nat, loadAddr: nat, lineData: array<byte>)
    returns (text: string, numBytes: nat, eof: bool)
    requires at <= |data| && loadAddr < SPACE && lineData.Length == PER_LINE
    modifies lineData
    ensures at + numBytes <= |data| && (eof || numBytes == PER_LINE)
    ensures AfterBase(data[at..], loadAddr)
         == text + if eof then END_LINE else Emit(data[at + numBytes..], (loadAddr + numBytes) % SPACE)
  {
    hide Line, Record, BaseLine, Sum, AfterBase, Emit;
    var chksum;
    numBytes, chksum, eof := ReadLine(data, at, lineData);
    AfterBaseIs(data, at, numBytes, loadAddr);
    if numBytes == 0 {
      text := "";
      assert "" + END_LINE == END_LINE;
    } else {
      text := WriteData(loadAddr, lineData, numBytes, chksum);
    }
  }

  /** Prints all lines. */
  method WriteLines(data: seq<byte>) returns (outfile: string)
    ensures outfile == Emit(data, 0)
  {
    hide Emit, BaseLine, AfterBase;
    var lineData := new byte[PER_LINE];
    var loadAddr: nat, at := 0, 0;
    outfile := "";
    ghost var whole, left := Emit(data, 0), Emit(data, 0);
    assert data[0..] == data;
    while true
      invariant loadAddr < SPACE && at <= |data| && left == Emit(data[at..], loadAddr)
      invariant outfile + left == whole
      decreases |data| - at
    {
      EmitIs(data[at..], loadAddr);
      left := AfterBase(data[at..], loadAddr);
      if loadAddr % 0x1_0000 == 0 {
        var line := WriteBase(loadAddr);
        outfile := outfile + line;
      } else {
        NoBaseLine(loadAddr);
      }
      assert outfile + left == whole;
      var text, numBytes, eof := NextLine(data, at, loadAddr, lineData);
      outfile := outfile + text;
      if eof {
        break;
      }
      loadAddr := (loadAddr + numBytes) % SPACE;
      at := at + numBytes;
      left := Emit(data[at..], loadAddr);
    }
    outfile := outfile + END_LINE;
  }

  lemma EmitIs(data: seq<byte>, at: nat)
    requires at < SPACE
    ensures Emit(data, at) == BaseLine(at) + AfterBase(data, at)
  {
  }

  /** Writes the whole file; the reader recovers what follows the first 120 bytes at addresses 0 upward. */
  method Convert(infile: seq<byte>) returns (outfile: string)
    ensures |infile| <= 120 ==> Read(outfile, 0, map[]) == Some(map[])
    ensures 120 < |infile| <= 120 + 0x1_0000_0000 ==>
              var data := infile[120..]; Read(outfile, 0, map[]) == Some(map i: nat | i < |data| :: data[i])
  {
    hide Read, Image, Emit;
    var data := Bitstream(infile);
    outfile := WriteLines(data);
    if |data| <= SPACE {
      EmitRead(data, 0, 0);
      assert data[..0] == [] && data[0..] == data;
      NoImage();
      ImageIs(infile);
    }
  }

  lemma ImageIs(infile: seq<byte>)
    ensures |infile| > 120 ==> var data := infile[120..]; Image(Bitstream(infile)) == map i: nat | i < |data| :: data[i]
    ensures |infile| <= 120 ==> Bitstream(infile) == [] && Image(Bitstream(infile)) == map[]
  {
    if |infile| == 120 {
      assert infile[120..] == [];
    }
  }

  /** A full line has sixteen bytes, and the low half of their address. */
  lemma AfterFull(data: seq<byte>, at: nat)
    requires at < SPACE && |data| >= 16
    ensures AfterBase(data, at)
         == Line(Record(0x00, at % 0x1_0000, data[..16])) + Emit(data[16..], (at + 16) % SPACE)
  {
    hide Line, Record, Emit;
  }

  /** Two records as they are printed. */
  lemma KnownLines()
    ensures Line(Record(0x00, 0x0030, [0x02, 0x33, 0x7a])) == ":0300300002337A1E\n"
    ensures Line(Record(0x04, 0x0000, [0xff, 0xff])) == ":02000004FFFFFC\n"
  {
    hide Line, Record, Hex2;
    KnownData();
    KnownBase();
  }

  lemma KnownData()
    ensures Line(Record(0x00, 0x0030, [0x02, 0x33, 0x7a])) == ":0300300002337A1E\n"
  {
    hide HexOf, Record, Sum, Hex2, Hex4, Line;
    KnownPieces();
    Digits(0x00, 0, 0);
    Digits(0x03, 0, 3);
    Digits(0x30, 3, 0);
    Digits(0x02, 0, 2);
    Digits(0x33, 3, 3);
    Digits(0x7a, 7, 10);
    Digits(0x1e, 1, 14);
    assert ":" + "03" + ("00" + "30") + "00" + ("02" + ("33" + "7A")) + "1E" + "\n" == ":0300300002337A1E\n";
  }

  lemma KnownPieces()
    ensures Line(Record(0x00, 0x0030, [0x02, 0x33, 0x7a]))
         == ":" + Hex2(0x03) + (Hex2(0x00) + Hex2(0x30)) + Hex2(0x00) + (Hex2(0x02) + (Hex2(0x33) + Hex2(0x7a)))
            + Hex2(0x1e) + "\n"
  {
    hide HexOf, Record, Sum, Hex2, Line;
    var data: seq<byte> := [0x02, 0x33, 0x7a];
    LineIs(0x00, 0x0030, data);
    ChecksumIs(0x00, 0x0030, data);
    SumTwo(0x02, 0x33);
    SumSnoc([0x02, 0x33], 0x7a);
    assert data == [0x02, 0x33] + [0x7a] && data == [0x02] + [0x33, 0x7a] && [0x33, 0x7a] == [0x33] + [0x7a];
    HexNext(0x02, [0x33, 0x7a]);
    HexNext(0x33, [0x7a]);
    HexOne(0x7a);
  }

  lemma KnownBase()
    ensures Line(Record(0x04, 0x0000, [0xff, 0xff])) == ":02000004FFFFFC\n"
  {
    hide HexOf, Record, Sum, Hex2, Hex4, Line;
    KnownBasePieces();
    Digits(0x00, 0, 0);
    Digits(0x02, 0, 2);
    Digits(0x04, 0, 4);
    Digits(0xff, 15, 15);
    Digits(0xfc, 15, 12);
    assert ":" + "02" + ("00" + "00") + "04" + ("FF" + "FF") + "FC" + "\n" == ":02000004FFFFFC\n";
  }

  lemma KnownBasePieces()
    ensures Line(Record(0x04, 0x0000, [0xff, 0xff]))
         == ":" + Hex2(0x02) + (Hex2(0x00) + Hex2(0x00)) + Hex2(0x04) + (Hex2(0xff) + Hex2(0xff)) + Hex2(0xfc) + "\n"
  {
    hide HexOf, Record, Sum, Hex2, Line;
    var data: seq<byte> := [0xff, 0xff];
    LineIs(0x04, 0x0000, data);
    ChecksumIs(0x04, 0x0000, data);
    SumTwo(0xff, 0xff);
    assert data == [0xff] + [0xff];
    HexNext(0xff, [0xff]);
    HexOne(0xff);
  }

  lemma Digits(b: byte, high: nat, low: nat)
    requires high < 16 && low < 16 && b == 16 * high + low
    ensures Hex2(b) == ["0123456789ABCDEF"[high]] + ["0123456789ABCDEF"[low]]
  {
    ModUnique(b, 16, high, low);
  }

  lemma AfterBaseIs(data: seq<byte>, at: nat, n: nat, loadAddr: nat)
    requires at <= |data| && loadAddr < SPACE && n == if |data| - at < PER_LINE then |data| - at else PER_LINE
    ensures AfterBase(data[at..], loadAddr)
         == if n == 0 then END_LINE
            else Line(Record(0x00, loadAddr % 0x1_0000, data[at..at + n]))
                 + if n < PER_LINE then END_LINE else Emit(data[at + n..], (loadAddr + n) % SPACE)
  {
    hide Line, Record, BaseLine;
    assert data[at..][..n] == data[at..at + n] && data[at..][n..] == data[at + n..];
  }

  lemma NoBaseLine(at: nat)
    requires at < SPACE && at % 0x1_0000 != 0
    ensures BaseLine(at) == ""
  {
  }

  lemma NoImage()
    ensures Image([]) == map[]
  {
  }
}
