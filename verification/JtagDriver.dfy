/** The JTAG driver: calls that append command bytes to a buffer, patch them, and hand them to the USB side. */
module JtagDriver {
  import opened Bytes
  import opened Bits
  import opened Tap
  import opened Mpsse
  import opened JtagSession
  import opened JtagTracking
  import opened JtagScan
  import opened JtagFile
  import opened JtagDelivery

  const USB_CHUNKSIZE := 4096
  const TMSW: byte := 0x4b
  const DATAW: byte := 0x19
  const DATAWBIT: byte := 0x1b
  const DREAD: byte := 0x2c

  predicate ReadFlag(read: byte) {
    read == 0 || read == DREAD
  }

  /** The read flag turns each writing command into its reading form. */
  lemma ReadForms(read: byte)
    requires ReadFlag(read)
    ensures BitOr(TMSW, read) == if read == 0 then 0x4b else 0x6f
    ensures BitOr(DATAW, read) == if read == 0 then 0x19 else 0x3d
    ensures BitOr(DATAWBIT, read) == if read == 0 then 0x1b else 0x3f
  {
    OrZero(TMSW);
    OrZero(DATAW);
    OrZero(DATAWBIT);
    ReadingForms();
  }

  lemma ReadingForms()
    ensures BitOr(TMSW, DREAD) == 0x6f && BitOr(DATAW, DREAD) == 0x3d && BitOr(DATAWBIT, DREAD) == 0x3f
  {
    TmsReadingForm();
    BytesReadingForm();
    BitsReadingForm();
  }

  lemma TmsReadingForm()
    ensures BitOr(TMSW, DREAD) == 0x6f
  {
    assert BitOr(4, 2) == 6;
    assert BitOr(18, 11) == 27;
    assert BitOr(0x4b, 0x2c) == 0x6f;
  }

  lemma BytesReadingForm()
    ensures BitOr(DATAW, DREAD) == 0x3d
  {
    assert BitOr(3, 5) == 7;
    assert BitOr(0x19, 0x2c) == 0x3d;
  }

  lemma BitsReadingForm()
    ensures BitOr(DATAWBIT, DREAD) == 0x3f
  {
    assert BitOr(0x1b, 0x2c) == 0x3f;
  }

  /** The command a transition is sent as. */
  function TailCommand(tail: string, read: bool, tdi: bool): Command
    requires 3 <= |tail| <= 7
  {
    FromBitsOf(Levels(tail[2..]));
    FewBits(|tail| - 2);
    Tms(read, |tail| - 2, FromBits(Levels(tail[2..])) + if tdi then 0x80 else 0)
  }

  lemma FewBits(n: nat)
    requires n <= 7
    ensures Pow2(n) <= 0x80
  {
    Pow2Grows(n, 7);
    assert Pow2(7) == 0x80;
  }

  lemma {:induction false} Pow2Grows(n: nat, m: nat)
    requires n <= m
    ensures Pow2(n) <= Pow2(m)
    decreases m
  {
    if n < m {
      Pow2Grows(n, m - 1);
    }
  }

  /** The commands a move appends: one, or none if the table has no such move. */
  function MoveCommands(letter: char, required: char, read: bool, tdi: bool): seq<Command> {
    var i := TailIndex(From(letter), required);
    if i < |TAILS| then
      TableHasTail(i);
      [TailCommand(TAILS[i], read, tdi)]
    else []
  }

  function MoveBytes(letter: char, required: char): nat {
    if TailIndex(From(letter), required) < |TAILS| then 3 else 0
  }

  function MoveLetter(letter: char, required: char): char {
    var i := TailIndex(From(letter), required);
    if i < |TAILS| then
      TableHasTail(i);
      TAILS[i][1]
    else letter
  }

  lemma TmsEncoding(count: nat, bits: byte)
    requires 1 <= count <= 7
    ensures Encode(Tms(false, count, bits)) == [TMSW, count - 1, bits]
  {
  }

  lemma BytesEncoding(read: byte, data: seq<byte>)
    requires ReadFlag(read)
    ensures Encode(DataBytes(read != 0, data)) == [OrByte(DATAW, read)] + Length16(|data|) + data
    ensures |Encode(DataBytes(read != 0, data))| == 3 + |data|
  {
    hide BitOr, Length16;
    ReadForms(read);
  }

  lemma TailEncoding(tail: string, read: bool, tdi: bool)
    requires 3 <= |tail| <= 7
    ensures Encode(TailCommand(tail, read, tdi))
         == [if read then 0x6f else 0x4b, |tail| - 3, FromBits(Levels(tail[2..])) + if tdi then 0x80 else 0]
  {
    assert (|tail| - 3) % 0x100 == |tail| - 3;
  }

  /** A transition command clocks the transition's levels. */
  lemma TailCommandExec(signal: Signal, tail: string, read: bool, tdi: bool)
    requires 3 <= |tail| <= 7
    ensures Exec(signal, TailCommand(tail, read, tdi)) == Driven(signal, Levels(tail[2..]), tdi)
    ensures WellFormed(TailCommand(tail, read, tdi))
  {
    var levels := Levels(tail[2..]);
    FromBitsOf(levels);
    FewBits(|levels|);
    TopBitAside(FromBits(levels), |levels|, tdi);
  }

  lemma TopBitAside(v: nat, n: nat, top: bool)
    requires n <= 7
    ensures BitsOf(v + if top then 0x80 else 0, n) == BitsOf(v, n)
  {
    if top {
      BitsOfAbove(v, n, 7);
      assert Pow2(7) == 0x80;
    }
  }

  /** The one kind of command the driver gets wrong: data bytes announced, but none there. */
  predicate Empty(c: Command) {
    c.DataBytes? && c.data == []
  }

  /** The stream broke at command `k`, with `trail` bytes sent after it. */
  ghost predicate BreaksAt(cs: seq<Command>, k: nat, trail: nat)
    requires k < |cs|
  {
    AllWellFormed(cs[..k]) && Empty(cs[k]) && |EncodeAll(cs[k + 1..])| == trail
  }

  /** Nothing is wrong with a stream, or it broke `trail` bytes ago. */
  ghost predicate Trails(cs: seq<Command>, trail: nat) {
    if AllWellFormed(cs) then trail == 0 else exists k | 0 <= k < |cs| :: BreaksAt(cs, k, trail)
  }

  /** One more command. */
  lemma TrailsOn(cs: seq<Command>, trail: nat, c: Command)
    requires Trails(cs, trail) && (WellFormed(c) || Empty(c))
    ensures Trails(cs + [c], if AllWellFormed(cs) then 0 else trail + |Encode(c)|)
  {
    hide Encode, WellFormed;
    var longer := cs + [c];
    assert longer[|cs|] == c;
    if AllWellFormed(cs) {
      assert longer[..|cs|] == cs;
      assert longer[|cs| + 1..] == [];
      if !WellFormed(c) {
        assert BreaksAt(longer, |cs|, 0);
      }
    } else {
      var k :| 0 <= k < |cs| && BreaksAt(cs, k, trail);
      StillBroken(cs, k, trail, c);
    }
  }

  lemma StillBroken(cs: seq<Command>, k: nat, trail: nat, c: Command)
    requires k < |cs| && BreaksAt(cs, k, trail)
    ensures BreaksAt(cs + [c], k, trail + |Encode(c)|)
    ensures !AllWellFormed(cs + [c])
  {
    var longer := cs + [c];
    assert longer[..k] == cs[..k] && longer[k] == cs[k];
    assert longer[k + 1..] == cs[k + 1..] + [c];
    AppendEncoded(cs[k + 1..], c);
  }

  /** A command in place of another of the same length. */
  lemma TrailsSame(cs: seq<Command>, trail: nat, c0: Command, c1: Command)
    requires Trails(cs + [c0], trail) && WellFormed(c0) && WellFormed(c1) && |Encode(c0)| == |Encode(c1)|
    ensures Trails(cs + [c1], trail)
  {
    hide Encode, WellFormed;
    var was, now := cs + [c0], cs + [c1];
    assert was[|cs|] == c0 && now[|cs|] == c1;
    assert forall i | 0 <= i < |cs| :: was[i] == now[i];
    if !AllWellFormed(was) {
      var k :| 0 <= k < |was| && BreaksAt(was, k, trail);
      assert k < |cs| by {
        if k == |cs| {
          assert WellFormed(was[k]);
          EmptyNotWhole(was[k]);
        }
      }
      BreaksSame(cs, k, trail, c0, c1);
    }
  }

  lemma EmptyNotWhole(c: Command)
    ensures !(WellFormed(c) && Empty(c))
  {
  }

  lemma BreaksSame(cs: seq<Command>, k: nat, trail: nat, c0: Command, c1: Command)
    requires k < |cs| && BreaksAt(cs + [c0], k, trail) && |Encode(c0)| == |Encode(c1)|
    ensures BreaksAt(cs + [c1], k, trail)
  {
    hide Encode, EncodeAll, AllWellFormed, Empty;
    var was, now := cs + [c0], cs + [c1];
    assert now[..k] == was[..k] && now[k] == was[k];
    assert now[k + 1..] == cs[k + 1..] + [c1];
    assert was[k + 1..] == cs[k + 1..] + [c0];
    AppendEncoded(cs[k + 1..], c0);
    AppendEncoded(cs[k + 1..], c1);
  }

  /** A stream that broke less than 65536 bytes ago cannot be read. */
  lemma BrokenUnreadable(cs: seq<Command>, trail: nat)
    requires Trails(cs, trail) && !AllWellFormed(cs) && trail < 0x1_0000
    ensures Parse(EncodeAll(cs)).None?
  {
    hide Encode, EncodeAll, Parse, AllWellFormed;
    var k :| 0 <= k < |cs| && BreaksAt(cs, k, trail);
    SplitEncoded(cs, k);
    assert cs[k] == DataBytes(cs[k].read, []);
    EmptyPayloadUnreadable(cs[..k], cs[k].read, EncodeAll(cs[k + 1..]));
  }

  lemma SplitEncoded(cs: seq<Command>, k: nat)
    requires k < |cs|
    ensures EncodeAll(cs) == EncodeAll(cs[..k]) + (Encode(cs[k]) + EncodeAll(cs[k + 1..]))
  {
    hide Encode;
    assert cs == cs[..k] + cs[k..];
    EncodeAllConcat(cs[..k], cs[k..]);
    assert cs[k..][1..] == cs[k + 1..];
  }

  /** The buffer and the wire hold commands, whole ones or broken `trail` bytes ago, and the session is what
      those commands amount to. */
  ghost predicate Consistent(buffer: seq<byte>, ptr: nat, wire: seq<byte>, current: char, start: Signal,
                             flushed: seq<Command>, pending: seq<Command>, trail: nat, session: Session)
  {
    match session
    case Session(letter, signal, whole) =>
      && letter == current && ptr + 2 <= |buffer|
      && buffer[..ptr] == EncodeAll(pending) && wire == EncodeAll(flushed)
      && AllDrive(flushed) && AllDrive(pending)
      && signal == ExecAll(start, flushed + pending)
      && whole == AllWellFormed(flushed + pending)
      && Trails(flushed + pending, trail)
  }

  class Driver {
    const buf: array<byte>
    var ptr: nat
    var current: char
    var wire: seq<byte>
    var readSize: seq<int>
    var exited: bool
    ghost var start: Signal
    ghost var flushed: seq<Command>
    ghost var pending: seq<Command>
    ghost var trail: nat
    ghost var session: Session

    ghost predicate Valid()
      reads this, buf
    {
      && buf.Length == USB_CHUNKSIZE && Consistent(buf[..], ptr, wire, current, start, flushed, pending, trail, session)
      && (session.whole ==> !exited)
    }

    /** Every byte sent so far, also those still in the buffer. */
    ghost function Stream(): seq<byte>
      reads this, buf
      requires Valid()
    {
      wire + buf[..ptr]
    }

    /** Room for `n` more bytes, and for the two the walk over the buffer looks at past its end. */
    predicate Room(n: nat)
      reads this
    {
      ptr + n + 2 <= USB_CHUNKSIZE
    }

    constructor (ghost chip: Chip)
      ensures Valid() && fresh(buf) && start == Start(chip) && ptr == 0
      ensures session == Session(NONE, Start(chip), true)
    {
      buf := new byte[USB_CHUNKSIZE];
      ptr := 0;
      current := NONE;
      wire := [];
      readSize := [];
      exited := false;
      start := Start(chip);
      flushed := [];
      pending := [];
      trail := 0;
      session := Session(NONE, Start(chip), true);
    }

    // ----- the command buffer

    method WriteData(data: seq<byte>)
      requires buf.Length == USB_CHUNKSIZE && Room(|data|)
      modifies this`ptr, buf
      ensures ptr == old(ptr) + |data| && buf[..ptr] == old(buf[..ptr]) + data
    {
      forall i | 0 <= i < |data| {
        buf[ptr + i] := data[i];
      }
      ptr := ptr + |data|;
    }

    /** Appends one whole command. */
    method WriteItem(item: seq<byte>, ghost c: Command)
      requires Valid() && Room(|item|) && item == Encode(c) && Drives(c) && (WellFormed(c) || Empty(c))
      modifies this`ptr, this`pending, this`trail, this`session, buf
      ensures Valid() && ptr == old(ptr) + |item| && pending == old(pending) + [c]
      ensures trail <= old(trail) + (ptr - old(ptr))
      ensures session == Session(current, Exec(old(session.signal), c), old(session.whole) && WellFormed(c))
    {
      ghost var before := buf[..];
      WriteData(item);
      Commit(before, old(ptr), c);
    }

    /** Counts the bytes written since `before` as a command. */
    ghost method Commit(before: seq<byte>, shorter: nat, c: Command)
      requires Consistent(before, shorter, wire, current, start, flushed, pending, trail, session)
      requires (session.whole ==> !exited) && Drives(c) && (WellFormed(c) || Empty(c))
      requires buf.Length == USB_CHUNKSIZE && ptr + 2 <= USB_CHUNKSIZE
      requires shorter <= |before| && buf[..ptr] == before[..shorter] + Encode(c)
      modifies this`pending, this`trail, this`session
      ensures Valid() && pending == old(pending) + [c]
      ensures session == Session(current, Exec(old(session.signal), c), old(session.whole) && WellFormed(c))
      ensures trail == if old(session.whole) then 0 else old(trail) + |Encode(c)|
    {
      hide Consistent, Exec, WellFormed, Empty, Encode;
      CommitConsistent(before, shorter, buf[..], ptr, wire, current, start, flushed, pending, trail, session, c);
      trail := if session.whole then 0 else trail + |Encode(c)|;
      pending := pending + [c];
      session := Session(current, Exec(session.signal, c), session.whole && WellFormed(c));
    }

    /** Appends a command that clocks TMS levels. */
    method SendTms(count: nat, bits: byte)
      requires Valid() && Room(3) && 1 <= count <= 7
      modifies this`ptr, this`pending, this`trail, this`session, buf
      ensures Valid() && ptr == old(ptr) + 3 && pending == old(pending) + [Tms(false, count, bits)]
      ensures trail <= old(trail) + (ptr - old(ptr))
      ensures session == old(session).(signal := Driven(old(session.signal), BitsOf(bits, count), bits >= 0x80))
    {
      TmsEncoding(count, bits);
      WriteItem([TMSW, count - 1, bits], Tms(false, count, bits));
    }

    /** Hands the buffer to the USB side and notes what the chip will answer. */
    method FlushWrite()
      requires Valid()
      modifies this, buf
      ensures Valid() && ptr == 0 && session == old(session) && start == old(start) && trail == old(trail)
      ensures Stream() == old(Stream())
      ensures AllWellFormed(old(pending)) && old(ptr) > 0 ==>
                readSize == ReadSizes(old(pending)) && exited == old(exited)
    {
      hide Consistent, AllWellFormed, ReadSizes;
      FlushAhead(buf[..], ptr, wire, current, start, flushed, pending, trail, session);
      FlushConsistent(buf[..], ptr, wire, current, start, flushed, pending, trail, session);
      var length := ptr;
      ptr := 0;
      if length == 0 {
        return;
      }
      wire := wire + buf[..length];
      var r := ReadSizesOf(buf, length, pending);
      match r {
        case UnknownCommand => exited := true;
        case Sizes(sizes) => readSize := sizes;
      }
      flushed := flushed + pending;
      pending := [];
    }

    /** Asks for the answers at once, then flushes; fetching the answers is not modelled. */
    method ReadData()
      requires Valid() && Room(1)
      modifies this, buf
      ensures Valid() && ptr == 0 && session == old(session) && start == old(start)
    {
      if ptr > 0 {
        WriteItem([SEND_IMMEDIATE], Plain(SEND_IMMEDIATE));
      }
      FlushWrite();
    }

    // ----- moving the controller

    /** Packs the TMS levels of a transition into a byte, first level lowest. */
    method PackLevels(tail: string) returns (b: byte)
      requires 3 <= |tail| <= 9
      ensures b == FromBits(Levels(tail[2..]))
    {
      hide FromBits, Pow2, Shr;
      var p, len := 2, 0;
      var temp := 0;
      ghost var levels := Levels(tail[2..]);
      ghost var bits := Zeros(8);
      FromZeros(8);
      while p < |tail|
        invariant p == len + 2 <= |tail|
        invariant |bits| == 8 && bits[8 - len..] == levels[..len]
        invariant temp == FromBits(bits)
      {
        PushTop(bits, levels, len);
        temp := temp / 2 + (if tail[p] == '1' then 0x80 else 0);
        bits := bits[1..] + [levels[len]];
        len := len + 1;
        p := p + 1;
      }
      assert levels[..len] == levels;
      ShrFromBits(bits, 8 - len);
      FromBitsOf(levels);
      FewBits(len);
      b := Shr(temp, 8 - len);
    }

    /** Sends a transition and remembers where it leads. */
    method WriteTmsTransition(tail: string)
      requires Valid() && Room(3) && 3 <= |tail| <= 7
      modifies this`ptr, this`pending, this`trail, this`session, this`current, buf
      ensures Valid() && ptr == old(ptr) + 3 && current == tail[1]
      ensures pending == old(pending) + [TailCommand(tail, false, false)]
      ensures trail <= old(trail) + (ptr - old(ptr))
      ensures session == Transition(old(session), tail, false)
    {
      hide Consistent, BitsOf, FromBits, Pow2, Levels, WellFormed, Encode;
      var b := PackLevels(tail);
      TailCommandExec(session.signal, tail, false, false);
      SendTms(|tail| - 2, b);
      NewLetter(buf[..], ptr, wire, current, start, flushed, pending, trail, session, tail[1]);
      current := tail[1];
      session := session.(letter := current);
    }

    /** Moves to a letter; the table is searched to its end, and at most one entry fits. */
    method EnterTmsState(required: char)
      requires Valid() && Room(3)
      modifies this`ptr, this`pending, this`trail, this`session, this`current, buf
      ensures Valid() && ptr == old(ptr) + MoveBytes(old(current), required)
      ensures current == MoveLetter(old(current), required)
      ensures pending == old(pending) + MoveCommands(old(current), required, false, false)
      ensures trail <= old(trail) + (ptr - old(ptr))
      ensures session == Enter(old(session), required, false)
    {
      hide Consistent, TailCommand, Transition;
      LetterIsCurrent(buf[..], ptr, wire, current, start, flushed, pending, trail, session);
      var temp := From(current);
      ghost var index := TailIndex(temp, required);
      TailInTable(temp, required);
      var p := 0;
      while p < |TAILS|
        invariant 0 <= p <= |TAILS| && Valid()
        invariant p <= index ==> ptr == old(ptr) && pending == old(pending) && current == old(current)
        invariant p <= index ==> trail == old(trail) && session == old(session)
        invariant p > index ==> ptr == old(ptr) + 3 && current == TAILS[index][1] && trail <= old(trail) + 3
        invariant p > index ==> pending == old(pending) + [TailCommand(TAILS[index], false, false)]
        invariant p > index ==> session == Transition(old(session), TAILS[index], false)
      {
        TableHasTail(p);
        if temp == TAILS[p][0] && required == TAILS[p][1] {
          WriteTmsTransition(TAILS[p]);
        }
        p := p + 1;
      }
    }

    /** Ors the read flag and a data bit into a command's bytes; past the end of the buffer they do not matter. */
    method PatchCommand(cptr: nat, read: byte, extrabit: byte)
      requires buf.Length == USB_CHUNKSIZE && cptr + 2 < USB_CHUNKSIZE && ptr <= USB_CHUNKSIZE
      modifies buf
      ensures buf[..ptr] == Patched(old(buf[..ptr]), cptr, read, extrabit)
    {
      buf[cptr] := OrByte(buf[cptr], read);
      buf[cptr + 2] := OrByte(buf[cptr + 2], extrabit);
    }

    /** Moves to a letter, then patches the read flag and one data bit into the command that
        moved there. If none did, only bytes past the end of the buffer are touched. */
    method EnterPatched(required: char, read: byte, extrabit: byte)
      requires Valid() && Room(3) && ReadFlag(read) && (extrabit == 0 || extrabit == 0x80)
      modifies this`ptr, this`pending, this`trail, this`session, this`current, buf
      ensures Valid() && ptr <= old(ptr) + 3
      ensures trail <= old(trail) + (ptr - old(ptr))
      ensures session == Enter(old(session), required, extrabit == 0x80)
    {
      hide Consistent, Enter, MoveCommands, Patched;
      MovedToIs(session, required, false);
      MovedToIs(session, required, extrabit == 0x80);
      var cptr := ptr;
      ghost var before := buf[..];
      EnterTmsState(required);
      ghost var moved := buf[..];
      PatchCommand(cptr, read, extrabit);
      PatchConsistent(before, cptr, moved, buf[..], ptr, wire, old(current), start, flushed, old(pending),
                      old(trail), trail, old(session), required, read, extrabit);
      pending := old(pending) + MoveCommands(old(current), required, read != 0, extrabit == 0x80);
      session := Enter(old(session), required, extrabit == 0x80);
    }

    /** Shifts one to seven bits. */
    method ShiftBits(read: byte, bits: nat, data: nat)
      requires Valid() && Room(3) && ReadFlag(read) && 1 <= bits <= 7
      modifies this`ptr, this`pending, this`trail, this`session, buf
      ensures Valid() && ptr == old(ptr) + 3
      ensures trail <= old(trail) + (ptr - old(ptr))
      ensures session == Shift(old(session), BitsOf(data, bits))
    {
      hide EncodeAll, AllDrive, ExecAll, BitOr;
      ReadForms(read);
      LowByteBits(data, bits);
      var op, low := OrByte(DATAWBIT, read), data % 0x100;
      WriteItem([op, bits - 1, low], DataBits(read != 0, bits, low));
    }

    /** Shifts up to seven bits, and one more on the clock that leaves for `target`. */
    method WriteBit(read: byte, bits: int, data: nat, target: char)
      requires Valid() && Room(9) && ReadFlag(read) && bits <= 7
      modifies this`ptr, this`pending, this`trail, this`session, this`current, buf
      ensures Valid() && ptr <= old(ptr) + 9
      ensures From(old(current)) == 'S' && bits == 0 && target == NONE ==> ptr == old(ptr) && current == old(current)
      ensures trail <= old(trail) + (ptr - old(ptr))
      ensures session == JtagSession.WriteBit(old(session), bits, data, target)
    {
      var extrabit: byte := 0;
      EnterTmsState('S');
      if bits >= 0 {
        if bits > 0 {
          ShiftBits(read, bits, data);
        }
        extrabit := if Bit(data, bits) then 0x80 else 0;
      }
      if target != NONE {
        EnterPatched(target, read, extrabit);
      }
    }

    // ----- runs of bytes and bits

    /** Reverses the bits of the last bytes written, in place. */
    method SwapBits(cptr: nat)
      requires buf.Length == USB_CHUNKSIZE && cptr <= ptr <= USB_CHUNKSIZE
      modifies buf
      ensures buf[..ptr] == old(buf[..cptr]) + Swapped(true, old(buf[cptr..ptr]))
    {
      hide BitSwap, Swapped;
      var i := 0;
      while i < ptr - cptr
        invariant 0 <= i <= ptr - cptr
        invariant forall k | 0 <= k < cptr || cptr + i <= k < ptr :: buf[k] == old(buf[k])
        invariant forall k | cptr <= k < cptr + i :: buf[k] == BitSwap(old(buf[k]))
      {
        buf[cptr + i] := BitSwap(buf[cptr + i]);
        i := i + 1;
      }
      SwappedEnd(old(buf[..ptr]), buf[..ptr], cptr);
      assert old(buf[..ptr])[..cptr] == old(buf[..cptr]) && old(buf[..ptr])[cptr..] == old(buf[cptr..ptr]);
    }

    /** Appends a data command: the length header, the payload, and the bit reversal in place. */
    method AppendData(op: byte, swap: bool, data: seq<byte>)
      requires buf.Length == USB_CHUNKSIZE && Room(3 + |data|)
      modifies this`ptr, buf
      ensures ptr == old(ptr) + 3 + |data|
      ensures buf[..ptr] == old(buf[..ptr]) + ([op] + Length16(|data|) + Swapped(swap, data))
    {
      hide BitSwap, Swapped, Length16;
      ghost var header := [op] + Length16(|data|);
      WriteData([op] + Length16(|data|));
      var cptr := ptr;
      WriteData(data);
      ghost var sent := buf[..ptr];
      assert sent == old(buf[..ptr]) + header + data;
      assert buf[cptr..ptr] == data && buf[..cptr] == old(buf[..ptr]) + header;
      if swap {
        SwapBits(cptr);
      } else {
        SwappedNot(data);
      }
      assert buf[..ptr] == old(buf[..ptr]) + header + Swapped(swap, data);
    }

    /** Shifts whole bytes. */
    method ShiftBytes(read: byte, swap: bool, data: seq<byte>)
      requires Valid() && Room(3 + |data|) && ReadFlag(read)
      modifies this`ptr, this`pending, this`trail, this`session, buf
      ensures Valid() && ptr == old(ptr) + 3 + |data|
      ensures trail <= old(trail) + (ptr - old(ptr))
      ensures session == Shift(old(session), DataBitsOf(Swapped(swap, data)))
                           .(whole := old(session.whole) && 1 <= |data| <= 0x1_0000)
    {
      hide Consistent, BitOr, Encode, Swapped, DataBitsOf, Length16;
      BytesEncoding(read, Swapped(swap, data));
      LetterIsCurrent(buf[..], ptr, wire, current, start, flushed, pending, trail, session);
      ghost var before := buf[..];
      AppendData(OrByte(DATAW, read), swap, data);
      Commit(before, old(ptr), DataBytes(read != 0, Swapped(swap, data)));
    }

    /** The end of a frame that is not full. */
    method EndFrame(read: byte, f: Frames, data: seq<byte>)
      requires Valid() && Room(18) && ReadFlag(read) && GoodFrames(f) && 0 < |data| < f.maxFrame
      modifies this`ptr, this`pending, this`trail, this`session, this`current, buf
      ensures Valid() && ptr <= old(ptr) + 18
      ensures From(old(current)) == 'S' && f == PLAIN ==> ptr == old(ptr) && current == old(current)
      ensures trail <= old(trail) + (ptr - old(ptr))
      ensures session == FrameEnd(old(session), f, data)
    {
      hide Consistent, Enter, JtagSession.WriteBit;
      var exchar, opttail := f.exchar, f.opttail;
      if opttail > 0 {
        exchar := data[|data| - 1];
        if f.swap {
          exchar := BitSwap(exchar);
        }
        opttail := -7;
      }
      if f.target == 'E' {
        WriteBit(0, f.dc2trail, 0xff, NONE);
      }
      WriteBit(read, -opttail, exchar, f.target);
    }

    /** Sends bytes in frames, flushing between them. */
    method WriteBytes(read: byte, f: Frames, data: seq<byte>)
      requires Valid() && ReadFlag(read) && GoodFrames(f)
      requires Room(24 + Min(|data|, f.maxFrame))
      requires |data| > f.maxFrame ==> f.maxFrame <= MAX_SINGLE_USB_DATA
      modifies this, buf
      ensures Valid() && start == old(start)
      ensures ptr <= (if |data| > f.maxFrame then 0 else old(ptr)) + Min(|data|, f.maxFrame) + 24
      ensures From(old(current)) == 'S' && f == PLAIN && 0 < |data| < SINGLE_FRAME ==>
                ptr == old(ptr) + 3 + |data| && current == old(current)
      ensures old(session.whole) ==> trail <= ptr
      ensures session == JtagSession.WriteBytes(old(session), f, data)
    {
      EnterTmsState('S');
      SendAllFrames(read, f, data);
    }

    method SendAllFrames(read: byte, f: Frames, data: seq<byte>)
      requires Valid() && ReadFlag(read) && GoodFrames(f)
      requires Room(21 + Min(|data|, f.maxFrame))
      requires |data| > f.maxFrame ==> f.maxFrame <= MAX_SINGLE_USB_DATA
      modifies this, buf
      ensures Valid() && start == old(start)
      ensures ptr <= (if |data| > f.maxFrame then 0 else old(ptr)) + Min(|data|, f.maxFrame) + 21
      ensures From(old(current)) == 'S' && f == PLAIN && 0 < |data| < SINGLE_FRAME ==>
                ptr == old(ptr) + 3 + |data| && current == old(current)
      ensures old(session.whole) ==> trail <= ptr
      ensures session == SendFrames(old(session), f, data)
    {
      var size: int := |data|;
      var rest := data;
      ghost var exact := From(current) == 'S' && f == PLAIN && |data| < SINGLE_FRAME;
      ghost var end := ptr;
      while size > 0
        invariant Valid() && start == old(start)
        invariant size == |data| ==> ptr == old(ptr) && current == old(current)
        invariant size == |data| ==> rest == data && session == old(session)
        invariant size > 0 ==> size == |rest| <= |data| && ptr <= (if size == |data| then old(ptr) else 0)
        invariant size > 0 ==> SendFrames(session, f, rest) == SendFrames(old(session), f, data)
        invariant old(session.whole) ==> trail <= ptr && (size > 0 ==> session.whole)
        invariant size <= 0 ==> session == SendFrames(old(session), f, data) && ptr <= end
        invariant size <= 0 ==> end <= (if |data| > f.maxFrame then 0 else old(ptr)) + Min(|data|, f.maxFrame) + 21
        invariant exact && size < |data| ==> size <= 0 && ptr == old(ptr) + 3 + |data| && current == old(current)
        decreases size
      {
        end := ptr + Min(size, f.maxFrame) + 21;
        SendFrame(read, f, rest);
        size := size - f.maxFrame;
        if size > 0 {
          FlushWrite();
          rest := rest[f.maxFrame..];
        }
      }
    }

    /** Sends one frame, and its end if it is not full. */
    method SendFrame(read: byte, f: Frames, data: seq<byte>)
      requires Valid() && ReadFlag(read) && GoodFrames(f) && data != []
      requires Room(21 + Min(|data|, f.maxFrame))
      modifies this`ptr, this`pending, this`trail, this`session, this`current, buf
      ensures Valid() && ptr <= old(ptr) + Min(|data|, f.maxFrame) + 21
      ensures From(old(current)) == 'S' && f == PLAIN && |data| < SINGLE_FRAME ==>
                ptr == old(ptr) + 3 + |data| && current == old(current)
      ensures trail <= old(trail) + (ptr - old(ptr))
      ensures f.maxFrame <= |data| && f.maxFrame <= 0x1_0000 ==> session.whole == old(session.whole)
      ensures SendFrames(old(session), f, data) ==
                if |data| > f.maxFrame then SendFrames(session, f, data[f.maxFrame..]) else session
    {
      var rlen := Min(|data|, f.maxFrame);
      var tlen := FrameLength(f, |data|);
      ShiftBytes(read, f.swap, data[..tlen]);
      if rlen < f.maxFrame {
        EndFrame(read, f, data);
      }
      FramesUnfold(old(session), f, data);
    }

    /** Shifts whole bytes of ones. */
    method WriteOnes(read: byte, n: nat)
      requires Valid() && Room(28) && ReadFlag(read) && n <= 4
      modifies this, buf
      ensures Valid() && start == old(start) && ptr <= old(ptr) + 28
      ensures session == JtagSession.WriteBytes(old(session), PLAIN, AllOnes(n))
    {
      WriteBytes(read, PLAIN, AllOnes(n));
    }

    /** Shifts up to 39 ones, and one more on the way out. */
    method WriteFill(read: byte, width: nat, tail: char)
      requires Valid() && Room(45) && ReadFlag(read) && width <= 39
      modifies this, buf
      ensures Valid() && start == old(start) && ptr <= old(ptr) + 45
      ensures width <= 7 ==> trail <= old(trail) + (ptr - old(ptr))
      ensures session == Fill(old(session), width, tail)
    {
      hide Consistent, Enter, SendFrames, JtagSession.WriteBit, JtagSession.WriteBytes;
      var left := width;
      if left > 7 {
        WriteOnes(read, left / 8);
        left := left % 8;
      }
      WriteBit(read, left, 0xff, tail);
    }

    /** Clocks TMS high. */
    method MarkerForReset(stay: nat)
      requires Valid() && Room(6) && stay <= 6
      modifies this, buf
      ensures Valid() && start == old(start) && ptr == 0
      ensures session == ResetMark(old(session), stay)
    {
      hide Consistent, Enter;
      EnterTmsState('R');
      OnesOf7F(stay + 1);
      SendTms(stay + 1, 0x7f);
      FlushWrite();
    }

    /** Clocks TMS low. */
    method SendIdle(more: nat)
      requires Valid() && Room(3) && more <= 6
      modifies this`ptr, this`pending, this`trail, this`session, buf
      ensures Valid() && ptr == old(ptr) + 3
      ensures trail <= old(trail) + (ptr - old(ptr))
      ensures session == IdleClocks(old(session), more + 1)
    {
      ZerosOf0(more + 1);
      SendTms(more + 1, 0);
    }

    method SendIdles(times: nat)
      requires Valid() && Room(3 * times)
      modifies this`ptr, this`pending, this`trail, this`session, buf
      ensures Valid() && ptr == old(ptr) + 3 * times
      ensures trail <= old(trail) + (ptr - old(ptr))
      ensures session == IdleRuns(old(session), times)
    {
      hide Consistent, IdleClocks;
      var i := 0;
      while i < times
        invariant 0 <= i <= times && Valid() && ptr == old(ptr) + 3 * i && trail <= old(trail) + 3 * i
        invariant session == IdleRuns(old(session), i)
      {
        SendIdle(6);
        i := i + 1;
      }
    }

    method TmswDelay(delayTime: nat, extra: nat)
      requires Valid() && Room(9 + 3 * delayTime) && extra <= 6
      modifies this`ptr, this`pending, this`trail, this`session, this`current, buf
      ensures Valid()
      ensures trail <= old(trail) + (ptr - old(ptr))
      ensures session == Delay(old(session), delayTime, extra)
    {
      hide Consistent, Enter, IdleClocks;
      EnterTmsState('I');
      if extra > 0 {
        SendIdle(0);
        SendIdles(delayTime);
        SendIdle(extra);
      } else {
        SendIdles(delayTime);
      }
    }

    // ----- scans

    /** Shifts an instruction into one device of the chain and ones into all others. */
    method WriteIrreg(read: byte, c: Chain, command: nat, index: nat, tail: char)
      requires Valid() && ReadFlag(read) && GoodChain(c) && index <= |c.lens| && FillsFit(c, index)
      modifies this, buf
      ensures Valid() && start == old(start) && ptr <= 105
      ensures session == JtagSession.WriteIrreg(old(session), c, read != 0, command, index, tail)
    {
      hide Consistent, Enter, Fill, JtagSession.WriteBit;
      var befbits, afterbits := CountBits(c, index);
      FlushWrite();
      EnterTmsState('I');
      EnterTmsState('S');
      WriteFill(0, befbits, NONE);
      EndIrreg(read, c, command, index, tail, afterbits);
    }

    /** The instruction itself, and ones for the devices on the near side. */
    method EndIrreg(read: byte, c: Chain, command: nat, index: nat, tail: char, afterbits: nat)
      requires Valid() && ReadFlag(read) && GoodChain(c) && index <= |c.lens| && FillsFit(c, index)
      requires afterbits == After(c, index) && Room(54)
      modifies this, buf
      ensures Valid() && start == old(start) && ptr <= old(ptr) + 54
      ensures session == JtagSession.EndIrreg(old(session), c, read != 0, command, index, tail)
    {
      hide Consistent, Enter, Fill, JtagSession.WriteBit;
      AfterAll(c, index);
      var trim := read != 0 && index != |c.lens|;
      if afterbits != 0 && !trim {
        if index != |c.lens| {
          WriteBit(0, c.lens[index], command, NONE);
        }
        WriteFill(read, afterbits - 1, tail);
      } else {
        WriteBit(read, c.lens[index] - 1, command, tail);
      }
    }

    /** Shifts an instruction into the configured device and returns to Idle, resuming from Pause if it read. */
    method WriteCirreg(read: byte, c: Chain, command: nat)
      requires Valid() && ReadFlag(read) && GoodChain(c) && FillsFit(c, c.jtagIndex)
      modifies this, buf
      ensures Valid() && start == old(start) && ptr <= 108
      ensures session == JtagSession.WriteCirreg(old(session), c, read != 0, command)
      ensures read != 0 && c.jtagIndex == 0 ==>
                ptr == MoveBytes(JtagSession.WriteIrreg(old(session), c, true, command, 0, 'E').letter, 'I')
    {
      var target := if c.jtagIndex != 0 && read != 0 then 'P' else 'E';
      WriteIrreg(read, c, command, c.jtagIndex, target);
      if read != 0 {
        ReadData();
        if target == 'P' {
          AfterAll(c, c.jtagIndex);
          WriteFill(0, After(c, c.jtagIndex) - 1, 'E');
        }
      }
      EnterTmsState('I');
    }

    method IdleToShiftDr(bits: nat)
      requires Valid() && Room(12) && bits <= 7
      modifies this`ptr, this`pending, this`trail, this`session, this`current, buf
      ensures Valid() && ptr <= old(ptr) + 12
      ensures bits == 0 && old(current) == 'I' ==> ptr == old(ptr) + 3 && current == 'D'
      ensures trail <= old(trail) + (ptr - old(ptr))
      ensures session == IdleToShiftDR(old(session), bits)
    {
      hide Consistent, Enter;
      EnterTmsState('D');
      WriteBit(0, bits, 0xff, NONE);
    }

    /** Sends whole words, each as a request of its own. */
    method WriteWords(data: seq<byte>)
      requires Valid() && |data| <= 255 && From(current) == 'S' && Room(7 * (|data| / 4) + 28)
      modifies this, buf
      ensures Valid() && start == old(start)
      ensures ptr == old(ptr) + 7 * (|data| / 4) && current == old(current)
      ensures session == WriteInt32(old(session), data)
    {
      var size := |data| / 4;
      var rest := data;
      while size > 0
        invariant 0 <= size == |rest| / 4 && |rest| <= |data|
        invariant Valid() && start == old(start)
        invariant ptr == old(ptr) + 7 * (|data| / 4 - size) && current == old(current)
        invariant WriteInt32(session, rest) == WriteInt32(old(session), data)
      {
        WriteBytes(0, PLAIN, rest[..4]);
        rest := rest[4..];
        size := size - 1;
      }
    }

    /** Sends a file in chunks, flushing after each; `limit` is the frame size of the first one. */
    method SendChunks(limit: nat, data: seq<byte>, e: FileEnd, swap: bool)
      requires Valid() && 1 <= limit && ptr + limit <= MAX_SINGLE_USB_DATA && e.dc2trail <= 7
      modifies this, buf
      ensures Valid() && start == old(start) && (data != [] ==> ptr == 0)
      ensures data == [] ==> ptr == old(ptr)
      ensures old(session.whole) && FirstWhole(|data|, limit) ==> trail <= USB_CHUNKSIZE
      ensures session == JtagSession.SendChunks(old(session), limit, data, e, swap)
    {
      hide Consistent, SendFrames, Enter, JtagSession.WriteBytes;
      WholeTrails(buf[..], ptr, wire, current, start, flushed, pending, trail, session);
      var psize, frame := |data|, limit;
      var rest := data;
      ghost var good := session.whole && FirstWhole(|data|, limit);
      while psize > 0
        invariant 0 <= psize == |rest| && Valid() && start == old(start)
        invariant 1 <= frame && ptr + frame <= MAX_SINGLE_USB_DATA
        invariant if psize == |data| then ptr == old(ptr) else ptr == 0
        invariant good ==> trail <= USB_CHUNKSIZE && (psize > 0 ==> session.whole && FirstWhole(psize, frame))
        invariant JtagSession.SendChunks(session, frame, rest, e, swap)
               == JtagSession.SendChunks(old(session), limit, data, e, swap)
      {
        var size := if psize < FILE_READSIZE then psize else FILE_READSIZE;
        psize := psize - size;
        ChunkWhole(session, ChunkFrames(frame, psize == 0, e, swap), rest[..size]);
        FullChunks();
        WriteBytes(0, ChunkFrames(frame, psize == 0, e, swap), rest[..size]);
        FlushWrite();
        frame := MAX_SINGLE_USB_DATA;
        rest := rest[size..];
      }
    }

    /** Sends the zeros between the words, as many pads as the place in the chain asks for. */
    method WritePads(c: Chain)
      requires Valid() && GoodChain(c) && Room(86)
      modifies this, buf
      ensures Valid() && start == old(start) && ptr <= old(ptr) + 62
      ensures |c.lens| == 1 ==> ptr == old(ptr)
      ensures session == SendPads(old(session), c, PadCount(c))
    {
      hide Consistent, JtagSession.WriteBytes;
      var tremain := 0;
      var mid := if Mid(c) then 1 else 0;
      while tremain < 1 + mid && |c.lens| > 1
        invariant 0 <= tremain <= PadCount(c)
        invariant Valid() && start == old(start) && ptr <= old(ptr) + 31 * tremain
        invariant tremain == 0 ==> ptr == old(ptr)
        invariant session == SendPads(old(session), c, tremain)
      {
        WriteBytes(0, PadFrames(PadTail(c, tremain)), PAD);
        tremain := tremain + 1;
      }
    }

    /** Shifts in the instruction, enters Shift-DR, and sends everything that comes before the file. */
    method StartDataFile(read: byte, c: Chain, pre: seq<byte>, post: seq<byte>)
      requires Valid() && ReadFlag(read) && ChainFits(c)
      requires Tracks(session) && CanIdle(session.letter)
      requires |pre| <= 255 && |post| <= 255
      modifies this, buf
      ensures Valid() && start == old(start)
      ensures session == StartFile(old(session), c, read != 0, pre, post)
      ensures ptr <= 182 + 7 * (|pre| / 4) + 7 * (|post| / 4)
      ensures read != 0 && |c.lens| == 1 ==> ptr == 6 + 7 * (|pre| / 4) + 7 * (|post| / 4)
    {
      hide Consistent, Enter, JtagSession.WriteIrreg, JtagSession.WriteCirreg, WriteInt32, SendPads, InDR, LeftIR,
           DataBitsOf;
      EnterShiftDr(read, c);
      ghost var bits := Ones(Trailing(c));
      CurrentShifts(bits);
      WordsInDR(session, bits, pre);
      WriteWords(pre);
      bits := bits + DataBitsOf(Words(pre));
      PadsInDR(session, bits, c, PadCount(c));
      WritePads(c);
      CurrentShifts(bits + Zeros(PadZeros(c, PadCount(c))));
      WriteWords(post);
    }

    /** Shifts in the instruction and enters Shift-DR, with ones for the devices beyond. */
    method EnterShiftDr(read: byte, c: Chain)
      requires Valid() && ReadFlag(read) && ChainFits(c)
      requires Tracks(session) && CanIdle(session.letter)
      modifies this, buf
      ensures Valid() && start == old(start) && ptr <= 120
      ensures session == IdleToShiftDR(JtagSession.WriteCirreg(old(session), c, read != 0, IRREG_CFG_IN), Trailing(c))
      ensures InDR(session, Ones(Trailing(c)))
      ensures read != 0 && |c.lens| == 1 ==> ptr == 6
    {
      hide Consistent, Enter, JtagSession.WriteIrreg, JtagSession.WriteCirreg, InDR, LeftIR, Tracks;
      CirregShifts(session, c, read != 0, IRREG_CFG_IN);
      if read != 0 && |c.lens| == 1 {
        AloneExits(session, c, IRREG_CFG_IN);
      }
      WriteCirreg(read, c, IRREG_CFG_IN);
      IdleEntersDR(session, Trailing(c));
      LetterIsCurrent(buf[..], ptr, wire, current, start, flushed, pending, trail, session);
      IdleToShiftDr(Trailing(c));
    }

    lemma CurrentShifts(bits: seq<bool>)
      requires Valid() && InDR(session, bits)
      ensures From(current) == 'S'
    {
    }

    /** Sends a file to a device of a chain; `limit` is the frame size of its first chunk. */
    method SendDataFile(read: byte, c: Chain, extraShift: bool, data: seq<byte>,
                        pre: seq<byte>, post: seq<byte>, opttail: bool, swap: bool) returns (ghost limit: nat)
      requires Valid() && ReadFlag(read) && ChainFits(c)
      requires Tracks(session) && CanIdle(session.letter)
      requires |pre| <= 255 && |post| <= 255
      modifies this, buf
      ensures Valid() && start == old(start)
      ensures 2900 <= limit <= MAX_SINGLE_USB_DATA
      ensures read != 0 && |c.lens| == 1 ==> limit == MAX_SINGLE_USB_DATA - 6 - 7 * (|pre| / 4) - 7 * (|post| / 4)
      ensures var e := FileEnd(extraShift, opttail, Dc2Trail(c));
        session == SendFile(old(session), c, read != 0, e, data, pre, post, swap, limit)
      ensures trail <= USB_CHUNKSIZE + 48
    {
      hide Consistent, Enter, SendFrames, JtagSession.WriteBit, StartFile, FinishFile, JtagSession.SendChunks, Tracks;
      ghost var e := FileEnd(extraShift, opttail, Dc2Trail(c));
      StartDataFile(read, c, pre, post);
      limit := MAX_SINGLE_USB_DATA - ptr;
      FileWhole(old(session), c, read != 0, e, data, pre, post, swap, limit);
      FirstIsWhole(|data|, limit);
      SendChunks(MAX_SINGLE_USB_DATA - ptr, data, FileEnd(extraShift, opttail, Dc2Trail(c)), swap);
      FinishDataFile(extraShift);
    }

    method FinishDataFile(extraShift: bool)
      requires Valid() && Room(48)
      modifies this, buf
      ensures Valid() && start == old(start)
      ensures trail <= old(trail) + 48
      ensures session == FinishFile(old(session), extraShift)
    {
      if extraShift {
        WriteFill(0, 0, 'E');
      }
      EnterTmsState('I');
    }

    /** Sends a bit file the way the main program does: the configured device is given instruction 5 and all
        others ones, and the file arrives exactly if its last chunk ends in place. With a single byte held back
        for the last frame, what was sent cannot be read. */
    method SendBitFile(c: Chain, data: seq<byte>) returns (ghost limit: nat)
      requires Valid() && ChainFits(c)
      requires Tracks(session) && CanIdle(session.letter)
      modifies this, buf
      ensures Valid() && start == old(start)
      ensures 2900 <= limit <= 4046 && (|c.lens| == 1 ==> limit == 4033)
      ensures Ir(session) == Joined(Registers(c.lens, 5, c.jtagIndex))
      ensures Delivered(session, c, [], [0, 0, 0, 0], data) <==> EndsInPlace(c, BytesLeft(|data|, limit))
      ensures |c.lens| == 1 && BytesLeft(|data|, limit) >= 2 ==> ShiftedAlone(session, c, data)
      ensures (c.jtagIndex == 0 || |c.lens| == if c.cortex then 2 else 1) && BytesLeft(|data|, limit) == 1 ==>
                Parse(Stream()).None?
    {
      hide Consistent, Enter, StartFile, SendFile, Delivered, Tracks, LastLeft, EncodeAll, Parse, FillsFit, Joined,
           ShiftedAlone;
      SurplusInPlace(c, 0);
      ghost var e := MainEnd(c);
      var others := Others(c);
      limit := SendDataFile(DREAD, c, others == 0 && c.jtagIndex != 0, data, [], [0, 0, 0, 0],
                            !(c.jtagIndex != 0 && others != 0), true);
      FileDelivered(old(session), c, true, [], [0, 0, 0, 0], data, limit);
      FileWhole(old(session), c, true, e, data, [], [0, 0, 0, 0], true, limit);
      FirstIsWhole(|data|, limit);
      LeftIs(|data|, limit);
      if e.opttail && LastLeft(|data|, limit) == 1 {
        StreamBreaks();
      }
      if |c.lens| == 1 && LastLeft(|data|, limit) >= 2 {
        AloneShifted(session, c, data);
      }
    }

    /** What the bytes sent so far mean: read back as commands, they put the session's signal on the wires. */
    lemma StreamMeans()
      requires Valid() && session.whole
      ensures Stream() == EncodeAll(flushed + pending) && Parse(Stream()) == Some(flushed + pending)
      ensures AllDrive(flushed + pending) && ExecAll(start, flushed + pending) == session.signal
    {
      EncodeAllConcat(flushed, pending);
      ParseEncoded(flushed + pending);
    }

    /** Once a data command without data has been sent, nothing after it can be read until 65536 more bytes
        have followed. */
    lemma StreamBreaks()
      requires Valid() && !session.whole && trail < 0x1_0000
      ensures Parse(Stream()).None?
    {
      EncodeAllConcat(flushed, pending);
      BrokenUnreadable(flushed + pending, trail);
    }
  }

  lemma SwappedEnd(before: seq<byte>, after: seq<byte>, cptr: nat)
    requires |after| == |before| && cptr <= |before|
    requires forall k | 0 <= k < cptr :: after[k] == before[k]
    requires forall k | cptr <= k < |before| :: after[k] == BitSwap(before[k])
    ensures after == before[..cptr] + Swapped(true, before[cptr..])
  {
    hide BitSwap;
  }

  lemma SwappedNot(data: seq<byte>)
    ensures Swapped(false, data) == data
  {
  }

  /** Reading an instruction into a chain of one device leaves Shift-IR for Exit1. */
  lemma AloneExits(s: Session, c: Chain, command: nat)
    requires Tracks(s) && CanIdle(s.letter) && ChainFits(c) && |c.lens| == 1
    ensures c.jtagIndex == 0 && JtagSession.WriteIrreg(s, c, true, command, 0, 'E').letter == 'E'
  {
    hide Enter, JtagSession.WriteIrreg, Tracks;
    IrregShifts(s, c, true, command, 0, 'E');
  }

  /** What a file in chunks of 6464 bytes leaves for its last frame; frames are of 4046 bytes but in the first chunk. */
  function BytesLeft(size: nat, limit: nat): nat
    requires limit >= 1
  {
    if size <= 6464 then size % limit else ((size - 1) % 6464 + 1) % 4046
  }

  lemma LeftIs(size: nat, limit: nat)
    requires limit >= 1
    ensures LastLeft(size, limit) == BytesLeft(size, limit)
  {
    if size > 0 {
      LastChunkIs(size);
    }
  }

  lemma {:induction false} LastChunkIs(size: nat)
    requires size > 0
    ensures LastChunk(size) == (size - 1) % 6464 + 1
  {
    if size > 6464 {
      LastChunkIs(size - 6464);
      ModStep(size - 1, 6464);
    } else {
      RemainderUnique(size - 1, 0, size - 1, 6464);
    }
  }

  /** A device on its own: instruction 5, 32 zeros and the file, the high bit of each byte first. */
  predicate ShiftedAlone(s: Session, c: Chain, data: seq<byte>)
    requires |c.lens| == 1
  {
    var chip := Settle(s.signal);
    chip.ir == BitsOf(5, c.lens[0]) && |chip.dr| == 32 + 8 * |data| && chip.dr[..32] == Zeros(32)
    && chip.dr[32..] == HighBitFirst(data)
  }

  lemma AloneShifted(s: Session, c: Chain, data: seq<byte>)
    requires GoodChain(c) && |c.lens| == 1 && Delivered(s, c, [], [0, 0, 0, 0], data)
    requires Ir(s) == Joined(Registers(c.lens, 5, c.jtagIndex))
    ensures ShiftedAlone(s, c, data)
  {
    hide Delivered, BitsOf, FileStart;
    var post: seq<byte> := [0, 0, 0, 0];
    DeliveredParts(s, c, [], post, data);
    ZeroBytes(post);
    FileStartIs(c, [], post);
    assert Received(c, Settle(s.signal).dr) == Settle(s.signal).dr;
    assert Registers(c.lens, 5, 0)[1..] == [];
    assert [] + BitsOf(5, c.lens[0]) == BitsOf(5, c.lens[0]);
  }

  /** The driver's frames are long enough for a first full chunk never to leave a single byte. */
  lemma FirstIsWhole(size: nat, limit: nat)
    requires 2900 <= limit <= MAX_SINGLE_USB_DATA
    ensures FirstWhole(size, limit)
  {
    if limit > 3232 {
      RemainderUnique(FILE_READSIZE, 1, FILE_READSIZE - limit, limit);
    } else {
      RemainderUnique(FILE_READSIZE, 2, FILE_READSIZE - 2 * limit, limit);
    }
  }

  function Min(a: nat, b: nat): nat {
    if a < b then a else b
  }

  lemma FramesUnfold(s: Session, f: Frames, data: seq<byte>)
    requires GoodFrames(f) && data != []
    ensures var n := FrameLength(f, |data|);
      var s1 := Shift(s, DataBitsOf(Swapped(f.swap, data[..n]))).(whole := s.whole && 1 <= n <= 0x1_0000);
      SendFrames(s, f, data) == if |data| < f.maxFrame then FrameEnd(s1, f, data)
                                else if |data| == f.maxFrame then s1
                                else SendFrames(s1, f, data[f.maxFrame..])
  {
  }

  /** Counts the instruction bits on either side of a device. */
  method CountBits(c: Chain, index: nat) returns (befbits: nat, afterbits: nat)
    requires index <= |c.lens|
    ensures befbits == Before(c, index) && afterbits == After(c, index)
  {
    befbits, afterbits := 0, 0;
    for i := 0 to |c.lens|
      invariant afterbits == SumLengths(c.lens[..if i < index then i else index])
      invariant befbits == if i > index then SumLengths(c.lens[index + 1..i]) else 0
    {
      NextSum(c.lens, i, index);
      if i < index {
        afterbits := afterbits + c.lens[i];
      } else if i > index {
        befbits := befbits + c.lens[i];
      }
    }
    assert c.lens[..|c.lens|] == c.lens;
    assert index < |c.lens| ==> c.lens[index + 1..|c.lens|] == c.lens[index + 1..];
  }

  function OrByte(a: byte, b: byte): byte {
    assert BitOr(a, b) < 0x100 by {
      assert Pow2(8) == 0x100;
      OrBelow(a, b, 8);
    }
    BitOr(a, b)
  }

  function Patched(bytes: seq<byte>, cptr: nat, read: byte, extrabit: byte): (r: seq<byte>)
    ensures |r| == |bytes|
  {
    seq(|bytes|, i requires 0 <= i < |bytes| =>
      if i == cptr then OrByte(bytes[i], read) else if i == cptr + 2 then OrByte(bytes[i], extrabit) else bytes[i])
  }

  /** The bytes of a transition, once patched, are those of one that reads and carries a data bit. */
  lemma PatchedTail(tail: string, read: byte, extrabit: byte)
    requires 3 <= |tail| <= 7 && ReadFlag(read) && (extrabit == 0 || extrabit == 0x80)
    ensures Patched(Encode(TailCommand(tail, false, false)), 0, read, extrabit)
         == Encode(TailCommand(tail, read != 0, extrabit == 0x80))
  {
    TailEncoding(tail, false, false);
    TailEncoding(tail, read != 0, extrabit == 0x80);
    ReadForms(read);
    TailByte(tail);
    OrTop(FromBits(Levels(tail[2..])));
  }

  lemma PatchedMove(cs: seq<Command>, letter: char, required: char, read: byte, extrabit: byte)
    requires ReadFlag(read) && (extrabit == 0 || extrabit == 0x80)
    ensures Patched(EncodeAll(cs + MoveCommands(letter, required, false, false)), |EncodeAll(cs)|, read, extrabit)
         == EncodeAll(cs + MoveCommands(letter, required, read != 0, extrabit == 0x80))
  {
    var i := TailIndex(From(letter), required);
    if i < |TAILS| {
      TableHasTail(i);
      var c0, c1 := TailCommand(TAILS[i], false, false), TailCommand(TAILS[i], read != 0, extrabit == 0x80);
      AppendEncoded(cs, c0);
      AppendEncoded(cs, c1);
      PatchedTail(TAILS[i], read, extrabit);
      PatchedAfter(EncodeAll(cs), Encode(c0), read, extrabit);
    } else {
      assert cs + [] == cs;
    }
  }

  /** A patched move is a move that reads and carries a data bit. */
  lemma PatchConsistent(before: seq<byte>, cptr: nat, moved: seq<byte>, after: seq<byte>, ptr: nat, wire: seq<byte>,
                        current: char, start: Signal, flushed: seq<Command>, pending: seq<Command>,
                        was: nat, trail: nat, session: Session, required: char, read: byte, extrabit: byte)
    requires ReadFlag(read) && (extrabit == 0 || extrabit == 0x80)
    requires Consistent(before, cptr, wire, current, start, flushed, pending, was, session)
    requires Consistent(moved, ptr, wire, MoveLetter(current, required), start, flushed,
                        pending + MoveCommands(current, required, false, false), trail, Enter(session, required, false))
    requires |after| == |moved| && after[..ptr] == Patched(moved[..ptr], cptr, read, extrabit)
    ensures Consistent(after, ptr, wire, MoveLetter(current, required), start, flushed,
                       pending + MoveCommands(current, required, read != 0, extrabit == 0x80), trail,
                       Enter(session, required, extrabit == 0x80))
  {
    TrailsMove(flushed, pending, trail, current, required, read != 0, extrabit == 0x80);
    PatchedMove(pending, current, required, read, extrabit);
    MoveState(start, flushed, pending, current, required, read != 0, extrabit == 0x80);
  }

  lemma TrailsMove(flushed: seq<Command>, pending: seq<Command>, trail: nat, letter: char, required: char,
                   read: bool, tdi: bool)
    requires Trails(flushed + (pending + MoveCommands(letter, required, false, false)), trail)
    ensures Trails(flushed + (pending + MoveCommands(letter, required, read, tdi)), trail)
  {
    hide Trails, Encode, WellFormed;
    var i := TailIndex(From(letter), required);
    if i < |TAILS| {
      TableHasTail(i);
      var c0, c1 := TailCommand(TAILS[i], false, false), TailCommand(TAILS[i], read, tdi);
      TailCommandExec(Start(Chip(Reset, true, [], [])), TAILS[i], false, false);
      TailCommandExec(Start(Chip(Reset, true, [], [])), TAILS[i], read, tdi);
      TailEncoding(TAILS[i], false, false);
      TailEncoding(TAILS[i], read, tdi);
      assert flushed + (pending + [c0]) == flushed + pending + [c0];
      assert flushed + (pending + [c1]) == flushed + pending + [c1];
      TrailsSame(flushed + pending, trail, c0, c1);
    }
  }

  lemma PatchedAfter(before: seq<byte>, bytes: seq<byte>, read: byte, extrabit: byte)
    ensures Patched(before + bytes, |before|, read, extrabit) == before + Patched(bytes, 0, read, extrabit)
  {
  }

  /** What a move's commands do is what the move is specified to do. */
  lemma MoveState(start: Signal, flushed: seq<Command>, cs: seq<Command>, letter: char, required: char, read: bool,
                  tdi: bool)
    requires AllDrive(flushed) && AllDrive(cs)
    ensures var moved := cs + MoveCommands(letter, required, read, tdi);
      && AllDrive(moved)
      && Session(MoveLetter(letter, required), ExecAll(start, flushed + moved), AllWellFormed(flushed + moved))
      == Enter(Session(letter, ExecAll(start, flushed + cs), AllWellFormed(flushed + cs)), required, tdi)
  {
    var i := TailIndex(From(letter), required);
    if i < |TAILS| {
      TableHasTail(i);
      AppendState(start, flushed, cs, TailCommand(TAILS[i], read, tdi));
      TailCommandExec(ExecAll(start, flushed + cs), TAILS[i], read, tdi);
    } else {
      assert cs + [] == cs;
    }
  }

  lemma OnesOf7F(n: nat)
    requires n <= 7
    ensures BitsOf(0x7f, n) == Ones(n)
  {
    assert BitsOf(0x7f, 7) == [true, true, true, true, true, true, true];
    BitsOfPrefix(0x7f, 7, n);
  }

  /** One more device in the running sums on either side of device `index`. */
  lemma NextSum(lens: seq<nat>, i: nat, index: nat)
    requires i < |lens|
    ensures i < index ==> SumLengths(lens[..i + 1]) == SumLengths(lens[..i]) + lens[i]
    ensures i > index ==> SumLengths(lens[index + 1..i + 1]) == SumLengths(lens[index + 1..i]) + lens[i]
    ensures i == index ==> lens[index + 1..i + 1] == []
  {
    if i < index {
      assert lens[..i + 1] == lens[..i] + [lens[i]];
      SumSnoc(lens[..i], lens[i]);
    } else if i > index {
      assert lens[index + 1..i + 1] == lens[index + 1..i] + [lens[i]];
      SumSnoc(lens[index + 1..i], lens[i]);
    }
  }

  lemma {:induction false} SumSnoc(lens: seq<nat>, n: nat)
    ensures SumLengths(lens + [n]) == SumLengths(lens) + n
  {
    if lens == [] {
      assert [n][1..] == [];
    } else {
      assert (lens + [n])[1..] == lens[1..] + [n];
      SumSnoc(lens[1..], n);
    }
  }

  lemma TailByte(tail: string)
    requires 3 <= |tail| <= 7
    ensures FromBits(Levels(tail[2..])) < 0x80
  {
    FromBitsOf(Levels(tail[2..]));
    Pow2Grows(|tail| - 2, 7);
    assert Pow2(7) == 0x80;
  }

  lemma LowByteBits(v: nat, n: nat)
    requires n <= 8
    ensures BitsOf(v % 0x100, n) == BitsOf(v, n)
  {
    LowBits(v / 0x100, v % 0x100, n);
    assert v == v % 0x100 + 0x100 * (v / 0x100);
  }

  /** Adding multiples of $100 leaves the low eight bits alone. */
  lemma {:induction false} LowBits(k: nat, v: nat, n: nat)
    requires n <= 8
    ensures BitsOf(v + 0x100 * k, n) == BitsOf(v, n)
    decreases k
  {
    if k > 0 {
      BitsOfAbove(v + 0x100 * (k - 1), n, 8);
      assert Pow2(8) == 0x100;
      LowBits(k - 1, v, n);
    }
  }

  lemma LetterIsCurrent(buffer: seq<byte>, ptr: nat, wire: seq<byte>, current: char, start: Signal,
                        flushed: seq<Command>, pending: seq<Command>, trail: nat, session: Session)
    requires Consistent(buffer, ptr, wire, current, start, flushed, pending, trail, session)
    ensures session.letter == current
  {
  }

  lemma WholeTrails(buffer: seq<byte>, ptr: nat, wire: seq<byte>, current: char, start: Signal,
                    flushed: seq<Command>, pending: seq<Command>, trail: nat, session: Session)
    requires Consistent(buffer, ptr, wire, current, start, flushed, pending, trail, session)
    ensures session.whole ==> trail == 0
  {
  }

  lemma NewLetter(buffer: seq<byte>, ptr: nat, wire: seq<byte>, current: char, start: Signal, flushed: seq<Command>,
                  pending: seq<Command>, trail: nat, session: Session, letter: char)
    requires Consistent(buffer, ptr, wire, current, start, flushed, pending, trail, session)
    ensures Consistent(buffer, ptr, wire, letter, start, flushed, pending, trail, session.(letter := letter))
  {
    hide Trails, AllWellFormed, EncodeAll, ExecAll;
  }

  /** One more command at the end of the buffer. */
  lemma CommitConsistent(before: seq<byte>, shorter: nat, after: seq<byte>, ptr: nat, wire: seq<byte>, current: char,
                         start: Signal, flushed: seq<Command>, pending: seq<Command>, trail: nat, session: Session,
                         c: Command)
    requires Consistent(before, shorter, wire, current, start, flushed, pending, trail, session)
    requires Drives(c) && (WellFormed(c) || Empty(c)) && ptr + 2 <= |after|
    requires shorter <= |before| && after[..ptr] == before[..shorter] + Encode(c)
    ensures Consistent(after, ptr, wire, current, start, flushed, pending + [c],
                       if session.whole then 0 else trail + |Encode(c)|,
                       Session(current, Exec(session.signal, c), session.whole && WellFormed(c)))
  {
    hide Trails, Exec, WellFormed, Empty, Encode, AllWellFormed;
    TrailsOn(flushed + pending, trail, c);
    AppendEncoded(pending, c);
    AppendState(start, flushed, pending, c);
    assert flushed + (pending + [c]) == flushed + pending + [c];
  }

  /** What the walk over a flushed buffer meets. */
  lemma FlushAhead(buffer: seq<byte>, ptr: nat, wire: seq<byte>, current: char, start: Signal,
                   flushed: seq<Command>, pending: seq<Command>, trail: nat, session: Session)
    requires Consistent(buffer, ptr, wire, current, start, flushed, pending, trail, session)
    ensures ptr + 2 <= |buffer|
    ensures ptr == 0 ==> pending == []
    ensures session.whole ==> AllWellFormed(pending)
    ensures AllWellFormed(pending) ==> Ahead(buffer, 0, ptr, pending)
  {
    hide Trails, ExecAll, WellFormed;
    EncodeNonEmpty(pending);
    assert forall i | 0 <= i < |pending| :: (flushed + pending)[|flushed| + i] == pending[i];
    assert buffer[0..0 + ptr] == buffer[..ptr];
  }

  lemma FlushConsistent(buffer: seq<byte>, ptr: nat, wire: seq<byte>, current: char, start: Signal,
                        flushed: seq<Command>, pending: seq<Command>, trail: nat, session: Session)
    requires Consistent(buffer, ptr, wire, current, start, flushed, pending, trail, session)
    ensures Consistent(buffer, 0, wire + buffer[..ptr], current, start, flushed + pending, [], trail, session)
  {
    hide Trails, ExecAll, WellFormed;
    EncodeAllConcat(flushed, pending);
    assert flushed + pending + [] == flushed + pending;
  }

  /** Shifting a byte down by one and putting the next level on top. */
  lemma PushTop(bits: seq<bool>, levels: seq<bool>, k: nat)
    requires |bits| == 8 && k < |levels| && k < 8 && bits[8 - k..] == levels[..k]
    ensures var next := bits[1..] + [levels[k]];
      next[7 - k..] == levels[..k + 1] && FromBits(next) == FromBits(bits) / 2 + if levels[k] then 0x80 else 0
  {
    var next := bits[1..] + [levels[k]];
    assert next[7 - k..] == bits[8 - k..] + [levels[k]];
    assert levels[..k + 1] == levels[..k] + [levels[k]];
    FromBitsSnoc(bits[1..], levels[k]);
    HalfFromBits(bits);
    assert Pow2(7) == 0x80;
  }

  lemma {:induction false} FromZeros(n: nat)
    ensures FromBits(Zeros(n)) == 0
  {
    if n > 0 {
      FromZeros(n - 1);
      assert Zeros(n)[1..] == Zeros(n - 1);
    }
  }

  lemma AppendEncoded(cs: seq<Command>, c: Command)
    ensures EncodeAll(cs + [c]) == EncodeAll(cs) + Encode(c)
  {
    EncodeAllConcat(cs, [c]);
    assert [c][1..] == [];
    assert EncodeAll([c]) == Encode(c) + [];
  }

  lemma AppendState(start: Signal, flushed: seq<Command>, pending: seq<Command>, c: Command)
    requires AllDrive(flushed) && AllDrive(pending) && Drives(c)
    ensures ExecAll(start, flushed + (pending + [c])) == Exec(ExecAll(start, flushed + pending), c)
    ensures AllWellFormed(flushed + (pending + [c])) <==> AllWellFormed(flushed + pending) && WellFormed(c)
  {
    var before, after := flushed + pending, flushed + (pending + [c]);
    assert after == before + [c];
    assert after[..|after| - 1] == before;
    assert forall i | 0 <= i < |before| :: after[i] == before[i];
    assert after[|before|] == c;
  }
}
