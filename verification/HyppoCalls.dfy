/** Well-nested runs of the emulated CPU: what calls and pushes leave on the stack, returns and pulls find there. */
module HyppoCalls {
  import opened Bytes
  import opened Bits
  import opened HyppoMemory
  import opened HyppoCpu
  import opened Multiples

  /** A stack page, the memory behind it, and where the stack pointer stood at first. */
  datatype Layout = Layout(page: byte, base: nat, top: byte)

  function PageAddress(lay: Layout, k: byte): (a: nat)
    ensures a < 0x1_0000
  {
    Word(k, lay.page)
  }

  predicate MappedAt(m: Memory, mapping: Mapping, lay: Layout, k: byte)
    requires GoodMemory(m)
  {
    var a := PageAddress(lay, k);
    && Translate(m, mapping, a, true) == lay.base + k && Translate(m, mapping, a, false) == lay.base + k
    && Mapped(lay.base + k) && !(IO_BASE <= lay.base + k < IO_BASE + 0x1_0000)
  }

  /** The stack page is mapped to memory outside the IO space, and the processor port is not part of it. */
  ghost predicate StackMapped(m: Memory, mapping: Mapping, lay: Layout)
    requires GoodMemory(m)
  {
    lay.base >= 2 && forall k: byte {:trigger MappedAt(m, mapping, lay, k)} :: MappedAt(m, mapping, lay, k)
  }

  /** Without a mapped zone the ordinary stack page is chip RAM, however the banks are set. */
  lemma OrdinaryStack(m: Memory, mapping: Mapping, top: byte)
    requires GoodMemory(m) && !Bit(mapping.maplo, 12)
    ensures StackMapped(m, mapping, Layout(0x01, 0x100, top))
  {
  }

  /** With its zone mapped there the hypervisor's stack page is hypervisor RAM. */
  lemma HypervisorStack(m: Memory, mapping: Mapping, top: byte)
    requires GoodMemory(m) && Bit(mapping.maphi, 13) && mapping.maphi % 0x1000 == 0xf00 && mapping.maphimb == 0xff
    ensures StackMapped(m, mapping, Layout(0xbe, 0xfff_be00, top))
  {
  }

  /** The bytes pushed since the stack pointer stood at its top, first one first, are on the stack. */
  ghost predicate OnStack(s: State, lay: Layout, bytes: seq<byte>)
    requires GoodState(s)
  {
    && s.cpu.regs.flags.e && s.cpu.stack.sph == lay.page && s.cpu.stack.spl + |bytes| == lay.top
    && StackMapped(s.mem, s.cpu.regs.mapping, lay)
    && forall j | 0 <= j < |bytes| :: Read28(s.mem, lay.base + lay.top - j) == bytes[j]
  }

  lemma StackMappedSame(m: Memory, m1: Memory, mapping: Mapping, lay: Layout)
    requires GoodMemory(m) && GoodMemory(m1) && m.chip[0] == m1.chip[0] && m.chip[1] == m1.chip[1]
    requires StackMapped(m, mapping, lay)
    ensures StackMapped(m1, mapping, lay)
  {
    hide Translate;
    forall k: byte
      ensures MappedAt(m1, mapping, lay, k)
    {
      assert MappedAt(m, mapping, lay, k);
      TranslateSame(m, m1, mapping, PageAddress(lay, k), true);
      TranslateSame(m, m1, mapping, PageAddress(lay, k), false);
    }
  }

  lemma PortSame(m: Memory, a: nat, value: byte)
    requires GoodMemory(m) && a >= 2
    ensures var m1 := Write28(m, a, value);
      m1.chip[0] == m.chip[0] && m1.chip[1] == m.chip[1]
  {
  }

  /** A push adds a byte, as long as there is room in the page. */
  lemma PushAdds(s: State, lay: Layout, bytes: seq<byte>, value: byte)
    requires GoodState(s) && OnStack(s, lay, bytes) && |bytes| < lay.top
    ensures OnStack(Push(s, value), lay, bytes + [value])
    ensures Push(s, value).cpu == s.cpu.(stack := s.cpu.stack.(spl := s.cpu.stack.spl - 1))
  {
    hide Translate, Mapped, Write28, Read28;
    assert MappedAt(s.mem, s.cpu.regs.mapping, lay, s.cpu.stack.spl);
    assert Sp(s.cpu.stack) == PageAddress(lay, s.cpu.stack.spl);
    var a := lay.base + s.cpu.stack.spl;
    var r := Push(s, value);
    assert r.mem == Write28(s.mem, a, value);
    PortSame(s.mem, a, value);
    StackMappedSame(s.mem, r.mem, s.cpu.regs.mapping, lay);
    forall j | 0 <= j < |bytes| + 1
      ensures Read28(r.mem, lay.base + lay.top - j) == (bytes + [value])[j]
    {
      ReadWritten(s.mem, a, value, lay.base + lay.top - j);
    }
  }

  /** A pop takes the last byte. */
  lemma PopTakes(s: State, lay: Layout, bytes: seq<byte>)
    requires GoodState(s) && OnStack(s, lay, bytes) && bytes != []
    ensures OnStack(Popped(s), lay, bytes[..|bytes| - 1])
    ensures Popped(s).cpu == s.cpu.(stack := s.cpu.stack.(spl := s.cpu.stack.spl + 1))
    ensures Top(Popped(s)) == bytes[|bytes| - 1]
  {
    hide Translate, Mapped, Read28;
    var r := Popped(s);
    assert MappedAt(s.mem, s.cpu.regs.mapping, lay, r.cpu.stack.spl);
    assert Sp(r.cpu.stack) == PageAddress(lay, r.cpu.stack.spl);
    assert Top(r) == Read28(s.mem, lay.base + r.cpu.stack.spl);
  }

  // ----- frames

  /** What is on the stack and not yet taken off: a byte pushed, or a call not returned from. */
  datatype Frame = Saved(value: byte) | Open(call: nat)

  function FrameBytes(f: Frame): seq<byte> {
    match f
    case Saved(value) => [value]
    case Open(call) => [(call + 2) / 0x100 % 0x100, (call + 2) % 0x100]
  }

  function AllBytes(frames: seq<Frame>): seq<byte> {
    if frames == [] then [] else AllBytes(frames[..|frames| - 1]) + FrameBytes(frames[|frames| - 1])
  }

  function Calls(frames: seq<Frame>): nat {
    if frames == [] then 0 else Calls(frames[..|frames| - 1]) + if frames[|frames| - 1].Open? then 1 else 0
  }

  lemma FramesNext(frames: seq<Frame>, f: Frame)
    ensures AllBytes(frames + [f]) == AllBytes(frames) + FrameBytes(f)
    ensures Calls(frames + [f]) == Calls(frames) + if f.Open? then 1 else 0
  {
    assert (frames + [f])[..|frames|] == frames;
  }

  /** Writes that leave the stack page and the processor port alone, and start no DMA job. */
  predicate Harmless(s: State, lay: Layout, a: nat)
    requires GoodState(s) && a < 0x1_0000
  {
    var a28 := Translate(s.mem, s.cpu.regs.mapping, a, true);
    a28 >= 2 && !(lay.base <= a28 < lay.base + 0x100) && !Starts(a28)
  }

  /** The frames after the next instruction, or nothing if it would break the nesting or leave the page. */
  function Nested(s: State, lay: Layout, frames: seq<Frame>): Option<seq<Frame>>
    requires GoodState(s)
  {
    var op, n := Opcode(s), |frames|;
    if op == JSR then if |AllBytes(frames)| + 2 <= lay.top then Some(frames + [Open(s.cpu.regs.pc)]) else None
    else if op == PHA then if |AllBytes(frames)| + 1 <= lay.top then Some(frames + [Saved(s.cpu.regs.a)]) else None
    else if op == RTS then if n > 0 && frames[n - 1].Open? then Some(frames[..n - 1]) else None
    else if op == PLA then if n > 0 && frames[n - 1].Saved? then Some(frames[..n - 1]) else None
    else if op == LDA then Some(frames)
    else if op == STA then
      if Harmless(s, lay, Operand(s)) then Some(frames) else None
    else None
  }

  /** In the middle of a run that was started with the count at `count`: the frames are on the stack, the
      calls are counted, and nothing has gone wrong. */
  ghost predicate Running(cfg: Config, s: State, lay: Layout, frames: seq<Frame>, count: int) {
    && GoodState(s) && OnStack(s, lay, AllBytes(frames)) && count > 0 && s.cpu.term.rts == count + Calls(frames)
    && !s.cpu.term.done && !s.cpu.stack.overflow && !s.cpu.stack.underflow && !s.cpu.dma
  }

  // ----- one instruction at a time

  lemma CallKeeps(cfg: Config, s: State, lay: Layout, frames: seq<Frame>, count: int, target: nat)
    requires Running(cfg, s, lay, frames, count) && |AllBytes(frames)| + 2 <= lay.top
    ensures Running(cfg, Called(s, target), lay, frames + [Open(s.cpu.regs.pc)], count)
  {
    hide OnStack, Push, AllBytes, Calls;
    var c := WithTerm(s, CountedCall(s.cpu.term));
    var back := s.cpu.regs.pc + 2;
    var b1: byte, b2: byte := back / 0x100 % 0x100, back % 0x100;
    var bytes := AllBytes(frames);
    SameStack(s, c, lay, bytes);
    PushAdds(c, lay, bytes, b1);
    PushAdds(Push(c, b1), lay, bytes + [b1], b2);
    assert bytes + [b1] + [b2] == bytes + FrameBytes(Open(s.cpu.regs.pc));
    SameStack(Push(Push(c, b1), b2), Called(s, target), lay, bytes + [b1] + [b2]);
    FramesNext(frames, Open(s.cpu.regs.pc));
  }

  /** The stack does not depend on anything else. */
  lemma SameStack(s: State, r: State, lay: Layout, bytes: seq<byte>)
    requires GoodState(s) && OnStack(s, lay, bytes) && r.mem == s.mem
    requires r.cpu.regs.flags.e == s.cpu.regs.flags.e && r.cpu.regs.mapping == s.cpu.regs.mapping
    requires r.cpu.stack.sph == s.cpu.stack.sph && r.cpu.stack.spl == s.cpu.stack.spl
    ensures GoodState(r) && OnStack(r, lay, bytes)
  {
  }

  /** A return comes back to the byte after the call. */
  lemma ReturnKeeps(cfg: Config, s: State, lay: Layout, frames: seq<Frame>, count: int)
    requires Running(cfg, s, lay, frames, count) && frames != [] && frames[|frames| - 1].Open?
    ensures Running(cfg, Returned(s), lay, frames[..|frames| - 1], count)
    ensures Returned(s).cpu.regs.pc == (frames[|frames| - 1].call + 2) % 0x1_0000 + 1
  {
    hide OnStack, Popped, Top;
    var rest, call := frames[..|frames| - 1], frames[|frames| - 1].call;
    var bytes, all := AllBytes(rest), AllBytes(frames);
    var c := WithTerm(s, CountedReturn(s.cpu.term));
    SameStack(s, c, lay, all);
    PopTakes(c, lay, all);
    var p1 := Popped(c);
    assert all[..|all| - 1] == bytes + [(call + 2) / 0x100 % 0x100];
    PopTakes(p1, lay, all[..|all| - 1]);
    assert all[..|all| - 1][..|all| - 2] == bytes;
    SameStack(Popped(p1), Returned(s), lay, bytes);
    BothBytes(call + 2);
  }

  lemma BothBytes(a: nat)
    ensures Word(a % 0x100, a / 0x100 % 0x100) == a % 0x1_0000
  {
    var high, low := a / 0x100, a % 0x100;
    ModUnique(a, 0x1_0000, high / 0x100, high % 0x100 * 0x100 + low);
  }

  /** The return that closes the run itself ends it, even where it pops past the top of the stack. */
  lemma LastReturn(cfg: Config, s: State, lay: Layout)
    requires Running(cfg, s, lay, [], 1)
    ensures Returned(s).cpu.term.done && Returned(s).cpu.term.rts == 0 && !Returned(s).cpu.dma
  {
    hide OnStack, Popped;
    PoppedKeeps(WithTerm(s, CountedReturn(s.cpu.term)));
    PoppedKeeps(Popped(WithTerm(s, CountedReturn(s.cpu.term))));
  }

  lemma PoppedKeeps(s: State)
    requires GoodState(s)
    ensures Popped(s).cpu.term == s.cpu.term && Popped(s).cpu.dma == s.cpu.dma
  {
  }

  lemma PushKeeps(cfg: Config, s: State, lay: Layout, frames: seq<Frame>, count: int)
    requires Running(cfg, s, lay, frames, count) && |AllBytes(frames)| + 1 <= lay.top
    ensures Running(cfg, Pushed(s), lay, frames + [Saved(s.cpu.regs.a)], count)
  {
    hide OnStack, Push, AllBytes, Calls;
    var bytes := AllBytes(frames);
    PushAdds(s, lay, bytes, s.cpu.regs.a);
    SameStack(Push(s, s.cpu.regs.a), Pushed(s), lay, bytes + [s.cpu.regs.a]);
    FramesNext(frames, Saved(s.cpu.regs.a));
  }

  /** A pull finds the byte that was pushed. */
  lemma PullKeeps(cfg: Config, s: State, lay: Layout, frames: seq<Frame>, count: int)
    requires Running(cfg, s, lay, frames, count) && frames != [] && frames[|frames| - 1].Saved?
    ensures Running(cfg, Pulled(s), lay, frames[..|frames| - 1], count)
    ensures Pulled(s).cpu.regs.a == frames[|frames| - 1].value && Pulled(s).cpu.regs.pc == s.cpu.regs.pc + 1
  {
    hide OnStack, Popped, Top;
    var rest, all := frames[..|frames| - 1], AllBytes(frames);
    PopTakes(s, lay, all);
    assert all[..|all| - 1] == AllBytes(rest);
    SameStack(Popped(s), Pulled(s), lay, AllBytes(rest));
  }

  lemma StoreKeeps(cfg: Config, s: State, lay: Layout, frames: seq<Frame>, count: int, a: nat)
    requires Running(cfg, s, lay, frames, count) && a < 0x1_0000 && Harmless(s, lay, a)
    ensures Running(cfg, Stored(s, a), lay, frames, count)
  {
    hide Translate, Mapped, Write28, Read28, AllBytes, Calls;
    var bytes, a28 := AllBytes(frames), Translate(s.mem, s.cpu.regs.mapping, a, true);
    var r := Stored(s, a);
    assert r.mem == Write28(s.mem, a28, s.cpu.regs.a);
    PortSame(s.mem, a28, s.cpu.regs.a);
    StackMappedSame(s.mem, r.mem, s.cpu.regs.mapping, lay);
    forall j | 0 <= j < |bytes|
      ensures Read28(r.mem, lay.base + lay.top - j) == bytes[j]
    {
      assert MappedAt(s.mem, s.cpu.regs.mapping, lay, lay.top - j);
      ReadWritten(s.mem, a28, s.cpu.regs.a, lay.base + lay.top - j);
    }
  }

  lemma FetchKeeps(cfg: Config, s: State, lay: Layout, frames: seq<Frame>, count: int)
    requires Running(cfg, s, lay, frames, count)
    ensures Running(cfg, Fetched(s), lay, frames, count)
  {
    SameStack(s, Fetched(s), lay, AllBytes(frames));
  }

  lemma LoadKeeps(cfg: Config, s: State, lay: Layout, frames: seq<Frame>, count: int, value: byte, pc: nat)
    requires Running(cfg, s, lay, frames, count)
    ensures Running(cfg, Jump(WithA(s, value), pc), lay, frames, count)
  {
    SameStack(s, Jump(WithA(s, value), pc), lay, AllBytes(frames));
  }

  /** Every well-nested instruction keeps the run going; returns come back, and pulls get back what was pushed. */
  lemma StepKeeps(cfg: Config, s: State, lay: Layout, frames: seq<Frame>, count: int)
    requires Running(cfg, s, lay, frames, count) && Nested(s, lay, frames).Some? && s.cpu.regs.pc !in cfg.breakpoints
    ensures Ready(cfg, s)
    ensures var (r, more) := Step(cfg, s);
      && more && Running(cfg, r, lay, Nested(s, lay, frames).value, count)
      && (Opcode(s) == RTS ==> r.cpu.regs.pc == (frames[|frames| - 1].call + 2) % 0x1_0000 + 1)
      && (Opcode(s) == PLA ==> r.cpu.regs.a == frames[|frames| - 1].value)
  {
    hide OnStack, Called, Returned, Pushed, Pulled, Stored, AllBytes, Calls, Read16, Harmless;
    var op, f := Opcode(s), Fetched(s);
    FetchKeeps(cfg, s, lay, frames, count);
    if op == JSR {
      CallKeeps(cfg, f, lay, frames, count, Operand(s));
    } else if op == PHA {
      PushKeeps(cfg, f, lay, frames, count);
    } else if op == RTS {
      ReturnKeeps(cfg, f, lay, frames, count);
    } else if op == PLA {
      PullKeeps(cfg, f, lay, frames, count);
    } else if op == LDA {
      LoadKeeps(cfg, f, lay, frames, count, ReadAt(s, s.cpu.regs.pc + 1), s.cpu.regs.pc + 2);
    } else {
      assert Harmless(f, lay, Operand(s)) by { HarmlessFetched(s, lay, Operand(s)); }
      StoreKeeps(cfg, f, lay, frames, count, Operand(s));
    }
  }

  lemma HarmlessFetched(s: State, lay: Layout, a: nat)
    requires GoodState(s) && a < 0x1_0000 && Harmless(s, lay, a)
    ensures Harmless(Fetched(s), lay, a)
  {
  }

  // ----- whole runs

  /** The state and the frames after `n` well-nested steps, or nothing if the nesting breaks before. */
  ghost function Follow(cfg: Config, s: State, lay: Layout, frames: seq<Frame>, n: nat): Option<(State, seq<Frame>)>
    requires GoodState(s)
    decreases n
  {
    if n == 0 then Some((s, frames))
    else if s.cpu.regs.pc in cfg.breakpoints then None
    else
      match Nested(s, lay, frames)
      case None => None
      case Some(next) => Follow(cfg, Step(cfg, s).0, lay, next, n - 1)
  }

  lemma {:induction false} RunKeeps(cfg: Config, s: State, lay: Layout, frames: seq<Frame>, count: int, n: nat)
    requires Running(cfg, s, lay, frames, count) && Follow(cfg, s, lay, frames, n).Some?
    ensures var (r, rest) := Follow(cfg, s, lay, frames, n).value;
      Running(cfg, r, lay, rest, count)
    decreases n
  {
    hide Running, Nested, Step;
    if n > 0 {
      assert GoodState(s) by { RunningGood(cfg, s, lay, frames, count); }
      StepKeeps(cfg, s, lay, frames, count);
      RunKeeps(cfg, Step(cfg, s).0, lay, Nested(s, lay, frames).value, count, n - 1);
    }
  }

  lemma RunningGood(cfg: Config, s: State, lay: Layout, frames: seq<Frame>, count: int)
    requires Running(cfg, s, lay, frames, count)
    ensures GoodState(s) && !s.cpu.term.done && !s.cpu.dma
  {
  }

  /** A call whose body is well nested, up to the return that closes it, resumes after the call, with the stack
      pointer, the stack, and the number of open calls as they were. */
  lemma CallReturns(cfg: Config, s: State, lay: Layout, frames: seq<Frame>, count: int, n: nat, s2: State)
    requires Running(cfg, s, lay, frames, count) && s.cpu.regs.pc !in cfg.breakpoints
    requires Opcode(s) == JSR && |AllBytes(frames)| + 2 <= lay.top
    requires Follow(cfg, Step(cfg, s).0, lay, frames + [Open(s.cpu.regs.pc)], n)
               == Some((s2, frames + [Open(s.cpu.regs.pc)]))
    requires GoodState(s2) && Opcode(s2) == RTS && s2.cpu.regs.pc !in cfg.breakpoints
    ensures var (r, more) := Step(cfg, s2);
      && more && Running(cfg, r, lay, frames, count)
      && r.cpu.stack.spl == s.cpu.stack.spl && r.cpu.term.rts == s.cpu.term.rts
      && r.cpu.regs.pc == (s.cpu.regs.pc + 2) % 0x1_0000 + 1
      && (s.cpu.regs.pc + 3 <= 0x1_0000 ==> r.cpu.regs.pc == s.cpu.regs.pc + 3)
  {
    hide Step, Follow, AllBytes, Calls;
    var called := frames + [Open(s.cpu.regs.pc)];
    StepKeeps(cfg, s, lay, frames, count);
    RunKeeps(cfg, Step(cfg, s).0, lay, called, count, n);
    assert called[..|called| - 1] == frames;
    StepKeeps(cfg, s2, lay, called, count);
  }

  /** There is room for 127 nested calls. */
  lemma {:induction false} FramesFit(frames: seq<Frame>)
    ensures |AllBytes(frames)| <= 2 * |frames|
    ensures |frames| < 127 ==> |AllBytes(frames)| + 2 <= 0xff
  {
    if frames != [] {
      FramesFit(frames[..|frames| - 1]);
    }
  }

  /** A run that was entered with the count at 1 ends at the return that closes it, and not before; runs that are
      stopped for repeating one state more than 65536 times are outside this. */
  lemma {:induction false} RunEnds(cfg: Config, s: State, lay: Layout, frames: seq<Frame>, n: nat, s2: State,
                                  limit: nat)
    requires Running(cfg, s, lay, frames, 1) && n < limit
    requires Follow(cfg, s, lay, frames, n) == Some((s2, []))
    requires GoodState(s2) && Opcode(s2) == RTS && s2.cpu.regs.pc !in cfg.breakpoints
    ensures KnownRun(cfg, s, limit) && RunOf(cfg, s, limit) == End(Execute(s2), false, n + 1 == limit)
    ensures Execute(s2).cpu.term.done && Execute(s2).cpu.term.rts == 0
    decreases n
  {
    hide Nested, Running, Step, Opcode, Execute, KnownRun, RunOf, Known, Ready;
    RunningGood(cfg, s, lay, frames, 1);
    if n == 0 {
      LastStep(cfg, s, lay);
      RunStops(cfg, s, limit, Execute(s));
    } else {
      StepKeeps(cfg, s, lay, frames, 1);
      RunningGood(cfg, Step(cfg, s).0, lay, Nested(s, lay, frames).value, 1);
      RunEnds(cfg, Step(cfg, s).0, lay, Nested(s, lay, frames).value, n - 1, s2, limit - 1);
      RunGoesOn(cfg, s, limit, Step(cfg, s).0);
    }
  }

  lemma RunStops(cfg: Config, s: State, limit: nat, last: State)
    requires GoodState(s) && limit > 0 && !s.cpu.term.done && Ready(cfg, s)
    requires Step(cfg, s) == (last, false) && !last.cpu.dma
    ensures KnownRun(cfg, s, limit) && RunOf(cfg, s, limit) == End(last, false, limit == 1)
  {
    hide Step, Ready;
  }

  lemma RunGoesOn(cfg: Config, s: State, limit: nat, next: State)
    requires GoodState(s) && GoodState(next) && limit > 0 && !s.cpu.term.done && Ready(cfg, s)
    requires Step(cfg, s) == (next, true) && !next.cpu.dma && KnownRun(cfg, next, limit - 1)
    ensures KnownRun(cfg, s, limit) && RunOf(cfg, s, limit) == RunOf(cfg, next, limit - 1)
  {
    hide Step, Ready;
  }

  /** A routine entered with the E flag set and the count at 1 is such a run, with an empty stack. */
  lemma EnteredRuns(cfg: Config, s: State, addr: nat, lay: Layout)
    requires GoodState(s) && s.cpu.regs.flags.e && s.cpu.term.rts == 1 && !s.cpu.term.done && !s.cpu.dma
    requires lay.page == Entered(s, addr).cpu.stack.sph && lay.top == 0xff
    requires StackMapped(s.mem, s.cpu.regs.mapping, lay)
    ensures Running(cfg, Entered(s, addr), lay, [], 1)
  {
  }

  lemma LastStep(cfg: Config, s: State, lay: Layout)
    requires Running(cfg, s, lay, [], 1) && Opcode(s) == RTS && s.cpu.regs.pc !in cfg.breakpoints
    ensures Ready(cfg, s) && Known(Opcode(s)) && Step(cfg, s) == (Execute(s), false)
    ensures Execute(s).cpu.term.done && Execute(s).cpu.term.rts == 0 && !Execute(s).cpu.dma
  {
    hide Returned;
    FetchKeeps(cfg, s, lay, [], 1);
    LastReturn(cfg, Fetched(s), lay);
  }
}
