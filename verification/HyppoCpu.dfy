/** The emulated CPU: its stack, its calls and returns, and the conditions that end a run. */
module HyppoCpu {
  import opened Bytes
  import opened Bits
  import opened HyppoMemory

  const BRK: byte := 0x00
  const JSR: byte := 0x20
  const RTS: byte := 0x60
  const PHA: byte := 0x48
  const PLA: byte := 0x68
  const LDA: byte := 0xa9
  const STA: byte := 0x8d

  datatype Flags = Flags(e: bool, n: bool, z: bool)

  datatype Regs = Regs(pc: nat, a: byte, b: byte, flags: Flags, mapping: Mapping, inHyper: bool)

  /** The stack pointer, and whether it has wrapped. */
  datatype Stack = Stack(sph: byte, spl: byte, overflow: bool, underflow: bool)

  /** The conditions under which a run ends: `rts` counts calls that have not returned, if not 0. */
  datatype Term = Term(rts: int, done: bool, error: bool, brk: bool)

  /** `dma` is set once a write has started a DMA job; what the job does is not part of any state. */
  datatype Cpu = Cpu(regs: Regs, stack: Stack, term: Term, dma: bool)

  datatype State = State(cpu: Cpu, mem: Memory)

  /** What the run is told beforehand. */
  datatype Config = Config(breakpoints: set<nat>, failOnOverflow: bool, failOnUnderflow: bool)

  predicate GoodState(s: State) {
    GoodMemory(s.mem)
  }

  function Read16(m: Memory, mapping: Mapping, a: nat): byte
    requires GoodMemory(m)
  {
    if a < 0x1_0000 then Read28(m, Translate(m, mapping, a, false)) else UNMAPPED
  }

  function ReadAt(s: State, a: nat): byte
    requires GoodState(s)
  {
    Read16(s.mem, s.cpu.regs.mapping, a)
  }

  function Opcode(s: State): byte
    requires GoodState(s)
  {
    ReadAt(s, s.cpu.regs.pc)
  }

  function Word(low: nat, high: nat): nat {
    low + 0x100 * high
  }

  function WithError(s: State, error: bool): State {
    s.(cpu := s.cpu.(term := s.cpu.term.(error := s.cpu.term.error || error)))
  }

  function WriteAt(s: State, a: nat, value: byte): (r: State)
    requires GoodState(s) && a < 0x1_0000
    ensures GoodState(r)
  {
    var a28 := Translate(s.mem, s.cpu.regs.mapping, a, true);
    var w := WithError(s, !Mapped(a28));
    State(w.cpu.(dma := w.cpu.dma || Starts(a28)), Write28(s.mem, a28, value))
  }

  // ----- the stack

  function Sp(k: Stack): (sp: nat)
    ensures sp < 0x1_0000
  {
    Word(k.spl, k.sph)
  }

  function WithSp(k: Stack, sp: nat): (r: Stack)
    requires sp < 0x1_0000
    ensures Sp(r) == sp
  {
    k.(sph := sp / 0x100, spl := sp % 0x100)
  }

  /** The stack pointer one lower; with the E flag set it stays in its page. */
  function Down(k: Stack, e: bool): Stack {
    if e then
      var next := (k.spl + 0xff) % 0x100;
      k.(spl := next, overflow := k.overflow || next > k.spl)
    else
      var next := (Sp(k) + 0xffff) % 0x1_0000;
      WithSp(k, next).(overflow := k.overflow || next > Sp(k))
  }

  function Up(k: Stack, e: bool): Stack {
    if e then
      var next := (k.spl + 1) % 0x100;
      k.(spl := next, underflow := k.underflow || next < k.spl)
    else
      var next := (Sp(k) + 1) % 0x1_0000;
      WithSp(k, next).(underflow := k.underflow || next < Sp(k))
  }

  function Push(s: State, value: byte): (r: State)
    requires GoodState(s)
    ensures GoodState(r)
  {
    var w := WriteAt(s, Sp(s.cpu.stack), value);
    w.(cpu := w.cpu.(stack := Down(w.cpu.stack, w.cpu.regs.flags.e)))
  }

  function Popped(s: State): (r: State)
    requires GoodState(s)
    ensures GoodState(r)
  {
    s.(cpu := s.cpu.(stack := Up(s.cpu.stack, s.cpu.regs.flags.e)))
  }

  function Top(s: State): byte
    requires GoodState(s)
  {
    ReadAt(s, Sp(s.cpu.stack))
  }

  // ----- instructions

  predicate Known(op: byte) {
    op in {BRK, JSR, RTS, PHA, PLA, LDA, STA}
  }

  function Operand(s: State): nat
    requires GoodState(s)
  {
    Word(ReadAt(s, s.cpu.regs.pc + 1), ReadAt(s, s.cpu.regs.pc + 2))
  }

  /** The six bytes of an instruction are always fetched; past the end of memory that is an error. */
  function Fetched(s: State): (r: State)
    requires GoodState(s)
    ensures GoodState(r)
  {
    WithError(s, s.cpu.regs.pc + 5 > 0xffff)
  }

  function Jump(s: State, pc: nat): (r: State)
    requires GoodState(s)
    ensures GoodState(r)
  {
    s.(cpu := s.cpu.(regs := s.cpu.regs.(pc := pc)))
  }

  function Loaded(r: Regs, value: byte): Regs {
    r.(a := value, flags := r.flags.(n := value >= 0x80, z := value == 0))
  }

  function WithA(s: State, value: byte): (r: State)
    requires GoodState(s)
    ensures GoodState(r)
  {
    s.(cpu := s.cpu.(regs := Loaded(s.cpu.regs, value)))
  }

  function CountedCall(t: Term): Term {
    t.(rts := if t.rts != 0 then t.rts + 1 else 0)
  }

  /** The return that brings the count to 0 ends the run. */
  function CountedReturn(t: Term): Term {
    t.(rts := if t.rts != 0 then t.rts - 1 else 0, done := t.done || t.rts == 1)
  }

  function WithTerm(s: State, t: Term): (r: State)
    requires GoodState(s)
    ensures GoodState(r)
  {
    s.(cpu := s.cpu.(term := t))
  }

  /** A call: counted, if calls are counted, and the address of its last byte pushed, high byte first. */
  function Called(s: State, target: nat): (r: State)
    requires GoodState(s)
    ensures GoodState(r)
  {
    var back := s.cpu.regs.pc + 2;
    var c := WithTerm(s, CountedCall(s.cpu.term));
    Jump(Push(Push(c, back / 0x100 % 0x100), back % 0x100), target)
  }

  function Returned(s: State): (r: State)
    requires GoodState(s)
    ensures GoodState(r)
  {
    var p1 := Popped(WithTerm(s, CountedReturn(s.cpu.term)));
    var p2 := Popped(p1);
    Jump(p2, Word(Top(p1), Top(p2)) + 1)
  }

  function Pushed(s: State): (r: State)
    requires GoodState(s)
    ensures GoodState(r)
  {
    Jump(Push(s, s.cpu.regs.a), s.cpu.regs.pc + 1)
  }

  function Pulled(s: State): (r: State)
    requires GoodState(s)
    ensures GoodState(r)
  {
    var p := Popped(s);
    Jump(WithA(p, Top(p)), s.cpu.regs.pc + 1)
  }

  function Stored(s: State, a: nat): (r: State)
    requires GoodState(s) && a < 0x1_0000
    ensures GoodState(r)
  {
    Jump(WriteAt(s, a, s.cpu.regs.a), s.cpu.regs.pc + 3)
  }

  function Broken(t: Term): Term {
    t.(error := true, brk := true, done := true)
  }

  /** The state after an instruction; only those that are known are executed. */
  function Execute(s: State): (r: State)
    requires GoodState(s)
    ensures GoodState(r)
  {
    var op, f := Opcode(s), Fetched(s);
    if op == BRK then WithTerm(f, Broken(f.cpu.term))
    else if op == JSR then Called(f, Operand(s))
    else if op == RTS then Returned(f)
    else if op == PHA then Pushed(f)
    else if op == PLA then Pulled(f)
    else if op == LDA then Jump(WithA(f, ReadAt(s, s.cpu.regs.pc + 1)), s.cpu.regs.pc + 2)
    else if op == STA then Stored(f, Operand(s))
    else f
  }

  function WithStack(s: State, k: Stack): (r: State)
    requires GoodState(s)
    ensures GoodState(r)
  {
    s.(cpu := s.cpu.(stack := k))
  }

  /** The next step is at a breakpoint, or executes an instruction that is modelled. */
  predicate Ready(cfg: Config, s: State)
    requires GoodState(s)
  {
    match s
    case State(cpu, _) => cpu.regs.pc in cfg.breakpoints || Known(Opcode(s))
  }

  /** One step of a run: the state after it, and whether the run goes on. */
  function Step(cfg: Config, s: State): (r: (State, bool))
    requires GoodState(s)
    ensures GoodState(r.0)
  {
    if s.cpu.regs.pc in cfg.breakpoints then (WithTerm(s, s.cpu.term.(done := true)), false)
    else
      var s1 := Execute(s);
      if s1.cpu.term.done then (s1, false)
      else if s1.cpu.stack.underflow && cfg.failOnUnderflow then (WithError(s1, true), false)
      else
        var s2 := WithStack(s1, s1.cpu.stack.(underflow := false));
        if s2.cpu.stack.overflow && cfg.failOnOverflow then (WithError(s2, true), false)
        else (WithStack(s2, s2.cpu.stack.(overflow := false)), true)
  }

  // ----- what the instructions do

  /** With the E flag the stack pointer moves by one in its page, and notes when it wraps. */
  lemma StackInPage(k: Stack)
    ensures var r := Down(k, true);
      && r.sph == k.sph && r.spl == (if k.spl == 0 then 255 else k.spl - 1)
      && r.overflow == (k.overflow || k.spl == 0) && r.underflow == k.underflow
    ensures var r := Up(k, true);
      && r.sph == k.sph && r.spl == (if k.spl == 255 then 0 else k.spl + 1)
      && r.underflow == (k.underflow || k.spl == 255) && r.overflow == k.overflow
  {
  }

  /** Without it the stack pointer moves through all of memory. */
  lemma StackThrough(k: Stack)
    ensures Sp(k) == k.spl + 256 * k.sph as nat
    ensures var r := Down(k, false);
      && Sp(r) == (if Sp(k) == 0 then 65535 else Sp(k) - 1)
      && r.overflow == (k.overflow || Sp(k) == 0) && r.underflow == k.underflow
    ensures var r := Up(k, false);
      && Sp(r) == (if Sp(k) == 65535 then 0 else Sp(k) + 1)
      && r.underflow == (k.underflow || Sp(k) == 65535) && r.overflow == k.overflow
  {
    SpIs(k);
    ThroughDown(k);
    ThroughUp(k);
  }

  lemma ThroughDown(k: Stack)
    ensures var r := Down(k, false);
      && Sp(r) == (if Sp(k) == 0 then 65535 else Sp(k) - 1)
      && r.overflow == (k.overflow || Sp(k) == 0) && r.underflow == k.underflow
  {
    hide Sp, WithSp;
    var next := if Sp(k) == 0 then 65535 else Sp(k) - 1;
    assert (Sp(k) + 0xffff) % 0x1_0000 == next;
    WithSpKeeps(k, next);
    SpAside(WithSp(k, next), k.overflow || next > Sp(k), k.underflow);
  }

  lemma ThroughUp(k: Stack)
    ensures var r := Up(k, false);
      && Sp(r) == (if Sp(k) == 65535 then 0 else Sp(k) + 1)
      && r.underflow == (k.underflow || Sp(k) == 65535) && r.overflow == k.overflow
  {
    hide Sp, WithSp;
    var next := if Sp(k) == 65535 then 0 else Sp(k) + 1;
    assert (Sp(k) + 1) % 0x1_0000 == next;
    WithSpKeeps(k, next);
    SpAside(WithSp(k, next), k.overflow, k.underflow || next < Sp(k));
  }

  lemma WithSpKeeps(k: Stack, sp: nat)
    requires sp < 0x1_0000
    ensures WithSp(k, sp).overflow == k.overflow && WithSp(k, sp).underflow == k.underflow
  {
  }

  lemma SpIs(k: Stack)
    ensures Sp(k) == k.spl + 256 * k.sph as nat
  {
  }

  lemma SpAside(k: Stack, overflow: bool, underflow: bool)
    ensures Sp(k.(overflow := overflow)) == Sp(k) && Sp(k.(underflow := underflow)) == Sp(k)
  {
  }

  /** The memory a store changes: one address, as the banks have it for writing. */
  predicate Writes(s: State, r: State, a: nat, value: byte)
    requires GoodState(s) && a < 0x1_0000
  {
    r.mem == Write28(s.mem, Translate(s.mem, s.cpu.regs.mapping, a, true), value)
  }

  /** A store where there is no memory is an error, and so is an instruction at the end of memory; a store to a
      register that starts a DMA job is noted. */
  predicate Notes(s: State, r: State, a: nat)
    requires GoodState(s) && a < 0x1_0000
  {
    var a28 := Translate(s.mem, s.cpu.regs.mapping, a, true);
    && r.cpu.term == s.cpu.term.(error := s.cpu.term.error || !Mapped(a28) || s.cpu.regs.pc + 5 >= 0x1_0000)
    && r.cpu.dma == (s.cpu.dma || Starts(a28))
  }

  /** A load takes the byte behind its opcode, a store the address behind it, low byte first, and so does a call. */
  lemma LoadsAndStores(s: State)
    requires GoodState(s)
    ensures var r, regs := Execute(s), s.cpu.regs;
      var low, high := ReadAt(s, regs.pc + 1), ReadAt(s, regs.pc + 2);
      && (Opcode(s) == 0xa9 ==>
            && r.cpu.regs == regs.(pc := regs.pc + 2, a := low, flags := regs.flags.(n := low >= 128, z := low == 0))
            && r.mem == s.mem && r.cpu.stack == s.cpu.stack)
      && (Opcode(s) == 0x8d ==>
            && r.cpu.regs == regs.(pc := regs.pc + 3) && Writes(s, r, low + 256 * high as nat, regs.a)
            && r.cpu.stack == s.cpu.stack && Notes(s, r, low + 256 * high as nat))
      && (Opcode(s) == 0x20 ==> r.cpu.regs == regs.(pc := low + 256 * high as nat))
  {
    hide ReadAt, Write28, Translate, Down;
  }

  /** What is pushed and pulled, and where. */
  lemma PushesAndPulls(s: State)
    requires GoodState(s)
    ensures var r, regs, k := Execute(s), s.cpu.regs, s.cpu.stack;
      && (Opcode(s) == 0x48 ==>
            && r.cpu.regs == regs.(pc := regs.pc + 1) && Writes(s, r, k.spl + 256 * k.sph as nat, regs.a)
            && r.cpu.stack == Down(k, regs.flags.e))
      && (Opcode(s) == 0x68 ==>
            var up := Up(k, regs.flags.e);
            var top := ReadAt(s, up.spl + 256 * up.sph as nat);
            && r.cpu.regs == regs.(pc := regs.pc + 1, a := top, flags := regs.flags.(n := top >= 128, z := top == 0))
            && r.mem == s.mem && r.cpu.stack == up)
      && (Opcode(s) == 0x00 ==> r.cpu.term.brk && r.cpu.term.error && r.cpu.term.done && r.cpu.regs == regs)
  {
    hide Read16, Write28, Translate, Down, Up;
  }

  /** The order of the tests that end a step. */
  lemma StepEnds(cfg: Config, s: State)
    requires GoodState(s)
    ensures var (r, more) := Step(cfg, s); var x := Execute(s);
      if s.cpu.regs.pc in cfg.breakpoints then
        !more && r.cpu.term.done && r.mem == s.mem && r.cpu.regs == s.cpu.regs && r.cpu.stack == s.cpu.stack
      else
        && r.mem == x.mem && r.cpu.regs == x.cpu.regs && r.cpu.term.done == x.cpu.term.done
        && (more <==> !x.cpu.term.done && !(x.cpu.stack.underflow && cfg.failOnUnderflow)
                      && !(x.cpu.stack.overflow && cfg.failOnOverflow))
        && (!more && !x.cpu.term.done ==> r.cpu.term.error)
        && (more ==> !r.cpu.stack.overflow && !r.cpu.stack.underflow && r.cpu.term == x.cpu.term)
  {
    hide Execute;
  }

  // ----- runs

  /** All instructions of a run are among those modelled, and none starts a DMA job. */
  predicate KnownRun(cfg: Config, s: State, limit: nat)
    requires GoodState(s)
    decreases limit
  {
    if limit == 0 || s.cpu.term.done then true
    else if !Ready(cfg, s) then false
    else
      var (next, more) := Step(cfg, s);
      !next.cpu.dma && (more ==> KnownRun(cfg, next, limit - 1))
  }

  /** How a run ends: the state, whether it was left by a test at the top of the loop, and whether the log is full. */
  datatype End = End(state: State, ok: bool, full: bool)

  /** A run of at most `limit` steps. */
  function RunOf(cfg: Config, s: State, limit: nat): (r: End)
    requires GoodState(s)
    ensures GoodState(r.state)
    decreases limit
  {
    if limit == 0 || s.cpu.term.done then End(s, true, limit == 0)
    else
      var (next, more) := Step(cfg, s);
      if more then RunOf(cfg, next, limit - 1) else End(next, false, limit == 1)
  }

  function Cleared(k: Stack): Stack {
    k.(overflow := false, underflow := false)
  }

  /** The state a routine is entered in: in the hypervisor's part of memory it gets the hypervisor's stack. */
  function Entered(s: State, addr: nat): (r: State)
    requires GoodState(s)
    ensures GoodState(r)
  {
    var hyper := 0x8000 <= addr < 0xc000;
    s.(cpu := s.cpu.(regs := s.cpu.regs.(pc := addr, b := if hyper then 0xbf else 0x00, inHyper := hyper),
                     stack := Stack(if hyper then 0xbe else 0x01, 0xff, false, false)))
  }

  /** What calling a routine comes to: a full log is an error, and a break is a failure. */
  function CallOf(cfg: Config, s: State, addr: nat, limit: nat): (r: (State, bool))
    requires GoodState(s)
  {
    var end := RunOf(cfg, Entered(s, addr), limit);
    if !end.ok then (end.state, false)
    else if end.full then (WithError(end.state, true), false)
    else (end.state, !end.state.cpu.term.brk)
  }

  /** Routines of the hypervisor get its stack and base page, all others those of the user. */
  lemma EnteredIs(s: State, addr: nat)
    requires GoodState(s)
    ensures var r := Entered(s, addr);
      && r.mem == s.mem && r.cpu.regs.pc == addr && r.cpu.stack.spl == 0xff
      && !r.cpu.stack.overflow && !r.cpu.stack.underflow && r.cpu.term == s.cpu.term
      && (r.cpu.regs.inHyper <==> 0x8000 <= addr < 0xc000)
      && r.cpu.stack.sph == (if r.cpu.regs.inHyper then 0xbe else 0x01)
      && r.cpu.regs.b == (if r.cpu.regs.inHyper then 0xbf else 0x00)
  {
  }

  /** A routine that begins with a break fails, and one that fills the log is an error. */
  lemma CallFails(cfg: Config, s: State, addr: nat, limit: nat)
    requires GoodState(s) && !s.cpu.term.done && limit > 0
    ensures Opcode(Entered(s, addr)) == 0x00 && addr !in cfg.breakpoints ==>
              var (r, ok) := CallOf(cfg, s, addr, limit); !ok && r.cpu.term.brk && r.cpu.term.error
    ensures var end := RunOf(cfg, Entered(s, addr), limit);
      end.ok && !end.state.cpu.term.done ==> var (r, ok) := CallOf(cfg, s, addr, limit); !ok && r.cpu.term.error
  {
    hide Execute;
    EnteredIs(s, addr);
    PushesAndPulls(Entered(s, addr));
    UnfinishedFills(cfg, Entered(s, addr), limit);
  }

  /** A run that ends at the top of its loop without being done has filled the log. */
  lemma {:induction false} UnfinishedFills(cfg: Config, s: State, limit: nat)
    requires GoodState(s)
    ensures var end := RunOf(cfg, s, limit); end.ok && !end.state.cpu.term.done ==> end.full
    decreases limit
  {
    hide Step;
    if limit > 0 && !s.cpu.term.done {
      var (next, more) := Step(cfg, s);
      if more {
        UnfinishedFills(cfg, next, limit - 1);
      }
    }
  }

  class Machine {
    const ram: Ram
    const cfg: Config
    var regs: Regs
    var stack: Stack
    var term: Term
    var dma: bool

    constructor (ram: Ram, cfg: Config, cpu: Cpu)
      ensures this.ram == ram && this.cfg == cfg && cpu == Cpu(regs, stack, term, dma)
    {
      this.ram, this.cfg, regs, stack, term, dma := ram, cfg, cpu.regs, cpu.stack, cpu.term, cpu.dma;
    }

    ghost function View(): (s: State)
      reads this, ram.chip, ram.hyppo, ram.colour, ram.io
      requires ram.Shape()
      ensures GoodState(s)
    {
      State(Cpu(regs, stack, term, dma), ram.View())
    }

    method ReadMemory(a: nat) returns (value: byte)
      requires ram.Shape()
      modifies this`term
      ensures value == ReadAt(old(View()), a)
      ensures View() == WithError(old(View()), a > 0xffff)
    {
      if a > 0xffff {
        term := term.(error := true);
        return UNMAPPED;
      }
      var a28 := ram.AddressTo28(regs.mapping, a, false);
      value := ram.Read(a28);
    }

    method WriteMemory(a: nat, value: byte)
      requires ram.Shape() && a < 0x1_0000
      modifies this`term, this`dma, ram.chip, ram.hyppo, ram.colour, ram.io
      ensures View() == WriteAt(old(View()), a, value)
    {
      hide Translate, Write28, ListIn;
      var a28 := ram.AddressTo28(regs.mapping, a, true);
      var effect := ram.Write(a28, value);
      if effect.NoMemory? {
        term := term.(error := true);
      } else if effect.DmaStarted? {
        dma := true;
      }
    }

    // ----- the stack

    method StackDown()
      modifies this`stack
      ensures stack == Down(old(stack), regs.flags.e)
    {
      hide Sp;
      if regs.flags.e {
        var newSpl: byte := (stack.spl + 0xff) % 0x100;
        if newSpl > stack.spl {
          stack := stack.(overflow := true);
        }
        stack := stack.(spl := newSpl);
      } else {
        var newSp := (Sp(stack) + 0xffff) % 0x1_0000;
        var wrapped := newSp > Sp(stack);
        stack := WithSp(stack, newSp);
        if wrapped {
          stack := stack.(overflow := true);
        }
      }
    }

    method StackPush(value: byte)
      requires ram.Shape()
      modifies this`stack, this`term, this`dma, ram.chip, ram.hyppo, ram.colour, ram.io
      ensures View() == Push(old(View()), value)
    {
      hide WriteAt, Down, Sp;
      WriteMemory(Sp(stack), value);
      StackDown();
    }

    method StackUp()
      modifies this`stack
      ensures stack == Up(old(stack), regs.flags.e)
    {
      hide Sp;
      if regs.flags.e {
        var newSpl: byte := (stack.spl + 1) % 0x100;
        if newSpl < stack.spl {
          stack := stack.(underflow := true);
        }
        stack := stack.(spl := newSpl);
      } else {
        var newSp := (Sp(stack) + 1) % 0x1_0000;
        var wrapped := newSp < Sp(stack);
        stack := WithSp(stack, newSp);
        if wrapped {
          stack := stack.(underflow := true);
        }
      }
    }

    method StackPop() returns (value: byte)
      requires ram.Shape()
      modifies this`stack, this`term
      ensures View() == Popped(old(View())) && value == Top(Popped(old(View())))
    {
      hide Read16, Up, Sp;
      StackUp();
      value := ReadMemory(Sp(stack));
    }

    // ----- instructions

    /** Fetches six bytes, whatever the instruction needs. */
    method Fetch() returns (bytes: seq<byte>)
      requires ram.Shape()
      modifies this`term
      ensures |bytes| == 6 && forall j | 0 <= j < 6 :: bytes[j] == ReadAt(old(View()), old(regs.pc) + j)
      ensures View() == Fetched(old(View()))
    {
      hide Read16;
      bytes := [];
      for i := 0 to 6
        invariant |bytes| == i && forall j | 0 <= j < i :: bytes[j] == ReadAt(old(View()), old(regs.pc) + j)
        invariant View() == WithError(old(View()), i > 0 && regs.pc + i - 1 > 0xffff)
      {
        var b := ReadMemory(regs.pc + i);
        bytes := bytes + [b];
      }
    }

    method Call(target: nat)
      requires ram.Shape()
      modifies this, ram.chip, ram.hyppo, ram.colour, ram.io
      ensures View() == Called(old(View()), target)
    {
      hide Push;
      var back := regs.pc + 2;
      if term.rts != 0 {
        term := term.(rts := term.rts + 1);
      }
      StackPush(back / 0x100 % 0x100);
      StackPush(back % 0x100);
      regs := regs.(pc := target);
    }

    method CountReturn()
      modifies this`term
      ensures term == CountedReturn(old(term))
    {
      if term.rts != 0 {
        term := term.(rts := term.rts - 1);
        if term.rts == 0 {
          term := term.(done := true);
        }
      }
    }

    method Return()
      requires ram.Shape()
      modifies this
      ensures View() == Returned(old(View()))
    {
      hide Popped, Top, CountedReturn;
      CountReturn();
      var low := StackPop();
      var high := StackPop();
      regs := regs.(pc := Word(low, high) + 1);
    }

    method PushA()
      requires ram.Shape()
      modifies this, ram.chip, ram.hyppo, ram.colour, ram.io
      ensures View() == Pushed(old(View()))
    {
      hide Push;
      var pc := regs.pc;
      StackPush(regs.a);
      regs := regs.(pc := pc + 1);
    }

    method PullA()
      requires ram.Shape()
      modifies this
      ensures View() == Pulled(old(View()))
    {
      hide Top, Up;
      var v := StackPop();
      regs := Loaded(regs, v);
      regs := regs.(pc := regs.pc + 1);
    }

    method StoreA(a: nat)
      requires ram.Shape() && a < 0x1_0000
      modifies this, ram.chip, ram.hyppo, ram.colour, ram.io
      ensures View() == Stored(old(View()), a)
    {
      hide WriteAt;
      var pc := regs.pc;
      WriteMemory(a, regs.a);
      regs := regs.(pc := pc + 3);
    }

    /** Executes one instruction. */
    method ExecuteInstruction()
      requires ram.Shape() && Known(Opcode(View()))
      modifies this, ram.chip, ram.hyppo, ram.colour, ram.io
      ensures View() == Execute(old(View()))
    {
      hide Read16, Called, Returned, Pushed, Pulled, Stored;
      var bytes := Fetch();
      if bytes[0] == BRK {
        term := term.(error := true, brk := true, done := true);
      } else if bytes[0] == JSR {
        Call(Word(bytes[1], bytes[2]));
      } else if bytes[0] == RTS {
        Return();
      } else if bytes[0] == PHA {
        PushA();
      } else if bytes[0] == PLA {
        PullA();
      } else if bytes[0] == LDA {
        regs := Loaded(regs, bytes[1]);
        regs := regs.(pc := regs.pc + 2);
      } else {
        StoreA(Word(bytes[1], bytes[2]));
      }
    }

    // ----- runs

    /** One step; the run stops at a breakpoint, at its end, and at a stack error that is to stop it. */
    method CpuStep() returns (more: bool)
      requires ram.Shape() && Ready(cfg, View())
      modifies this, ram.chip, ram.hyppo, ram.colour, ram.io
      ensures (View(), more) == Step(cfg, old(View()))
    {
      hide Execute, Opcode;
      if regs.pc in cfg.breakpoints {
        term := term.(done := true);
        return false;
      }
      ExecuteInstruction();
      if term.done {
        return false;
      }
      if stack.underflow {
        if cfg.failOnUnderflow {
          term := term.(error := true);
          return false;
        }
        stack := stack.(underflow := false);
      }
      if stack.overflow {
        if cfg.failOnOverflow {
          term := term.(error := true);
          return false;
        }
        stack := stack.(overflow := false);
      }
      return true;
    }

    /** Runs until the end of the run, or until the log has `limit` entries; a run that repeats one state more
        than 65536 times is stopped before, and is not covered here. */
    method CpuRun(limit: nat) returns (ok: bool, full: bool)
      requires ram.Shape() && KnownRun(cfg, WithStack(View(), Cleared(stack)), limit)
      modifies this, ram.chip, ram.hyppo, ram.colour, ram.io
      ensures End(View(), ok, full) == RunOf(cfg, WithStack(old(View()), Cleared(old(stack))), limit)
    {
      hide Step;
      stack := stack.(overflow := false);
      stack := stack.(underflow := false);
      ghost var start := View();
      var length := 0;
      while length < limit
        invariant 0 <= length <= limit && KnownRun(cfg, View(), limit - length)
        invariant RunOf(cfg, View(), limit - length) == RunOf(cfg, start, limit)
      {
        if term.done {
          break;
        }
        var more := CpuStep();
        length := length + 1;
        if !more {
          return false, length == limit;
        }
      }
      return true, length == limit;
    }

    /** Calls a routine. */
    method CallRoutine(addr: nat, limit: nat) returns (ok: bool)
      requires ram.Shape() && KnownRun(cfg, Entered(View(), addr), limit)
      modifies this, ram.chip, ram.hyppo, ram.colour, ram.io
      ensures (View(), ok) == CallOf(cfg, old(View()), addr, limit)
    {
      hide RunOf, KnownRun;
      stack := stack.(spl := 0xff);
      if addr >= 0x8000 && addr < 0xc000 {
        regs := regs.(b := 0xbf, inHyper := true);
        stack := stack.(sph := 0xbe);
      } else {
        regs := regs.(b := 0x00, inHyper := false);
        stack := stack.(sph := 0x01);
      }
      regs := regs.(pc := addr);
      assert WithStack(View(), Cleared(stack)) == Entered(old(View()), addr);
      var full;
      ok, full := CpuRun(limit);
      if !ok {
        return false;
      }
      if full {
        term := term.(error := true);
        return false;
      }
      if term.brk {
        return false;
      }
      return true;
    }
  }
}
