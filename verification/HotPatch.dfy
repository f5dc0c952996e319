/** Hot patching: carrying changed variables from an old memory context over to a new one, by their labels. */
module HotPatch {
  import opened Bytes

  const MEMORY := 0x1_0000

  /** The labels of a context, in the order they were loaded. */
  datatype Labels = Labels(names: seq<string>, addresses: seq<nat>)

  predicate GoodLabels(l: Labels) {
    |l.names| == |l.addresses|
  }

  function Lower(c: char): char {
    if 'A' <= c <= 'Z' then c - 'A' + 'a' else c
  }

  function Folded(name: string): (r: string)
    ensures |r| == |name|
  {
    seq(|name|, i requires 0 <= i < |name| => Lower(name[i]))
  }

  predicate SameName(a: string, b: string) {
    Folded(a) == Folded(b)
  }

  /** Among the first `n` labels, the one with the highest address that is not above `addr`, the last if several. */
  function NearestOf(l: Labels, addr: nat, n: nat): (r: int)
    requires GoodLabels(l) && n <= |l.names|
    ensures -1 <= r < n
    ensures r == -1 ==> forall i | 0 <= i < n :: l.addresses[i] > addr
    ensures r >= 0 ==> l.addresses[r] <= addr
    ensures r >= 0 ==> forall i | 0 <= i < n && l.addresses[i] <= addr ::
                        l.addresses[i] < l.addresses[r] || (l.addresses[i] == l.addresses[r] && i <= r)
  {
    if n == 0 then -1
    else
      var best := NearestOf(l, addr, n - 1);
      if l.addresses[n - 1] <= addr && (best == -1 || l.addresses[n - 1] >= l.addresses[best]) then n - 1 else best
  }

  function Nearest(l: Labels, addr: nat): (r: int)
    requires GoodLabels(l)
    ensures -1 <= r < |l.names|
    ensures r >= 0 ==> l.addresses[r] <= addr
  {
    NearestOf(l, addr, |l.names|)
  }

  /** The first label with a name, from label `from` on. */
  function FindFrom(l: Labels, name: string, from: nat): (r: int)
    requires GoodLabels(l) && from <= |l.names|
    ensures r == -1 || from <= r < |l.names|
    ensures r == -1 ==> forall i | from <= i < |l.names| :: !SameName(l.names[i], name)
    ensures r >= 0 ==> SameName(l.names[r], name) && forall i | from <= i < r :: !SameName(l.names[i], name)
    decreases |l.names| - from
  {
    if from == |l.names| then -1
    else if SameName(l.names[from], name) then from
    else FindFrom(l, name, from + 1)
  }

  function Find(l: Labels, name: string): (r: int)
    requires GoodLabels(l)
    ensures -1 <= r < |l.names|
    ensures r >= 0 ==> SameName(l.names[r], name)
  {
    FindFrom(l, name, 0)
  }

  /** What a context knows about each byte of memory. */
  datatype Memory = Memory(isCode: seq<bool>, initialised: seq<bool>, initial: seq<byte>, current: seq<byte>,
                           modified: seq<bool>)

  predicate GoodMemory(m: Memory) {
    |m.isCode| == |m.initialised| == |m.initial| == |m.current| == |m.modified| == MEMORY
  }

  /** Whether a byte is a variable that no longer holds its initial value. */
  predicate Changed(m: Memory, i: nat)
    requires GoodMemory(m) && i < MEMORY
  {
    m.initialised[i] && m.modified[i] && !m.isCode[i]
  }

  /** Where an address goes: as far past the label of the same name as it was past its own, if that
      label is still the nearest one there. */
  function Translated(was: Labels, now: Labels, i: nat): Option<nat>
    requires GoodLabels(was) && GoodLabels(now)
  {
    var o := Nearest(was, i);
    if o < 0 then None
    else
      var n := Find(now, was.names[o]);
      if n < 0 then None
      else
        var to := now.addresses[n] + (i - was.addresses[o]);
        if Nearest(now, to) == n then Some(to) else None
  }

  // ----- what a translation is, by the labels alone

  /** Letter by letter the same, but for the case of the letters from A to Z. */
  predicate SameLetter(a: char, b: char) {
    || a == b
    || ('A' <= a <= 'Z' && b as int == a as int + 32)
    || ('A' <= b <= 'Z' && a as int == b as int + 32)
  }

  lemma SameNameIs(a: string, b: string)
    ensures SameName(a, b) <==> |a| == |b| && forall i | 0 <= i < |a| :: SameLetter(a[i], b[i])
  {
    if SameName(a, b) {
      forall i | 0 <= i < |a|
        ensures SameLetter(a[i], b[i])
      {
        assert Folded(a)[i] == Folded(b)[i];
      }
    }
  }

  /** Label `k` has the highest address that is not above `a`, and is the last of those that have. */
  predicate NearestTo(l: Labels, a: int, k: int)
    requires GoodLabels(l)
  {
    && 0 <= k < |l.names| && l.addresses[k] <= a
    && forall i | 0 <= i < |l.names| && l.addresses[i] <= a ::
         l.addresses[i] < l.addresses[k] || (l.addresses[i] == l.addresses[k] && i <= k)
  }

  /** Label `k` is the first with a name. */
  predicate FirstNamed(l: Labels, name: string, k: int)
    requires GoodLabels(l)
  {
    0 <= k < |l.names| && SameName(l.names[k], name) && forall i | 0 <= i < k :: !SameName(l.names[i], name)
  }

  /** Address `i`, whose nearest old label is `o`, moves to `to`: as far past the first new label `n` of that name,
      which must be the nearest to it. */
  predicate Moves(was: Labels, now: Labels, i: int, o: int, n: int, to: int)
    requires GoodLabels(was) && GoodLabels(now)
  {
    && NearestTo(was, i, o) && FirstNamed(now, was.names[o], n) && NearestTo(now, to, n)
    && to - now.addresses[n] == i - was.addresses[o]
  }

  lemma NearestIs(l: Labels, a: nat, k: int)
    requires GoodLabels(l)
    ensures NearestTo(l, a, k) <==> Nearest(l, a) == k && k >= 0
  {
    var r := NearestOf(l, a, |l.names|);
  }

  lemma FirstIs(l: Labels, name: string, k: int)
    requires GoodLabels(l)
    ensures FirstNamed(l, name, k) <==> Find(l, name) == k && k >= 0
  {
    hide SameName;
    var r := FindFrom(l, name, 0);
  }

  /** The translation is the only move there is, if there is any. */
  lemma TranslatedMoves(was: Labels, now: Labels, i: nat, o: int, n: int, to: nat)
    requires GoodLabels(was) && GoodLabels(now)
    ensures Moves(was, now, i, o, n, to) ==> Translated(was, now, i) == Some(to)
    ensures Translated(was, now, i) == Some(to) && o == Nearest(was, i) && n == Nearest(now, to) ==>
              Moves(was, now, i, o, n, to)
  {
    hide NearestTo, FirstNamed, SameName;
    NearestIs(was, i, o);
    NearestIs(now, to, n);
    if 0 <= o < |was.names| {
      FirstIs(now, was.names[o], n);
    }
  }

  lemma MovesOnly(was: Labels, now: Labels, i: nat)
    requires GoodLabels(was) && GoodLabels(now)
    ensures forall t: nat :: Translated(was, now, i) == Some(t) <==> exists o, n :: Moves(was, now, i, o, n, t)
  {
    hide Moves, Translated;
    forall t: nat
      ensures Translated(was, now, i) == Some(t) <==> exists o, n :: Moves(was, now, i, o, n, t)
    {
      TranslatedMoves(was, now, i, Nearest(was, i), Nearest(now, t), t);
      if o, n :| Moves(was, now, i, o, n, t) {
        TranslatedMoves(was, now, i, o, n, t);
      }
    }
  }

  // ----- carrying over

  /** The byte a changed variable's byte is carried over to, unless there is code. */
  function Target(was: Labels, now: Labels, m: Memory, isCode: seq<bool>, i: nat): Option<nat>
    requires GoodLabels(was) && GoodLabels(now) && GoodMemory(m) && |isCode| == MEMORY && i < MEMORY
  {
    if !Changed(m, i) then None
    else
      match Translated(was, now, i)
      case None => None
      case Some(to) => if to < MEMORY && !isCode[to] then Some(to) else None
  }

  /** No changed variable leaves the 64 KiB. */
  ghost predicate InRange(was: Labels, now: Labels, m: Memory)
    requires GoodLabels(was) && GoodLabels(now) && GoodMemory(m)
  {
    forall i: nat | i < MEMORY && Changed(m, i) && Translated(was, now, i).Some? ::
        Translated(was, now, i).value < MEMORY
  }

  /** The last of the first `n` bytes that is carried over to `to`, or -1. */
  function Source(was: Labels, now: Labels, m: Memory, isCode: seq<bool>, to: nat, n: nat): (r: int)
    requires GoodLabels(was) && GoodLabels(now) && GoodMemory(m) && |isCode| == MEMORY && n <= MEMORY
    ensures -1 <= r < n
    ensures r >= 0 ==> Target(was, now, m, isCode, r) == Some(to)
    ensures forall i: nat | r < i < n :: Target(was, now, m, isCode, i) != Some(to)
  {
    if n == 0 then -1
    else if Target(was, now, m, isCode, n - 1) == Some(to) then n - 1
    else Source(was, now, m, isCode, to, n - 1)
  }

  /** A label is the nearest one to its own address; one hidden by a later label there never is to any. */
  predicate Owned(l: Labels, k: nat)
    requires GoodLabels(l)
  {
    k < |l.names| && l.addresses[k] < MEMORY && Nearest(l, l.addresses[k]) == k
  }

  /** No two labels that are nearest to anything have the same name, ignoring case. */
  ghost predicate NamesApart(l: Labels)
    requires GoodLabels(l)
  {
    forall a: nat, b: nat | a < b && Owned(l, a) && Owned(l, b) :: !SameName(l.names[a], l.names[b])
  }

  lemma NearestOwned(l: Labels, i: nat)
    requires GoodLabels(l) && i < MEMORY && Nearest(l, i) >= 0
    ensures Owned(l, Nearest(l, i))
  {
    var k := Nearest(l, i);
    var again := Nearest(l, l.addresses[k]);
    assert l.addresses[again] == l.addresses[k];
  }

  /** Two bytes never meet: the label nearest to where they meet would have to be the one both came from. */
  lemma Injective(was: Labels, now: Labels, i: nat, j: nat)
    requires GoodLabels(was) && GoodLabels(now) && NamesApart(was) && i < MEMORY && j < MEMORY
    requires Translated(was, now, i).Some? && Translated(was, now, i) == Translated(was, now, j)
    ensures i == j
  {
    var oi, oj := Nearest(was, i), Nearest(was, j);
    NearestOwned(was, i);
    NearestOwned(was, j);
    var n := Find(now, was.names[oi]);
    assert n == Nearest(now, Translated(was, now, i).value) == Find(now, was.names[oj]);
    assert SameName(was.names[oi], was.names[oj]);
  }

  /** Whatever the new labels, no two bytes of memory meet. */
  ghost predicate NeverMeet(was: Labels)
    requires GoodLabels(was)
  {
    forall now: Labels, i: nat, j: nat {:trigger Translated(was, now, i), Translated(was, now, j)}
      | GoodLabels(now) && i < MEMORY && j < MEMORY
        && Translated(was, now, i).Some? && Translated(was, now, i) == Translated(was, now, j) :: i == j
  }

  /** Two labels of one name, each nearest to its own address, meet at the label of that name. */
  lemma SameNamesMeet(was: Labels, a: nat, b: nat)
    requires GoodLabels(was) && a < b && Owned(was, a) && Owned(was, b) && SameName(was.names[a], was.names[b])
    ensures !NeverMeet(was)
  {
    var now, i, j := Labels([was.names[a]], [0]), was.addresses[a], was.addresses[b];
    assert FindFrom(now, was.names[a], 0) == 0 && FindFrom(now, was.names[b], 0) == 0;
    assert NearestOf(now, 0, 1) == 0;
    assert Translated(was, now, i) == Some(0) && Translated(was, now, j) == Some(0);
  }

  /** Exactly the old labels decide whether bytes can meet. */
  lemma MeetExactly(was: Labels)
    requires GoodLabels(was)
    ensures NeverMeet(was) <==> NamesApart(was)
  {
    if NamesApart(was) {
      forall now: Labels, i: nat, j: nat {:trigger Translated(was, now, i), Translated(was, now, j)}
        | GoodLabels(now) && i < MEMORY && j < MEMORY
          && Translated(was, now, i).Some? && Translated(was, now, i) == Translated(was, now, j)
        ensures i == j
      {
        Injective(was, now, i, j);
      }
    } else {
      var a: nat, b: nat :| a < b && Owned(was, a) && Owned(was, b) && SameName(was.names[a], was.names[b]);
      SameNamesMeet(was, a, b);
    }
  }

  /** A pair of labels that makes two bytes meet. */
  lemma SameNamesCollide()
    ensures var was, now := Labels(["v", "V"], [10, 20]), Labels(["v"], [30]);
      Translated(was, now, 10) == Translated(was, now, 20) == Some(30)
  {
    var was, now := Labels(["v", "V"], [10, 20]), Labels(["v"], [30]);
    assert Folded("v") == Folded("V") == ['v'];
    assert NearestOf(was, 10, 1) == 0 && NearestOf(was, 10, 2) == 0;
    assert NearestOf(was, 20, 1) == 0 && NearestOf(was, 20, 2) == 1;
    assert NearestOf(now, 30, 1) == 0;
  }

  /** With names apart the last byte carried over to an address is the only one. */
  lemma OnlySource(was: Labels, now: Labels, m: Memory, isCode: seq<bool>, i: nat, to: nat)
    requires GoodLabels(was) && GoodLabels(now) && GoodMemory(m) && |isCode| == MEMORY && i < MEMORY
    requires NamesApart(was) && Target(was, now, m, isCode, i) == Some(to)
    ensures Source(was, now, m, isCode, to, MEMORY) == i
  {
    Injective(was, now, i, Source(was, now, m, isCode, to, MEMORY));
  }

  class Context {
    const isCode: array<bool>
    const initialised: array<bool>
    const initialValues: array<byte>
    const currentValues: array<byte>
    const modified: array<bool>
    var labels: Labels

    constructor (labels: Labels)
      requires GoodLabels(labels)
      ensures Shape() && this.labels == labels
      ensures fresh(isCode) && fresh(initialised) && fresh(initialValues) && fresh(currentValues) && fresh(modified)
      ensures forall i | 0 <= i < MEMORY :: !isCode[i] && !initialised[i] && !modified[i]
    {
      isCode := new bool[MEMORY](_ => false);
      initialised := new bool[MEMORY](_ => false);
      initialValues := new byte[MEMORY](_ => 0);
      currentValues := new byte[MEMORY](_ => 0);
      modified := new bool[MEMORY](_ => false);
      this.labels := labels;
    }

    ghost predicate Shape()
      reads this
    {
      && isCode.Length == initialised.Length == MEMORY
      && initialValues.Length == currentValues.Length == modified.Length == MEMORY
      && modified != isCode && modified != initialised && currentValues != initialValues && GoodLabels(labels)
    }

    ghost function View(): (m: Memory)
      reads this, isCode, initialised, initialValues, currentValues, modified
      requires Shape()
      ensures GoodMemory(m)
    {
      Memory(isCode[..], initialised[..], initialValues[..], currentValues[..], modified[..])
    }

    /** Takes over the memory of the running program, noting the initialised bytes that have changed. */
    method LoadMemory(mem: seq<byte>)
      requires Shape() && |mem| == MEMORY
      modifies currentValues, modified
      ensures currentValues[..] == mem
      ensures forall i | 0 <= i < MEMORY ::
                modified[i] == (old(modified[i]) || (initialised[i] && mem[i] != initialValues[i]))
    {
      for i := 0 to MEMORY
        invariant currentValues[..i] == mem[..i]
        invariant forall j | 0 <= j < i ::
                    modified[j] == (old(modified[j]) || (initialised[j] && mem[j] != initialValues[j]))
        invariant forall j | i <= j < MEMORY :: modified[j] == old(modified[j])
      {
        currentValues[i] := mem[i];
        if initialised[i] {
          if mem[i] != initialValues[i] {
            modified[i] := true;
          }
        }
      }
    }

    /** The label nearest to an address, from below. */
    method FindNearestLabel(addr: nat) returns (best: int)
      requires GoodLabels(labels)
      ensures best == Nearest(labels, addr)
    {
      var bestAddr := 0;
      best := -1;
      for i := 0 to |labels.names|
        invariant best == NearestOf(labels, addr, i)
        invariant bestAddr == if best == -1 then 0 else labels.addresses[best]
      {
        if labels.addresses[i] >= bestAddr && labels.addresses[i] <= addr {
          best := i;
          bestAddr := labels.addresses[i];
        }
      }
    }

    method FindLabel(name: string) returns (found: int)
      requires GoodLabels(labels)
      ensures found == Find(labels, name)
    {
      for i := 0 to |labels.names|
        invariant Find(labels, name) == FindFrom(labels, name, i)
      {
        if SameName(labels.names[i], name) {
          return i;
        }
      }
      return -1;
    }

    /** The memory the new program starts with. */
    method SaveMemory() returns (image: seq<byte>)
      requires Shape()
      ensures |image| == MEMORY
      ensures forall i | 0 <= i < MEMORY :: image[i] == if modified[i] then currentValues[i] else initialValues[i]
    {
      image := [];
      for i := 0 to MEMORY
        invariant |image| == i
        invariant forall j | 0 <= j < i :: image[j] == if modified[j] then currentValues[j] else initialValues[j]
      {
        if modified[i] {
          image := image + [currentValues[i]];
        } else {
          image := image + [initialValues[i]];
        }
      }
    }
  }

  /** Where one byte of the old context goes, step by step. */
  method TranslateByte(was: Context, now: Context, i: nat) returns (to: Option<nat>)
    requires was.Shape() && now.Shape() && i < MEMORY
    ensures to == Translated(was.labels, now.labels, i)
    ensures forall t: nat :: to == Some(t) <==> exists o, n :: Moves(was.labels, now.labels, i, o, n, t)
  {
    MovesOnly(was.labels, now.labels, i);
    var oldId := was.FindNearestLabel(i);
    if oldId < 0 {
      return None;
    }
    var newId := now.FindLabel(was.labels.names[oldId]);
    var delta := i - was.labels.addresses[oldId];
    if newId < 0 {
      return None;
    }
    var newAddr := now.labels.addresses[newId] + delta;
    var nearest := now.FindNearestLabel(newAddr);
    if nearest != newId {
      return None;
    }
    return Some(newAddr);
  }

  /** The first `n` bytes have been dealt with: each address has the value of the last byte carried over to it,
      if any. */
  ghost predicate Carried(was: Labels, now: Labels, m: Memory, before: Memory, after: Memory, n: nat)
    requires GoodLabels(was) && GoodLabels(now) && GoodMemory(m) && GoodMemory(before) && GoodMemory(after)
    requires n <= MEMORY
  {
    forall t: nat {:trigger after.modified[t]} {:trigger after.current[t]} | t < MEMORY ::
      var s := Source(was, now, m, before.isCode, t, n);
      && after.modified[t] == (before.modified[t] || s >= 0)
      && after.current[t] == if s >= 0 then m.current[s] else before.current[t]
  }

  lemma CarriedNone(was: Labels, now: Labels, m: Memory, before: Memory)
    requires GoodLabels(was) && GoodLabels(now) && GoodMemory(m) && GoodMemory(before)
    ensures Carried(was, now, m, before, before, 0)
  {
  }

  lemma TargetOf(was: Labels, now: Labels, m: Memory, isCode: seq<bool>, i: nat)
    requires GoodLabels(was) && GoodLabels(now) && GoodMemory(m) && |isCode| == MEMORY && i < MEMORY
    requires InRange(was, now, m)
    ensures var to := Translated(was, now, i);
      && (Changed(m, i) && to.Some? ==> to.value < MEMORY)
      && Target(was, now, m, isCode, i) == if Changed(m, i) && to.Some? && !isCode[to.value] then to else None
  {
  }

  /** One more byte dealt with. */
  lemma CarriedNext(was: Labels, now: Labels, m: Memory, before: Memory, mid: Memory, after: Memory, n: nat)
    requires GoodLabels(was) && GoodLabels(now) && GoodMemory(m) && GoodMemory(before) && GoodMemory(mid)
    requires GoodMemory(after)
    requires n < MEMORY && Carried(was, now, m, before, mid, n)
    requires match Target(was, now, m, before.isCode, n)
             case None => after == mid
             case Some(to) => to < MEMORY && after == mid.(current := mid.current[to := m.current[n]],
                                                           modified := mid.modified[to := true])
    ensures Carried(was, now, m, before, after, n + 1)
  {
    hide Target;
  }

  /** Carries every changed variable over. */
  method UpdateVariables(was: Context, now: Context)
    requires was.Shape() && now.Shape() && InRange(was.labels, now.labels, was.View())
    requires now.modified != was.modified && now.modified != was.isCode && now.modified != was.initialised
    requires now.currentValues != was.currentValues && now.currentValues != was.initialValues
    modifies now.currentValues, now.modified
    ensures was.View() == old(was.View())
    ensures now.View() == old(now.View()).(current := now.currentValues[..], modified := now.modified[..])
    ensures Carried(was.labels, now.labels, was.View(), old(now.View()), now.View(), MEMORY)
  {
    hide Target, Source, Carried, Translated;
    ghost var m, before := was.View(), now.View();
    CarriedNone(was.labels, now.labels, m, before);
    for i := 0 to MEMORY
      invariant was.View() == m
      invariant now.View() == before.(current := now.currentValues[..], modified := now.modified[..])
      invariant Carried(was.labels, now.labels, m, before, now.View(), i)
    {
      ghost var mid := now.View();
      TargetOf(was.labels, now.labels, m, before.isCode, i);
      if was.initialised[i] {
        if was.modified[i] {
          if !was.isCode[i] {
            var to := TranslateByte(was, now, i);
            if to.Some? {
              if !now.isCode[to.value] {
                now.currentValues[to.value] := was.currentValues[i];
                now.modified[to.value] := true;
              }
            }
          }
        }
      }
      CarriedNext(was.labels, now.labels, m, before, mid, now.View(), i);
    }
  }

  /** The image of the new program: every changed variable byte that moves to a byte that is not code is there,
      and every byte nothing moves to, in particular all code, has its initial value. */
  method Migrate(was: Context, now: Context) returns (image: seq<byte>)
    requires was.Shape() && now.Shape() && InRange(was.labels, now.labels, was.View())
    requires now.modified != was.modified && now.modified != was.isCode && now.modified != was.initialised
    requires now.currentValues != was.currentValues && now.currentValues != was.initialValues
    requires NamesApart(was.labels) && forall i | 0 <= i < MEMORY :: !now.modified[i]
    modifies now.currentValues, now.modified
    ensures |image| == 0x1_0000
    ensures forall i: nat, o: int, n: int, to: nat | i < 0x1_0000 && to < 0x1_0000
              && was.initialised[i] && was.modified[i] && !was.isCode[i] && !now.isCode[to]
              && Moves(was.labels, now.labels, i, o, n, to) ::
              image[to] == was.currentValues[i]
    ensures forall to: nat | to < 0x1_0000
              && (now.isCode[to]
                  || !(exists i: nat, o: int, n: int
                         | i < 0x1_0000 && was.initialised[i] && was.modified[i] && !was.isCode[i]
                         :: Moves(was.labels, now.labels, i, o, n, to))) ::
              image[to] == now.initialValues[to]
  {
    hide Carried, Moves, Translated, NamesApart, InRange;
    UpdateVariables(was, now);
    image := now.SaveMemory();
    ghost var m, view := was.View(), now.View();
    forall i: nat, o: int, n: int, to: nat | i < MEMORY && to < MEMORY
      && was.initialised[i] && was.modified[i] && !was.isCode[i] && !now.isCode[to]
      && Moves(was.labels, now.labels, i, o, n, to)
      ensures image[to] == was.currentValues[i]
    {
      TranslatedMoves(was.labels, now.labels, i, o, n, to);
      OnlySource(was.labels, now.labels, m, now.isCode[..], i, to);
      CarriedTo(was.labels, now.labels, m, old(now.View()), view, to);
    }
    forall to: nat | to < MEMORY
      && (now.isCode[to]
          || !(exists i: nat, o: int, n: int
                 | i < MEMORY && was.initialised[i] && was.modified[i] && !was.isCode[i]
                 :: Moves(was.labels, now.labels, i, o, n, to)))
      ensures image[to] == now.initialValues[to]
    {
      CarriedTo(was.labels, now.labels, m, old(now.View()), view, to);
      var from := Source(was.labels, now.labels, m, now.isCode[..], to, MEMORY);
      if from >= 0 {
        TranslatedMoves(was.labels, now.labels, from, Nearest(was.labels, from), Nearest(now.labels, to), to);
      }
    }
  }

  lemma CarriedTo(was: Labels, now: Labels, m: Memory, before: Memory, after: Memory, to: nat)
    requires GoodLabels(was) && GoodLabels(now) && GoodMemory(m) && GoodMemory(before) && GoodMemory(after)
    requires Carried(was, now, m, before, after, MEMORY) && to < MEMORY
    ensures var s := Source(was, now, m, before.isCode, to, MEMORY);
      && after.modified[to] == (before.modified[to] || s >= 0)
      && after.current[to] == if s >= 0 then m.current[s] else before.current[to]
  {
    assert after.modified[to] == after.modified[to];
  }
}
