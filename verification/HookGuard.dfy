/** The re-entrancy guard of the syscall hooks (cli/src/syscall_profiler.rs, module hooks): a table
    of slots that threads claim, scan and release one atomic load or compare-and-swap at a time.
    Steps of different threads interleave freely and take effect in one order. */
module HookGuard {
  import opened Counting

  const MAX_THREADS_IN_HOOK := 128

  /** Where one activation of a hook is. The index is the next slot of its scan. */
  datatype Frame =
    | Testing(i: nat)    // is_in_hook
    | Passing            // already in a hook: calls the original directly
    | Claiming(i: nat)   // set_in_hook(true)
    | Running            // from the claim to the release
    | Releasing(i: nat)  // set_in_hook(false)

  /** Slots hold thread ids, 0 when free. Each thread has a stack of hook activations, oldest first. */
  datatype State = State(slots: seq<nat>, stacks: map<nat, seq<Frame>>)

  datatype Action =
    | Call(t: nat)     // enter a hooked function, from outside or from a running hook's body
    | Finish(t: nat)   // leave the body by any of its exits; each one starts the release
    | Advance(t: nat)  // one load, one compare-and-swap, or a return

  function Init(): State { State(seq(MAX_THREADS_IN_HOOK, _ => 0), map[]) }

  function Stack(s: State, t: nat): seq<Frame> { if t in s.stacks then s.stacks[t] else [] }

  function WithStack(s: State, t: nat, frames: seq<Frame>): (r: State)
    ensures Stack(r, t) == frames && r.slots == s.slots
    ensures forall u :: u != t ==> Stack(r, u) == Stack(s, u)
    ensures r.stacks.Keys == s.stacks.Keys + {t}
  {
    s.(stacks := s.stacks[t := frames])
  }

  /** The next frame of the top activation, or none when it returns, and the slots. Thread id 0 is
      not guarded at all: it tests as absent, and neither claims nor releases. */
  function Turn(slots: seq<nat>, t: nat, top: Frame): (seq<nat>, seq<Frame>) {
    match top
    case Testing(i) =>
      if t == 0 || i >= |slots| then (slots, [Claiming(0)])
      else if slots[i] == t then (slots, [Passing])
      else (slots, [Testing(i + 1)])
    case Passing => (slots, [])
    case Claiming(i) =>
      if t == 0 || i >= |slots| then (slots, [Running])
      else if slots[i] == 0 then (slots[i := t], [Running])
      else (slots, [Claiming(i + 1)])
    case Running => (slots, [Running])
    case Releasing(i) =>
      if t == 0 || i >= |slots| then (slots, [])
      else (if slots[i] == t then slots[i := 0] else slots, [Releasing(i + 1)])
  }

  function Step(s: State, a: Action): State {
    var st := Stack(s, a.t);
    match a
    case Call(t) =>
      if st == [] || st[|st| - 1] == Running then WithStack(s, t, st + [Testing(0)]) else s
    case Finish(t) =>
      if st != [] && st[|st| - 1] == Running then WithStack(s, t, st[..|st| - 1] + [Releasing(0)]) else s
    case Advance(t) =>
      if st == [] then s
      else
        var (slots, frames) := Turn(s.slots, t, st[|st| - 1]);
        WithStack(s.(slots := slots), t, st[..|st| - 1] + frames)
  }

  function Exec(s: State, run: seq<Action>): State
    decreases |run|
  {
    if run == [] then s else Exec(Step(s, run[0]), run[1..])
  }

  lemma {:induction false} ExecJoin(s: State, first: seq<Action>, next: seq<Action>)
    ensures Exec(s, first + next) == Exec(Exec(s, first), next)
    decreases |first|
  {
    if first == [] {
      assert [] + next == next;
    } else {
      assert (first + next)[1..] == first[1..] + next;
      ExecJoin(Step(s, first[0]), first[1..], next);
    }
  }

  /** Threads between the start of a claim and the end of the release. */
  function Busy(s: State): set<nat> {
    set t <- s.stacks.Keys | IsBusy(Stack(s, t))
  }

  predicate IsBusy(st: seq<Frame>) {
    st != [] && (st[0].Claiming? || st[0].Running? || st[0].Releasing?)
  }

  /** A run by threads with nonzero ids in which at most m threads are ever busy at once. */
  predicate Allowed(s: State, run: seq<Action>, m: nat)
    decreases |run|
  {
    |Busy(s)| <= m && (run == [] || (run[0].t != 0 && Allowed(Step(s, run[0]), run[1..], m)))
  }

  /** A claim has scanned the whole table without finding a free slot. */
  ghost predicate ClaimFailed(s: State) {
    exists t: nat, k: nat :: k < |Stack(s, t)| && Stack(s, t)[k].Claiming? && Stack(s, t)[k].i >= |s.slots|
  }

  // ---------------------------------------------------------------- the invariant

  /** A thread's activations and its presence in the table agree, one nested level at most. */
  predicate ThreadOk(slots: seq<nat>, t: nat, st: seq<Frame>) {
    if |st| == 0 then t !in slots
    else if |st| == 1 then
      match st[0]
      case Testing(_) => t !in slots
      case Claiming(i) => i < |slots| && t !in slots
      case Running => t in slots
      case Releasing(i) => i <= |slots| && t !in slots[..i]
      case Passing => false
    else
      && |st| == 2 && st[0] == Running
      && match st[1]
         case Testing(i) => i < |slots| && t in slots[i..]
         case Passing => t in slots
         case _ => false
  }

  predicate Unique(slots: seq<nat>) {
    forall i, j :: 0 <= i < j < |slots| && slots[i] == slots[j] ==> slots[i] == 0
  }

  /** Thread t is scanning for a slot at i or later, or holds one there. */
  predicate IsAhead(slots: seq<nat>, t: nat, st: seq<Frame>, i: nat)
    requires i <= |slots|
  {
    || (|st| == 1 && st[0].Claiming? && st[0].i >= i)
    || t in slots[i..]
  }

  function Ahead(s: State, i: nat): set<nat>
    requires i <= |s.slots|
  {
    set t <- s.stacks.Keys | IsAhead(s.slots, t, Stack(s, t), i)
  }

  /** No more threads are at slot i or beyond than there are slots from i on. */
  predicate RoomAhead(s: State) {
    forall i {:trigger Ahead(s, i)} :: 0 <= i <= |s.slots| ==> |Ahead(s, i)| <= |s.slots| - i
  }

  ghost predicate ThreadsOk(s: State) {
    && 0 !in s.stacks
    && forall t: nat :: t != 0 ==> ThreadOk(s.slots, t, Stack(s, t))
  }

  ghost predicate Inv(s: State) {
    |s.slots| == MAX_THREADS_IN_HOOK && Unique(s.slots) && ThreadsOk(s) && RoomAhead(s)
  }

  lemma InitInv()
    ensures Inv(Init()) && Busy(Init()) == {}
  {
    forall i | 0 <= i <= |Init().slots|
      ensures |Ahead(Init(), i)| <= |Init().slots| - i
    {
      assert Ahead(Init(), i) == {};
    }
  }

  /** Nobody's position or slot moves further ahead. */
  lemma RoomKept(s: State, t: State)
    requires RoomAhead(s) && |s.slots| == |t.slots|
    requires forall i {:trigger Ahead(t, i)} :: 0 <= i <= |s.slots| ==> Ahead(t, i) <= Ahead(s, i)
    ensures RoomAhead(t)
  {
    forall i | 0 <= i <= |t.slots|
      ensures |Ahead(t, i)| <= |t.slots| - i
    {
      SubsetSize(Ahead(t, i), Ahead(s, i));
    }
  }

  /** The state after t's top activation took its turn. */
  function Turned(s: State, t: nat, slots: seq<nat>, st: seq<Frame>): State {
    WithStack(s.(slots := slots), t, st)
  }

  /** A failed compare-and-swap: the owner of slot i is ahead at i but not beyond, so there is room. */
  lemma ClaimMovesOn(s: State, t: nat, i: nat)
    requires Inv(s) && t != 0 && Stack(s, t) == [Claiming(i)] && i < |s.slots| && s.slots[i] != 0
    ensures Inv(Turned(s, t, s.slots, [Claiming(i + 1)]))
  {
    var u := Turned(s, t, s.slots, [Claiming(i + 1)]);
    var owner := s.slots[i];
    assert owner in s.slots && ThreadOk(s.slots, owner, Stack(s, owner)) && ThreadOk(s.slots, t, Stack(s, t));
    assert owner in s.slots[i..] && owner !in s.slots[i + 1..];
    assert owner in Ahead(s, i) && t in Ahead(s, i) && owner !in Ahead(u, i + 1);
    assert Ahead(u, i + 1) <= Ahead(s, i);
    SubsetSize(Ahead(u, i + 1), Ahead(s, i));
    forall k | 0 <= k <= |u.slots|
      ensures |Ahead(u, k)| <= |u.slots| - k
    {
      if k != i + 1 {
        assert Ahead(u, k) == Ahead(s, k);
      }
    }
    assert t in Ahead(u, i + 1);
    assert |Ahead(u, i + 1)| >= 1;
    ThreadsKept(s, t, u);
  }

  /** Other threads are not touched by a turn that leaves the slots alone. */
  lemma ThreadsKept(s: State, t: nat, u: State)
    requires ThreadsOk(s) && t != 0 && u.slots == s.slots
    requires forall v :: v != t ==> Stack(u, v) == Stack(s, v)
    requires u.stacks.Keys == s.stacks.Keys + {t}
    requires ThreadOk(u.slots, t, Stack(u, t))
    ensures ThreadsOk(u)
  {
    forall v: nat | v != 0
      ensures ThreadOk(u.slots, v, Stack(u, v))
    {
      assert ThreadOk(s.slots, v, Stack(s, v));
    }
  }

  /** A compare-and-swap on one slot between free and t's id: every other thread is where it was. */
  lemma SwapKeepsOthers(slots: seq<nat>, i: nat, x: nat, t: nat, v: nat, st: seq<Frame>)
    requires i < |slots| && v != t && v != 0
    requires (slots[i] == 0 && x == t) || (slots[i] == t && x == 0)
    requires ThreadOk(slots, v, st)
    ensures ThreadOk(slots[i := x], v, st)
    ensures v in slots <==> v in slots[i := x]
  {
    var after := slots[i := x];
    assert v in slots <==> v in after by {
      if v in slots {
        var j :| 0 <= j < |slots| && slots[j] == v;
        assert after[j] == v;
      }
    }
    if |st| == 2 && st[1].Testing? {
      var k := st[1].i;
      var j :| 0 <= j < |slots[k..]| && slots[k..][j] == v;
      assert after[k..][j] == v;
    }
    if |st| == 1 && st[0].Releasing? {
      var k := st[0].i;
      assert forall j :: 0 <= j < k ==> after[..k][j] == if j == i then x else slots[..k][j];
    }
  }

  lemma ClaimTakes(s: State, t: nat, i: nat)
    requires Inv(s) && t != 0 && Stack(s, t) == [Claiming(i)] && i < |s.slots| && s.slots[i] == 0
    ensures Inv(Turned(s, t, s.slots[i := t], [Running]))
  {
    var after := s.slots[i := t];
    var u := Turned(s, t, after, [Running]);
    assert ThreadOk(s.slots, t, Stack(s, t));
    assert after[i] == t;
    forall v: nat | v != 0
      ensures ThreadOk(after, v, Stack(u, v))
    {
      if v != t {
        SwapKeepsOthers(s.slots, i, t, t, v, Stack(s, v));
      }
    }
    forall k | 0 <= k <= |u.slots|
      ensures Ahead(u, k) <= Ahead(s, k)
    {
      forall v | v in Ahead(u, k)
        ensures v in Ahead(s, k)
      {
        if v != t && v in after[k..] {
          var j :| 0 <= j < |after[k..]| && after[k..][j] == v;
          assert s.slots[k..][j] == v;
        }
      }
    }
    RoomKept(s, u);
  }

  lemma AheadShrinks(s: State, u: State, i: nat, t: nat, k: nat)
    requires ThreadsOk(s) && i < |s.slots| && k <= |s.slots| && u.slots == s.slots[i := 0]
    requires forall v :: v != t ==> Stack(u, v) == Stack(s, v)
    requires u.stacks.Keys == s.stacks.Keys && Stack(u, t) != [] && Stack(u, t)[0].Releasing?
    ensures Ahead(u, k) <= Ahead(s, k)
  {
    forall v | v in Ahead(u, k)
      ensures v in Ahead(s, k)
    {
      if v in u.slots[k..] {
        var j :| 0 <= j < |u.slots[k..]| && u.slots[k..][j] == v;
        assert s.slots[k..][j] == v;
      }
    }
  }

  lemma ReleaseClears(s: State, t: nat, i: nat)
    requires Inv(s) && t != 0 && Stack(s, t) == [Releasing(i)] && i < |s.slots| && s.slots[i] == t
    ensures Inv(Turned(s, t, s.slots[i := 0], [Releasing(i + 1)]))
  {
    var after := s.slots[i := 0];
    var u := Turned(s, t, after, [Releasing(i + 1)]);
    assert ThreadOk(s.slots, t, Stack(s, t));
    forall v: nat | v != 0
      ensures ThreadOk(after, v, Stack(u, v))
    {
      if v != t {
        SwapKeepsOthers(s.slots, i, 0, t, v, Stack(s, v));
      } else {
        assert after[..i + 1] == s.slots[..i] + [0];
      }
    }
    forall k | 0 <= k <= |u.slots|
      ensures Ahead(u, k) <= Ahead(s, k)
    {
      AheadShrinks(s, u, i, t, k);
    }
    RoomKept(s, u);
  }

  /** Any other turn of a thread: the slots stay, and no claim is under way before or after. */
  lemma QuietTurn(s: State, t: nat, st: seq<Frame>)
    requires Inv(s) && t != 0 && ThreadOk(s.slots, t, st)
    requires |st| == 1 ==> !st[0].Claiming?
    ensures Inv(Turned(s, t, s.slots, st))
  {
    var u := Turned(s, t, s.slots, st);
    ThreadsKept(s, t, u);
    forall k | 0 <= k <= |u.slots|
      ensures Ahead(u, k) <= Ahead(s, k)
    {
      forall v | v in Ahead(u, k)
        ensures v in Ahead(s, k)
      {
        if v == t {
          assert t in s.slots;
          assert ThreadOk(s.slots, t, Stack(s, t));
        }
      }
    }
    RoomKept(s, u);
  }

  /** A thread starts to claim: there is room because at most as many threads as slots are busy. */
  lemma ClaimStarts(s: State, t: nat)
    requires Inv(s) && t != 0 && t !in s.slots
    requires |Busy(Turned(s, t, s.slots, [Claiming(0)]))| <= |s.slots|
    ensures Inv(Turned(s, t, s.slots, [Claiming(0)]))
  {
    var u := Turned(s, t, s.slots, [Claiming(0)]);
    ThreadsKept(s, t, u);
    forall v | v in Ahead(u, 0)
      ensures v in Busy(u)
    {
      assert u.slots[0..] == u.slots;
      assert ThreadOk(u.slots, v, Stack(u, v));
    }
    SubsetSize(Ahead(u, 0), Busy(u));
    forall k | 0 <= k <= |u.slots|
      ensures |Ahead(u, k)| <= |u.slots| - k
    {
      if k > 0 {
        assert Ahead(u, k) <= Ahead(s, k) by {
          assert t !in u.slots[k..];
        }
        SubsetSize(Ahead(u, k), Ahead(s, k));
      }
    }
  }

  /** Every step of an allowed run keeps the invariant. */
  lemma StepKeepsInv(s: State, a: Action)
    requires Inv(s) && a.t != 0 && |Busy(Step(s, a))| <= MAX_THREADS_IN_HOOK
    ensures Inv(Step(s, a))
  {
    var t := a.t;
    var st := Stack(s, t);
    assert ThreadOk(s.slots, t, st);
    if a.Call? {
      if st == [] || st[|st| - 1] == Running {
        assert s.slots[0..] == s.slots;
        QuietTurn(s, t, st + [Testing(0)]);
      }
    } else if a.Finish? {
      if st != [] && st[|st| - 1] == Running {
        assert st[..|st| - 1] + [Releasing(0)] == [Releasing(0)];
        QuietTurn(s, t, [Releasing(0)]);
      }
    } else if st != [] {
      AdvanceKeepsInv(s, t);
    }
  }

  lemma AdvanceKeepsInv(s: State, t: nat)
    requires Inv(s) && t != 0 && Stack(s, t) != []
    requires |Busy(Step(s, Advance(t)))| <= MAX_THREADS_IN_HOOK
    ensures Inv(Step(s, Advance(t)))
  {
    var st := Stack(s, t);
    assert ThreadOk(s.slots, t, st);
    var (slots, frames) := Turn(s.slots, t, st[|st| - 1]);
    if |st| == 1 {
      assert st == [st[0]] && st[..0] + frames == frames;
      OuterTurn(s, t, st[0]);
    } else {
      assert st == [Running, st[1]] && st[..1] + frames == [Running] + frames;
      NestedTurn(s, t, st[1]);
    }
  }

  lemma NestedTurn(s: State, t: nat, top: Frame)
    requires Inv(s) && t != 0 && Stack(s, t) == [Running, top]
    ensures var (slots, frames) := Turn(s.slots, t, top);
      Inv(Turned(s, t, slots, [Running] + frames))
  {
    assert ThreadOk(s.slots, t, Stack(s, t));
    var (slots, frames) := Turn(s.slots, t, top);
    if top.Testing? {
      NestedTest(s.slots, t, top.i);
    }
    QuietTurn(s, t, [Running] + frames);
  }

  lemma OuterTurn(s: State, t: nat, top: Frame)
    requires Inv(s) && t != 0 && Stack(s, t) == [top]
    requires var (slots, frames) := Turn(s.slots, t, top);
      |Busy(Turned(s, t, slots, frames))| <= MAX_THREADS_IN_HOOK
    ensures var (slots, frames) := Turn(s.slots, t, top);
      Inv(Turned(s, t, slots, frames))
  {
    assert ThreadOk(s.slots, t, Stack(s, t));
    match top
    case Testing(i) => OuterTest(s, t, i);
    case Claiming(i) => OuterClaim(s, t, i);
    case Releasing(i) => OuterRelease(s, t, i);
    case Running => QuietTurn(s, t, [Running]);
  }

  lemma OuterTest(s: State, t: nat, i: nat)
    requires Inv(s) && t != 0 && Stack(s, t) == [Testing(i)]
    requires i >= |s.slots| ==> |Busy(Turned(s, t, s.slots, [Claiming(0)]))| <= MAX_THREADS_IN_HOOK
    ensures var (slots, frames) := Turn(s.slots, t, Testing(i)); Inv(Turned(s, t, slots, frames))
  {
    assert ThreadOk(s.slots, t, Stack(s, t));
    if i >= |s.slots| {
      ClaimStarts(s, t);
    } else {
      QuietTurn(s, t, [Testing(i + 1)]);
    }
  }

  lemma OuterClaim(s: State, t: nat, i: nat)
    requires Inv(s) && t != 0 && Stack(s, t) == [Claiming(i)]
    ensures var (slots, frames) := Turn(s.slots, t, Claiming(i)); Inv(Turned(s, t, slots, frames))
  {
    assert ThreadOk(s.slots, t, Stack(s, t));
    if s.slots[i] == 0 {
      ClaimTakes(s, t, i);
    } else {
      ClaimMovesOn(s, t, i);
    }
  }

  lemma OuterRelease(s: State, t: nat, i: nat)
    requires Inv(s) && t != 0 && Stack(s, t) == [Releasing(i)]
    ensures var (slots, frames) := Turn(s.slots, t, Releasing(i)); Inv(Turned(s, t, slots, frames))
  {
    assert ThreadOk(s.slots, t, Stack(s, t));
    if i < |s.slots| && s.slots[i] == t {
      ReleaseClears(s, t, i);
    } else {
      ReleaseMovesOn(s.slots, t, i);
      QuietTurn(s, t, if i >= |s.slots| then [] else [Releasing(i + 1)]);
    }
  }

  lemma ReleaseMovesOn(slots: seq<nat>, t: nat, i: nat)
    requires i <= |slots| && t !in slots[..i]
    ensures i == |slots| ==> t !in slots
    ensures i < |slots| && slots[i] != t ==> t !in slots[..i + 1]
  {
    if i < |slots| {
      assert slots[..i + 1] == slots[..i] + [slots[i]];
    } else {
      assert slots[..i] == slots;
    }
  }

  /** The scan of a thread that holds a slot cannot run past it. */
  lemma NestedTest(slots: seq<nat>, t: nat, i: nat)
    requires i < |slots| && t in slots[i..]
    ensures slots[i] != t ==> i + 1 < |slots| && t in slots[i + 1..]
  {
    assert slots[i..] == [slots[i]] + slots[i + 1..];
  }

  lemma {:induction false} RunKeepsInv(s: State, run: seq<Action>)
    requires Inv(s) && Allowed(s, run, MAX_THREADS_IN_HOOK)
    ensures Inv(Exec(s, run))
    decreases |run|
  {
    if run != [] {
      StepKeepsInv(s, run[0]);
      RunKeepsInv(Step(s, run[0]), run[1..]);
    }
  }
}
