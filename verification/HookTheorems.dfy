/** What the guard promises in every interleaving, and the thread count at which it stops doing so. */
module HookTheorems {
  import opened Counting
  import opened HookGuard

  /** In every allowed run of at most 128 busy threads, each claiming scan succeeds, hooks nest one
      level deep at most, and a thread holds exactly one slot from its claim to its release. */
  lemma GuardHolds(run: seq<Action>)
    requires Allowed(Init(), run, MAX_THREADS_IN_HOOK)
    ensures var s := Exec(Init(), run);
      && !ClaimFailed(s)
      && Unique(s.slots)
      && forall t: nat :: t != 0 ==>
           && |Stack(s, t)| <= 2
           && (Stack(s, t) != [] && Stack(s, t)[0] == Running ==> t in s.slots)
           && (Stack(s, t) == [] || Stack(s, t)[0].Testing? || Stack(s, t)[0].Claiming? ==> t !in s.slots)
  {
    InitInv();
    RunKeepsInv(Init(), run);
    var s := Exec(Init(), run);
    forall t: nat | t != 0
      ensures ThreadOk(s.slots, t, Stack(s, t))
    {
    }
    forall t: nat, k: nat | k < |Stack(s, t)| && Stack(s, t)[k].Claiming?
      ensures Stack(s, t)[k].i < |s.slots|
    {
      assert t != 0 ==> ThreadOk(s.slots, t, Stack(s, t));
    }
  }

  /** What one more load of thread t's test at slot i may lead to. */
  predicate TestGoesRight(before: seq<Frame>, after: seq<Frame>, i: nat) {
    && (before == [Testing(i)] ==> after == [Testing(i + 1)] || after == [Claiming(0)])
    && (before == [Running, Testing(i)] ==> after == [Running, Testing(i + 1)] || after == [Running, Passing])
  }

  lemma TestStep(s: State, t: nat, i: nat)
    requires Inv(s) && t != 0
    ensures TestGoesRight(Stack(s, t), Stack(Step(s, Advance(t)), t), i)
  {
    var st := Stack(s, t);
    if st == [Testing(i)] {
      OuterTestStep(s, t, i);
    } else if st == [Running, Testing(i)] {
      NestedTestStep(s, t, i);
    }
  }

  lemma OuterTestStep(s: State, t: nat, i: nat)
    requires Inv(s) && t != 0 && Stack(s, t) == [Testing(i)]
    ensures TestGoesRight([Testing(i)], Stack(Step(s, Advance(t)), t), i)
  {
    assert ThreadOk(s.slots, t, Stack(s, t));
    assert [Testing(i)] == [] + [Testing(i)];
    AdvanceTop(s, t, [], Testing(i));
    assert [] + [Testing(i + 1)] == [Testing(i + 1)] && [] + [Claiming(0)] == [Claiming(0)];
  }

  lemma NestedTestStep(s: State, t: nat, i: nat)
    requires Inv(s) && t != 0 && Stack(s, t) == [Running, Testing(i)]
    ensures TestGoesRight([Running, Testing(i)], Stack(Step(s, Advance(t)), t), i)
  {
    assert ThreadOk(s.slots, t, Stack(s, t));
    NestedTest(s.slots, t, i);
    assert [Running, Testing(i)] == [Running] + [Testing(i)];
    AdvanceTop(s, t, [Running], Testing(i));
  }

  /** A thread's own test is answered "no" when it calls a hook from outside, and "yes" when it calls
      one from a running hook, however the scans of other threads interleave. */
  lemma TestAnswers(run: seq<Action>, t: nat, i: nat)
    requires Allowed(Init(), run, MAX_THREADS_IN_HOOK) && t != 0
    ensures var s := Exec(Init(), run); TestGoesRight(Stack(s, t), Stack(Step(s, Advance(t)), t), i)
  {
    InitInv();
    RunKeepsInv(Init(), run);
    TestStep(Exec(Init(), run), t, i);
  }

  /** The thread ids in the table: the plain set that the slots stand for. */
  function Members(slots: seq<nat>): set<nat> { set x <- slots | x != 0 }

  /** The compare-and-swap that a step performs succeeds: a claim of a free slot, or a release. */
  predicate Takes(s: State, t: nat) {
    var st := Stack(s, t);
    st != [] && st[|st| - 1].Claiming? && t != 0 && st[|st| - 1].i < |s.slots| && s.slots[st[|st| - 1].i] == 0
  }

  predicate Gives(s: State, t: nat) {
    var st := Stack(s, t);
    st != [] && st[|st| - 1].Releasing? && t != 0 && st[|st| - 1].i < |s.slots| && s.slots[st[|st| - 1].i] == t
  }

  /** Every step is an insertion, a removal, or nothing, on that set, and always of the thread's own
      id: a claim inserts one that was absent, a release removes one for good. */
  lemma StepRefinesSet(run: seq<Action>, a: Action)
    requires Allowed(Init(), run, MAX_THREADS_IN_HOOK) && a.t != 0
    ensures var s := Exec(Init(), run);
      var after := Members(Step(s, a).slots);
      if a.Advance? && Takes(s, a.t) then a.t !in Members(s.slots) && after == Members(s.slots) + {a.t}
      else if a.Advance? && Gives(s, a.t) then a.t in Members(s.slots) && after == Members(s.slots) - {a.t}
      else after == Members(s.slots)
  {
    InitInv();
    RunKeepsInv(Init(), run);
    RefinesSet(Exec(Init(), run), a);
  }

  lemma RefinesSet(s: State, a: Action)
    requires Inv(s) && a.t != 0
    ensures var after := Members(Step(s, a).slots);
      if a.Advance? && Takes(s, a.t) then a.t !in Members(s.slots) && after == Members(s.slots) + {a.t}
      else if a.Advance? && Gives(s, a.t) then a.t in Members(s.slots) && after == Members(s.slots) - {a.t}
      else after == Members(s.slots)
  {
    var t := a.t;
    var st := Stack(s, t);
    assert ThreadOk(s.slots, t, st);
    if a.Advance? && Takes(s, t) {
      InsertMember(s.slots, st[|st| - 1].i, t);
    } else if a.Advance? && Gives(s, t) {
      RemoveMember(s.slots, st[|st| - 1].i, t);
    } else {
      assert Step(s, a).slots == s.slots;
    }
  }

  lemma InsertMember(slots: seq<nat>, i: nat, t: nat)
    requires i < |slots| && slots[i] == 0 && t != 0
    ensures Members(slots[i := t]) == Members(slots) + {t}
  {
    var after := slots[i := t];
    assert after[i] == t;
    forall x: nat | x in slots && x != 0
      ensures x in after
    {
      var j :| 0 <= j < |slots| && slots[j] == x;
      assert after[j] == x;
    }
  }

  lemma RemoveMember(slots: seq<nat>, i: nat, t: nat)
    requires i < |slots| && slots[i] == t && t != 0 && Unique(slots)
    ensures Members(slots[i := 0]) == Members(slots) - {t}
  {
    var after := slots[i := 0];
    forall x: nat | x in slots && x != 0 && x != t
      ensures x in after
    {
      var j :| 0 <= j < |slots| && slots[j] == x;
      assert after[j] == x;
    }
    assert t !in after;
  }

  /** In any state whatever, a step of one thread leaves every other thread's membership alone. */
  lemma OthersUntouched(s: State, a: Action, u: nat)
    requires u != a.t && u != 0
    ensures u in s.slots <==> u in Step(s, a).slots
    ensures Stack(Step(s, a), u) == Stack(s, u)
  {
    var after := Step(s, a).slots;
    assert |after| == |s.slots|;
    assert forall j :: 0 <= j < |s.slots| ==> (s.slots[j] == u <==> after[j] == u);
  }

  // ---------------------------------------------------------------- one thread running alone

  function Alone(t: nat, n: nat): seq<Action> {
    if n == 0 then [] else [Advance(t)] + Alone(t, n - 1)
  }

  lemma AloneStep(s: State, t: nat, n: nat)
    requires n > 0
    ensures Exec(s, Alone(t, n)) == Exec(Step(s, Advance(t)), Alone(t, n - 1))
  {
    assert Alone(t, n)[1..] == Alone(t, n - 1);
  }

  lemma AdvanceTop(s: State, t: nat, below: seq<Frame>, top: Frame)
    requires Stack(s, t) == below + [top]
    ensures var (slots, frames) := Turn(s.slots, t, top);
      Step(s, Advance(t)) == WithStack(s.(slots := slots), t, below + frames)
  {
    var st := below + [top];
    assert st[|st| - 1] == top && st[..|st| - 1] == below;
  }

  /** An undisturbed test by a thread that is not in the table scans it all. */
  lemma {:induction false} TestAlone(s: State, t: nat, below: seq<Frame>, i: nat)
    requires t != 0 && t !in s.slots && i <= |s.slots| && Stack(s, t) == below + [Testing(i)]
    ensures Exec(s, Alone(t, |s.slots| - i)) == WithStack(s, t, below + [Testing(|s.slots|)])
    decreases |s.slots| - i
  {
    if i < |s.slots| {
      AloneStep(s, t, |s.slots| - i);
      AdvanceTop(s, t, below, Testing(i));
      TestAlone(Step(s, Advance(t)), t, below, i + 1);
    }
  }

  /** An undisturbed claim passes every slot that is taken. */
  lemma {:induction false} ClaimAlone(s: State, t: nat, below: seq<Frame>, i: nat, f: nat)
    requires t != 0 && i <= f <= |s.slots| && Stack(s, t) == below + [Claiming(i)]
    requires forall j :: i <= j < f ==> s.slots[j] != 0
    ensures Exec(s, Alone(t, f - i)) == WithStack(s, t, below + [Claiming(f)])
    decreases f - i
  {
    if i < f {
      AloneStep(s, t, f - i);
      AdvanceTop(s, t, below, Claiming(i));
      ClaimAlone(Step(s, Advance(t)), t, below, i + 1, f);
    }
  }

  lemma ExecAlone(s: State, t: nat, n: nat, mid: State, k: nat, end: State)
    requires Exec(s, Alone(t, n)) == mid && Exec(mid, Alone(t, k)) == end
    ensures Exec(s, Alone(t, n + k)) == end
  {
    AloneJoin(t, n, k);
    ExecJoin(s, Alone(t, n), Alone(t, k));
  }

  lemma Overwrite(s: State, t: nat, x: seq<Frame>, y: seq<Frame>)
    ensures WithStack(WithStack(s, t, x), t, y) == WithStack(s, t, y)
  {
    assert s.stacks[t := x][t := y] == s.stacks[t := y];
  }

  lemma StartClaimAlone(s: State, t: nat, below: seq<Frame>, f: nat)
    requires t != 0 && f <= |s.slots| && Stack(s, t) == below + [Testing(|s.slots|)]
    requires forall j :: 0 <= j < f ==> s.slots[j] != 0
    ensures Exec(s, Alone(t, 1 + f)) == WithStack(s, t, below + [Claiming(f)])
  {
    AdvanceTop(s, t, below, Testing(|s.slots|));
    var s3 := WithStack(s, t, below + [Claiming(0)]);
    AloneStep(s, t, 1 + f);
    ClaimAlone(s3, t, below, 0, f);
    Overwrite(s, t, below + [Claiming(0)], below + [Claiming(f)]);
  }

  lemma TestPart(s: State, t: nat, below: seq<Frame>, n: nat)
    requires t != 0 && t !in s.slots && n == |s.slots| && Stack(s, t) == below + [Testing(0)]
    ensures Exec(s, Alone(t, n)) == WithStack(s, t, below + [Testing(n)])
  {
    TestAlone(s, t, below, 0);
  }

  lemma ClaimPart(s: State, t: nat, below: seq<Frame>, f: nat, k: nat)
    requires t != 0 && f <= |s.slots| && k == 1 + f && forall j :: 0 <= j < f ==> s.slots[j] != 0
    ensures Exec(WithStack(s, t, below + [Testing(|s.slots|)]), Alone(t, k)) == WithStack(s, t, below + [Claiming(f)])
  {
    StartClaimAlone(WithStack(s, t, below + [Testing(|s.slots|)]), t, below, f);
    Overwrite(s, t, below + [Testing(|s.slots|)], below + [Claiming(f)]);
  }

  /** From the call to the end of the test, and on to the claim of slot f. */
  lemma TestThenClaim(s: State, t: nat, below: seq<Frame>, f: nat, steps: nat)
    requires t != 0 && t !in s.slots && f <= |s.slots| && Stack(s, t) == below + [Testing(0)]
    requires steps == |s.slots| + (1 + f) && forall j :: 0 <= j < f ==> s.slots[j] != 0
    ensures Exec(s, Alone(t, steps)) == WithStack(s, t, below + [Claiming(f)])
  {
    var n, k := |s.slots|, 1 + f;
    var mid := WithStack(s, t, below + [Testing(n)]);
    TestPart(s, t, below, n);
    ClaimPart(s, t, below, f, k);
    ExecAlone(s, t, n, mid, k, WithStack(s, t, below + [Claiming(f)]));
  }

  /** Entering a hook undisturbed leads to the claim of slot f, the slots before it being taken. */
  lemma EnterAlone(s: State, t: nat, below: seq<Frame>, f: nat) returns (run: seq<Action>)
    requires t != 0 && t !in s.slots && f <= |s.slots| && Stack(s, t) == below
    requires below == [] || below[|below| - 1] == Running
    requires forall j :: 0 <= j < f ==> s.slots[j] != 0
    ensures forall i :: 0 <= i < |run| ==> run[i].t == t
    ensures Exec(s, run) == WithStack(s, t, below + [Claiming(f)])
  {
    var steps := |s.slots| + (1 + f);
    var s1 := WithStack(s, t, below + [Testing(0)]);
    TestThenClaim(s1, t, below, f, steps);
    Overwrite(s, t, below + [Testing(0)], below + [Claiming(f)]);
    run := CallThenAlone(s, t, steps, s1);
  }

  lemma CallThenAlone(s: State, t: nat, steps: nat, s1: State) returns (run: seq<Action>)
    requires s1 == Step(s, Call(t))
    ensures forall i :: 0 <= i < |run| ==> run[i].t == t
    ensures Exec(s, run) == Exec(s1, Alone(t, steps))
  {
    run := [Call(t)] + Alone(t, steps);
    assert run[1..] == Alone(t, steps);
    AloneBy(t, steps);
  }

  lemma {:induction false} AloneJoin(t: nat, n: nat, k: nat)
    ensures Alone(t, n + k) == Alone(t, n) + Alone(t, k)
  {
    if n > 0 {
      AloneJoin(t, n - 1, k);
    }
  }

  // ---------------------------------------------------------------- allowed runs

  lemma {:induction false} AllowedJoin(s: State, first: seq<Action>, next: seq<Action>, m: nat)
    requires Allowed(s, first, m) && Allowed(Exec(s, first), next, m)
    ensures Allowed(s, first + next, m)
    decreases |first|
  {
    if first == [] {
      assert [] + next == next;
    } else {
      assert (first + next)[1..] == first[1..] + next;
      AllowedJoin(Step(s, first[0]), first[1..], next, m);
    }
  }

  lemma {:induction false} AllowedMore(s: State, run: seq<Action>, m: nat, n: nat)
    requires Allowed(s, run, m) && m <= n
    ensures Allowed(s, run, n)
    decreases |run|
  {
    if run != [] {
      AllowedMore(Step(s, run[0]), run[1..], m, n);
    }
  }

  /** A thread's own actions make nobody else busy. */
  lemma BusyStep(s: State, a: Action, busy: set<nat>)
    requires Busy(s) <= busy && a.t in busy
    ensures Busy(Step(s, a)) <= busy
  {
    forall v | v in Busy(Step(s, a))
      ensures v in busy
    {
      if v != a.t {
        assert Stack(Step(s, a), v) == Stack(s, v);
      }
    }
  }

  lemma {:induction false} OneThreadAllowed(s: State, run: seq<Action>, t: nat, busy: set<nat>)
    requires t != 0 && t in busy && Busy(s) <= busy
    requires forall i :: 0 <= i < |run| ==> run[i].t == t
    ensures Allowed(s, run, |busy|) && Busy(Exec(s, run)) <= busy
    decreases |run|
  {
    SubsetSize(Busy(s), busy);
    if run != [] {
      BusyStep(s, run[0], busy);
      OneThreadAllowed(Step(s, run[0]), run[1..], t, busy);
    }
  }

  lemma {:induction false} AloneBy(t: nat, n: nat)
    ensures forall i :: 0 <= i < |Alone(t, n)| ==> Alone(t, n)[i].t == t
  {
    if n > 0 {
      AloneBy(t, n - 1);
    }
  }

  // ---------------------------------------------------------------- the limit

  function Threads(k: nat): (b: set<nat>)
    ensures |b| == k && forall t: nat :: t in b <==> 1 <= t <= k
  {
    if k == 0 then {} else Threads(k - 1) + {k}
  }

  /** Threads 1..k are in a hook, in the first k slots; nobody else has called one. */
  ghost predicate Filled(s: State, k: nat) {
    && k <= MAX_THREADS_IN_HOOK == |s.slots|
    && (forall j :: 0 <= j < |s.slots| ==> s.slots[j] == if j < k then j + 1 else 0)
    && (forall t: nat :: Stack(s, t) == if 1 <= t <= k then [Running] else [])
  }

  lemma {:induction false} FilledRun(k: nat) returns (run: seq<Action>)
    requires k <= MAX_THREADS_IN_HOOK
    ensures Filled(Exec(Init(), run), k) && Allowed(Init(), run, k)
  {
    if k == 0 {
      run := [];
      InitInv();
    } else {
      var before := FilledRun(k - 1);
      var next := FillOne(Exec(Init(), before), k);
      ExecJoin(Init(), before, next);
      AllowedMore(Init(), before, k - 1, k);
      AllowedJoin(Init(), before, next, k);
      run := before + next;
    }
  }

  lemma FillOne(s: State, k: nat) returns (run: seq<Action>)
    requires 1 <= k <= MAX_THREADS_IN_HOOK && Filled(s, k - 1)
    ensures Filled(Exec(s, run), k) && Allowed(s, run, k)
  {
    var enter := EnterAlone(s, k, [], k - 1);
    run := enter + Alone(k, 1);
    AloneBy(k, 1);
    FilledBusy(s, k - 1);
    OneThreadAllowed(s, run, k, Threads(k));
    ExecJoin(s, enter, Alone(k, 1));
    TakeSlot(s, k, Exec(s, enter));
  }

  lemma FilledBusy(s: State, k: nat)
    requires Filled(s, k)
    ensures Busy(s) <= Threads(k) <= Threads(k + 1)
  {
  }

  lemma TakeSlot(s: State, k: nat, s1: State)
    requires 1 <= k <= MAX_THREADS_IN_HOOK && Filled(s, k - 1) && s1 == WithStack(s, k, [] + [Claiming(k - 1)])
    ensures Filled(Exec(s1, Alone(k, 1)), k)
  {
    AdvanceTop(s1, k, [], Claiming(k - 1));
    AloneStep(s1, k, 1);
    assert [] + [Running] == [Running];
    var u := Exec(s1, Alone(k, 1));
    assert u == WithStack(s1.(slots := s1.slots[k - 1 := k]), k, [Running]);
    forall t: nat
      ensures Stack(u, t) == if 1 <= t <= k then [Running] else []
    {
      assert t != k ==> Stack(u, t) == Stack(s1, t) == Stack(s, t);
    }
  }

  /** All slots are taken and thread t, one more than there are slots, has just found that out. */
  ghost predicate FoundFull(s: State, t: nat) {
    && |s.slots| == MAX_THREADS_IN_HOOK && t == MAX_THREADS_IN_HOOK + 1 && t !in s.slots
    && Stack(s, t) == [Claiming(|s.slots|)]
    && Busy(s) <= Threads(t)
    && forall j :: 0 <= j < |s.slots| ==> s.slots[j] != 0
  }

  /** In a full table the claim of one more thread finds every slot taken. */
  lemma OneTooMany(s: State) returns (run: seq<Action>)
    requires Filled(s, MAX_THREADS_IN_HOOK)
    ensures Allowed(s, run, MAX_THREADS_IN_HOOK + 1) && FoundFull(Exec(s, run), MAX_THREADS_IN_HOOK + 1)
  {
    var n := MAX_THREADS_IN_HOOK;
    run := EnterAlone(s, n + 1, [], n);
    FilledBusy(s, n);
    OneThreadAllowed(s, run, n + 1, Threads(n + 1));
    assert [] + [Claiming(n)] == [Claiming(n)];
    FullIsFound(s, Exec(s, run));
  }

  lemma FullIsFound(s: State, u: State)
    requires Filled(s, MAX_THREADS_IN_HOOK)
    requires u == WithStack(s, MAX_THREADS_IN_HOOK + 1, [Claiming(MAX_THREADS_IN_HOOK)])
    requires Busy(u) <= Threads(MAX_THREADS_IN_HOOK + 1)
    ensures FoundFull(u, MAX_THREADS_IN_HOOK + 1)
  {
  }

  /** With one thread more than slots busy, a claim can fail. */
  lemma FailingRun() returns (run: seq<Action>)
    ensures Allowed(Init(), run, MAX_THREADS_IN_HOOK + 1)
    ensures FoundFull(Exec(Init(), run), MAX_THREADS_IN_HOOK + 1)
  {
    var n := MAX_THREADS_IN_HOOK;
    var fill := FilledRun(n);
    var enter := OneTooMany(Exec(Init(), fill));
    AllowedMore(Init(), fill, n, n + 1);
    AllowedJoin(Init(), fill, enter, n + 1);
    ExecJoin(Init(), fill, enter);
    run := fill + enter;
  }

  /** Every claim succeeds in all runs with at most m busy threads exactly when m is at most 128. */
  lemma ClaimsSucceedIff(m: nat)
    ensures (forall run :: Allowed(Init(), run, m) ==> !ClaimFailed(Exec(Init(), run)))
            <==> m <= MAX_THREADS_IN_HOOK
  {
    if m <= MAX_THREADS_IN_HOOK {
      forall run | Allowed(Init(), run, m)
        ensures !ClaimFailed(Exec(Init(), run))
      {
        AllowedMore(Init(), run, m, MAX_THREADS_IN_HOOK);
        GuardHolds(run);
      }
    } else {
      var run := FailingRun();
      AllowedMore(Init(), run, MAX_THREADS_IN_HOOK + 1, m);
      var t := MAX_THREADS_IN_HOOK + 1;
      assert Stack(Exec(Init(), run), t)[0].Claiming?;
      assert ClaimFailed(Exec(Init(), run));
    }
  }

  lemma RunUnguarded(s: State, t: nat, below: seq<Frame>)
    requires Stack(s, t) == below + [Claiming(|s.slots|)]
    ensures Exec(s, Alone(t, 1)) == WithStack(s, t, below + [Running])
  {
    AdvanceTop(s, t, below, Claiming(|s.slots|));
    AloneStep(s, t, 1);
  }

  /** From an unguarded hook on: another hook is entered, claims in vain, and runs as well. */
  lemma NestOnce(s: State, t: nat) returns (run: seq<Action>)
    requires t != 0 && t !in s.slots && Stack(s, t) == [Running] && forall j :: 0 <= j < |s.slots| ==> s.slots[j] != 0
    ensures forall i :: 0 <= i < |run| ==> run[i].t == t
    ensures Stack(Exec(s, run), t) == [Running, Running]
  {
    var enter := EnterAlone(s, t, [Running], |s.slots|);
    var s2 := Exec(s, enter);
    RunUnguarded(s2, t, [Running]);
    ExecJoin(s, enter, Alone(t, 1));
    AloneBy(t, 1);
    run := enter + Alone(t, 1);
  }

  lemma CallOnce(s: State, t: nat)
    requires Stack(s, t) == [Running, Running]
    ensures |Stack(Exec(s, [Call(t)]), t)| == 3
  {
    assert [Call(t)][1..] == [];
    assert Exec(s, [Call(t)]) == Exec(Step(s, Call(t)), []);
  }

  /** After a failed claim the hook runs unguarded, so a hook it calls tests as outside and runs too. */
  lemma NestTwice(s: State, t: nat) returns (run: seq<Action>)
    requires FoundFull(s, t)
    ensures |Stack(Exec(s, run), t)| == 3 && Allowed(s, run, t)
  {
    assert [] + [Claiming(|s.slots|)] == [Claiming(|s.slots|)];
    RunUnguarded(s, t, []);
    var s1 := Exec(s, Alone(t, 1));
    assert Stack(s1, t) == [Running];
    var nest := NestOnce(s1, t);
    CallOnce(Exec(s1, nest), t);
    ExecJoin(s1, nest, [Call(t)]);
    ExecJoin(s, Alone(t, 1), nest + [Call(t)]);
    AloneBy(t, 1);
    run := Alone(t, 1) + (nest + [Call(t)]);
    OneThreadAllowed(s, run, t, Threads(t));
  }

  ghost predicate NestedAtMostOnce(s: State) { forall t: nat :: t != 0 ==> |Stack(s, t)| <= 2 }

  /** Hooks nest at most one level deep in all runs with at most m busy threads exactly when m is at
      most 128. */
  lemma NestingBoundedIff(m: nat)
    ensures (forall run :: Allowed(Init(), run, m) ==> NestedAtMostOnce(Exec(Init(), run)))
            <==> m <= MAX_THREADS_IN_HOOK
  {
    if m <= MAX_THREADS_IN_HOOK {
      forall run | Allowed(Init(), run, m)
        ensures NestedAtMostOnce(Exec(Init(), run))
      {
        AllowedMore(Init(), run, m, MAX_THREADS_IN_HOOK);
        GuardHolds(run);
      }
    } else {
      var run := NestingRun(m);
    }
  }

  lemma NestingRun(m: nat) returns (run: seq<Action>)
    requires m > MAX_THREADS_IN_HOOK
    ensures Allowed(Init(), run, m) && !NestedAtMostOnce(Exec(Init(), run))
  {
    var n := MAX_THREADS_IN_HOOK + 1;
    var fail := FailingRun();
    var s := Exec(Init(), fail);
    var nest := NestTwice(s, n);
    run := fail + nest;
    ExecJoin(Init(), fail, nest);
    AllowedJoin(Init(), fail, nest, n);
    AllowedMore(Init(), run, n, m);
    assert |Stack(Exec(s, nest), n)| == 3;
  }
}
