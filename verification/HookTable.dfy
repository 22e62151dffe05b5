/** The slot table as the hooks use it, and the exits of a hook: the scans written as the loops they
    are, for a thread that is not disturbed meanwhile. */
module HookTable {
  import opened HookGuard
  import opened HookTheorems

  /** The first free slot, or the number of slots when none is free. */
  function FirstFree(slots: seq<nat>): (f: nat)
    ensures f <= |slots| && (f < |slots| ==> slots[f] == 0)
    ensures forall i :: 0 <= i < f ==> slots[i] != 0
  {
    if slots == [] || slots[0] == 0 then 0 else 1 + FirstFree(slots[1..])
  }

  lemma {:induction false} FirstFreeIs(slots: seq<nat>, f: nat)
    requires f <= |slots| && (f < |slots| ==> slots[f] == 0)
    requires forall i :: 0 <= i < f ==> slots[i] != 0
    ensures FirstFree(slots) == f
  {
    if f > 0 {
      FirstFreeIs(slots[1..], f - 1);
    }
  }

  function Claimed(slots: seq<nat>, tid: nat): seq<nat> {
    var f := FirstFree(slots);
    if f < |slots| then slots[f := tid] else slots
  }

  function Released(slots: seq<nat>, tid: nat): seq<nat> {
    seq(|slots|, i requires 0 <= i < |slots| => if slots[i] == tid then 0 else slots[i])
  }

  /** A release undoes the claim of a thread that was not in the table, whether or not it got a slot. */
  lemma ReleaseUndoesClaim(slots: seq<nat>, tid: nat)
    requires tid !in slots && tid != 0
    ensures Released(Claimed(slots, tid), tid) == slots
  {
  }

  lemma OneAlone(s: State, t: nat)
    ensures Exec(s, Alone(t, 1)) == Step(s, Advance(t))
  {
    AloneStep(s, t, 1);
  }

  /** The last step of a claim: the first free slot is taken, if there is one. */
  lemma ClaimLands(s: State, t: nat, f: nat)
    requires t != 0 && f == FirstFree(s.slots) && Stack(s, t) == [] + [Claiming(f)]
    ensures Step(s, Advance(t)) == WithStack(s.(slots := Claimed(s.slots, t)), t, [Running])
  {
    AdvanceTop(s, t, [], Claiming(f));
    assert [] + [Running] == [Running];
  }

  /** The interleaving machine agrees: a claim that nobody disturbs does to the slots what
      `SetInHook` does. */
  lemma UndisturbedClaim(s: State, t: nat)
    requires t != 0 && Stack(s, t) == [Claiming(0)]
    ensures var u := Exec(s, Alone(t, FirstFree(s.slots) + 1));
      u.slots == Claimed(s.slots, t) && Stack(u, t) == [Running]
  {
    var f := FirstFree(s.slots);
    assert [Claiming(0)] == [] + [Claiming(0)];
    var mid := WithStack(s, t, [] + [Claiming(f)]);
    ClaimAlone(s, t, [], 0, f);
    ClaimLands(mid, t, f);
    OneAlone(mid, t);
    ExecAlone(s, t, f, mid, 1, Step(mid, Advance(t)));
  }

  /** A release takes the thread out of the table, from wherever it is, and leaves all other slots. */
  lemma ReleaseFrees(slots: seq<nat>, tid: nat)
    requires tid != 0
    ensures var after := Released(slots, tid);
      && |after| == |slots| && tid !in after
      && forall i :: 0 <= i < |slots| ==> after[i] == if slots[i] == tid then 0 else slots[i]
  {
  }

  /** Slots below i freed, the others as they are: the table after i steps of a release. */
  function ReleasedUpto(slots: seq<nat>, tid: nat, i: nat): (r: seq<nat>)
    requires i <= |slots|
    ensures |r| == |slots|
  {
    Released(slots[..i], tid) + slots[i..]
  }

  /** The machine's release, undisturbed: one step a slot, then the activation returns. */
  lemma {:induction false} ReleaseAlone(s: State, t: nat, below: seq<Frame>, i: nat, slots: seq<nat>)
    requires t != 0 && i <= |slots| && Stack(s, t) == below + [Releasing(i)]
    requires s.slots == ReleasedUpto(slots, t, i)
    ensures Exec(s, Alone(t, |slots| - i + 1)) == WithStack(s.(slots := Released(slots, t)), t, below)
    decreases |slots| - i
  {
    AloneStep(s, t, |slots| - i + 1);
    AdvanceTop(s, t, below, Releasing(i));
    var u := Step(s, Advance(t));
    if i < |slots| {
      var next := ReleasedUpto(slots, t, i + 1);
      assert (if s.slots[i] == t then s.slots[i := 0] else s.slots) == next;
      ReleaseAlone(u, t, below, i + 1, slots);
      Overwrite(s.(slots := Released(slots, t)), t, below + [Releasing(i + 1)], below);
    } else {
      assert s.slots == Released(slots, t);
      assert below + [] == below;
    }
  }

  /** A release that nobody disturbs: the activation leaves the stack, the thread leaves the table,
      wherever in it it was, and no other slot changes. */
  lemma UndisturbedRelease(s: State, t: nat)
    requires t != 0 && Stack(s, t) == [Releasing(0)]
    ensures var u := Exec(s, Alone(t, |s.slots| + 1));
      && Stack(u, t) == [] && |u.slots| == |s.slots| && t !in u.slots
      && forall i :: 0 <= i < |s.slots| ==> u.slots[i] == if s.slots[i] == t then 0 else s.slots[i]
  {
    assert [Releasing(0)] == [] + [Releasing(0)];
    assert ReleasedUpto(s.slots, t, 0) == s.slots;
    ReleaseAlone(s, t, [], 0, s.slots);
    ReleaseFrees(s.slots, t);
  }

  /** A test by a thread whose slot is j, not passed yet, finds it. */
  lemma {:induction false} TestFinds(s: State, t: nat, below: seq<Frame>, i: nat, j: nat)
    requires t != 0 && i <= j < |s.slots| && s.slots[j] == t && Stack(s, t) == below + [Testing(i)]
    requires forall k :: i <= k < j ==> s.slots[k] != t
    ensures Exec(s, Alone(t, j - i + 1)) == WithStack(s, t, below + [Passing])
    decreases j - i
  {
    AloneStep(s, t, j - i + 1);
    AdvanceTop(s, t, below, Testing(i));
    if i < j {
      TestFinds(Step(s, Advance(t)), t, below, i + 1, j);
      Overwrite(s, t, below + [Testing(i + 1)], below + [Passing]);
    }
  }

  /** A hook called from a running hook, by a thread in the table: undisturbed it goes to the original
      and returns, and the table is untouched. */
  lemma UndisturbedNested(s: State, t: nat, below: seq<Frame>, j: nat)
    requires t != 0 && j < |s.slots| && s.slots[j] == t && forall k :: 0 <= k < j ==> s.slots[k] != t
    requires below != [] && below[|below| - 1] == Running && Stack(s, t) == below
    ensures var u := Exec(Step(s, Call(t)), Alone(t, j + 1 + 1)); u.slots == s.slots && Stack(u, t) == below
  {
    var s1 := WithStack(s, t, below + [Testing(0)]);
    var mid := WithStack(s1, t, below + [Passing]);
    assert Exec(s1, Alone(t, j + 1)) == mid by { TestFinds(s1, t, below, 0, j); }
    AdvanceTop(mid, t, below, Passing);
    assert below + [] == below;
    OneAlone(mid, t);
    ExecAlone(s1, t, j + 1, mid, 1, Step(mid, Advance(t)));
  }

  /** A hook from outside, undisturbed from the call to the return: the thread has been in the first
      free slot meanwhile, if there was one, and in the end the table is as it was before. */
  lemma UndisturbedHook(s: State, t: nat) returns (run: seq<Action>)
    requires t != 0 && t !in s.slots && Stack(s, t) == []
    ensures forall i :: 0 <= i < |run| ==> run[i].t == t
    ensures Exec(s, run).slots == s.slots && Stack(Exec(s, run), t) == []
  {
    var f := FirstFree(s.slots);
    var enter := EnterAlone(s, t, [], f);
    var s1 := Exec(s, enter);
    var leave := ClaimedThenReleased(s1, t, f);
    ExecJoin(s, enter, leave);
    run := enter + leave;
    ReleaseUndoesClaim(s.slots, t);
  }

  lemma ClaimedThenReleased(s: State, t: nat, f: nat) returns (run: seq<Action>)
    requires t != 0 && t !in s.slots && f == FirstFree(s.slots) && Stack(s, t) == [] + [Claiming(f)]
    ensures forall i :: 0 <= i < |run| ==> run[i].t == t
    ensures Exec(s, run).slots == Released(Claimed(s.slots, t), t) && Stack(Exec(s, run), t) == []
  {
    ClaimLands(s, t, f);
    var s1 := Step(s, Advance(t));
    FinishStarts(s1, t);
    var s2 := Step(s1, Finish(t));
    assert ReleasedUpto(s2.slots, t, 0) == s2.slots;
    ReleaseAlone(s2, t, [], 0, s2.slots);
    run := TwoThenAlone(s, t, |s2.slots| - 0 + 1);
  }

  lemma FinishStarts(s: State, t: nat)
    requires Stack(s, t) == [Running]
    ensures Step(s, Finish(t)) == WithStack(s, t, [] + [Releasing(0)])
  {
    assert [Running][..0] == [];
  }

  lemma TwoThenAlone(s: State, t: nat, n: nat) returns (run: seq<Action>)
    ensures forall i :: 0 <= i < |run| ==> run[i].t == t
    ensures Exec(s, run) == Exec(Step(Step(s, Advance(t)), Finish(t)), Alone(t, n))
  {
    var last := [Finish(t)] + Alone(t, n);
    run := [Advance(t)] + last;
    assert run[1..] == last && last[1..] == Alone(t, n);
    AloneBy(t, n);
  }

  datatype Outcome = CalledOriginal | Fallback

  class HookSlots {
    const slots: array<nat>

    constructor ()
      ensures fresh(slots) && slots[..] == Init().slots
    {
      slots := new nat[MAX_THREADS_IN_HOOK](_ => 0);
    }

    method IsInHook(tid: nat) returns (found: bool)
      ensures found <==> tid != 0 && tid in slots[..]
    {
      if tid == 0 {
        return false;
      }
      for i := 0 to slots.Length
        invariant tid !in slots[..i]
      {
        if slots[i] == tid {
          return true;
        }
      }
      assert slots[..slots.Length] == slots[..];
      return false;
    }

    method SetInHook(tid: nat, val: bool)
      modifies slots
      ensures tid == 0 ==> slots[..] == old(slots[..])
      ensures tid != 0 && val ==> slots[..] == Claimed(old(slots[..]), tid)
      ensures tid != 0 && !val ==> slots[..] == Released(old(slots[..]), tid)
      ensures tid != 0 && !val ==> tid !in slots[..]
      ensures tid != 0 && !val ==>
        forall i :: 0 <= i < slots.Length ==> slots[i] == if old(slots[i]) == tid then 0 else old(slots[i])
    {
      if tid == 0 {
        return;
      }
      if val {
        var i := 0;
        while i < slots.Length && slots[i] != 0
          invariant 0 <= i <= slots.Length && slots[..] == old(slots[..])
          invariant forall j :: 0 <= j < i ==> slots[j] != 0
        {
          i := i + 1;
        }
        FirstFreeIs(slots[..], i);
        if i < slots.Length {
          slots[i] := tid;
        }
      } else {
        for i := 0 to slots.Length
          invariant forall j :: 0 <= j < i ==> slots[j] == Released(old(slots[..]), tid)[j]
          invariant forall j :: i <= j < slots.Length ==> slots[j] == old(slots[j])
        {
          if slots[i] == tid {
            slots[i] := 0;
          }
        }
        assert slots[..] == Released(old(slots[..]), tid);
      }
    }

    /** A hook from entry to return. `known`: the original is already resolved; `resolves`: looking it
        up succeeds; `hasRaw`: the hook has a second choice when it does not (the macro hooks have,
        epoll_wait and syscall return an error instead). Every exit leaves the table as it was; only
        a hook inside a hook depends on the original being resolved before. */
    method RunHook(tid: nat, known: bool, resolves: bool, hasRaw: bool) returns (outcome: Outcome)
      modifies slots
      ensures slots[..] == old(slots[..])
      ensures outcome == CalledOriginal <==>
        known || ((tid == 0 || tid !in old(slots[..])) && (resolves || hasRaw))
    {
      var inHook := IsInHook(tid);
      if inHook {
        return if known then CalledOriginal else Fallback;
      }
      if tid != 0 {
        ReleaseUndoesClaim(slots[..], tid);
      }
      SetInHook(tid, true);
      if !known && !resolves && !hasRaw {
        SetInHook(tid, false);
        return Fallback;
      }
      outcome := CalledOriginal;
      SetInHook(tid, false);
    }
  }
}
