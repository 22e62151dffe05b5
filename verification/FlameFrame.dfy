/** The mutable call-stack tree: each frame owns its children, and inserting updates it in place. */
module FlameFrames {
  import opened Counting
  import opened Options
  import opened FlameTree

  class FlameFrame {
    const name: string
    var samples: nat
    var children: map<string, FlameFrame>
    ghost var Repr: set<object>
    ghost var View: Frame

    /** Children own disjoint sets of objects, and the view is the tree they form. */
    ghost predicate Valid()
      reads this, Repr
      decreases Repr
    {
      && this in Repr
      && (forall k <- children ::
            children[k] in Repr && children[k].Repr <= Repr && this !in children[k].Repr && children[k].Valid())
      && (forall j <- children, k <- children :: j != k ==> children[j].Repr !! children[k].Repr)
      && View.name == name && View.samples == samples && View.children.Keys == children.Keys
      && (forall k <- children :: View.children[k] == children[k].View)
    }

    constructor (name: string)
      ensures Valid() && fresh(Repr) && View == New(name)
    {
      this.name := name;
      samples, children := 0, map[];
      Repr, View := {this}, New(name);
    }

    /** `entry(name).or_insert_with(...)`: the child of that name, empty if it was missing. */
    method Entry(next: string) returns (child: FlameFrame)
      requires Valid()
      modifies this
      ensures Valid() && fresh(Repr - old(Repr)) && samples == old(samples)
      ensures next in children && child == children[next]
      ensures View == old(View).(children := old(View).children[next := Child(old(View), next)])
    {
      if next !in children {
        var created := new FlameFrame(next);
        children := children[next := created];
        Repr := Repr + created.Repr;
        View := View.(children := View.children[next := created.View]);
      } else {
        assert View.children[next := View.children[next]] == View.children;
      }
      child := children[next];
    }

    method AddSamples(count: nat)
      requires Valid()
      modifies this`samples, this`View
      ensures Valid() && View == old(View).(samples := old(View).samples + count)
    {
      samples := samples + count;
      View := View.(samples := samples);
    }

    method Insert(path: seq<string>, count: nat)
      requires Valid()
      modifies Repr
      ensures Valid() && fresh(Repr - old(Repr))
      ensures View == Inserted(old(View), path, count)
      decreases |path|, 1
    {
      AddSamples(count);
      if path != [] {
        var child := Entry(path[0]);
        ghost var entered := View;
        InsertBelow(path, count, child);
        InsertedStep(old(View), entered, path, count, View.children[path[0]]);
      }
    }

    method InsertBelow(path: seq<string>, count: nat, child: FlameFrame)
      requires Valid() && path != [] && path[0] in children && child == children[path[0]]
      modifies Repr
      ensures Valid() && fresh(Repr - old(Repr))
      ensures View == old(View).(children :=
        old(View).children[path[0] := Inserted(old(View).children[path[0]], path[1..], count)])
      decreases |path|, 0
    {
      ghost var mine, below := Repr, child.Repr;
      child.Insert(path[1..], count);
      assert forall k <- children :: k != path[0] ==>
        children[k].Valid() && children[k].Repr <= mine - below && View.children[k] == children[k].View;
      Settle(path[0]);
    }

    lemma InsertedStep(f: Frame, entered: Frame, path: seq<string>, count: nat, inserted: Frame)
      requires path != [] && inserted == Inserted(Child(f, path[0]), path[1..], count)
      requires entered == f.(samples := f.samples + count, children := f.children[path[0] := Child(f, path[0])])
      ensures Inserted(f, path, count) == entered.(children := entered.children[path[0] := inserted])
    {
      assert entered.children[path[0] := inserted] == f.children[path[0] := inserted];
    }

    /** Takes in what the child called `next` has become. */
    ghost method Settle(next: string)
      requires next in children
      requires this in Repr && View.name == name && View.samples == samples && View.children.Keys == children.Keys
      requires forall k <- children :: this !in children[k].Repr && children[k].Valid()
      requires forall j <- children, k <- children :: j != k ==> children[j].Repr !! children[k].Repr
      requires forall k <- children :: k != next ==> children[k].Repr <= Repr && View.children[k] == children[k].View
      modifies this`Repr, this`View
      ensures Valid() && Repr == old(Repr) + children[next].Repr
      ensures View == old(View).(children := old(View).children[next := children[next].View])
    {
      Repr := Repr + children[next].Repr;
      View := View.(children := View.children[next := children[next].View]);
    }
  }

  /** Text before the first separator, then the rest split likewise; an empty text is one empty part. */
  function Split(s: string, sep: char): (parts: seq<string>)
    ensures parts != []
  {
    if s == [] then [[]]
    else
      var rest := Split(s[1..], sep);
      if s[0] == sep then [[]] + rest else [[s[0]] + rest[0]] + rest[1..]
  }

  function Join(parts: seq<string>, sep: char): string
    requires parts != []
  {
    if |parts| == 1 then parts[0] else parts[0] + [sep] + Join(parts[1..], sep)
  }

  /** Splitting loses nothing, so different collapsed stacks are different paths. */
  lemma {:induction false} JoinSplit(s: string, sep: char)
    ensures Join(Split(s, sep), sep) == s
  {
    if s != [] {
      JoinSplit(s[1..], sep);
      var rest := Split(s[1..], sep);
      if s[0] == sep {
        assert ([[]] + rest)[1..] == rest;
      } else {
        var parts := [[s[0]] + rest[0]] + rest[1..];
        assert parts[1..] == rest[1..];
        assert |rest| > 1 ==> parts[0] + [sep] + Join(parts[1..], sep) == [s[0]] + Join(rest, sep);
      }
    }
  }

  predicate FreeOf(parts: seq<string>, sep: char) { forall i :: 0 <= i < |parts| ==> sep !in parts[i] }

  /** The parts are what stands between the separators: none contains one. */
  lemma {:induction false} SplitFree(s: string, sep: char)
    ensures FreeOf(Split(s, sep), sep)
  {
    if s != [] {
      SplitFree(s[1..], sep);
    }
  }

  lemma SplitHead(head: string, rest: string, sep: char)
    requires sep !in head
    ensures Split(head, sep) == [head]
    ensures Split(head + [sep] + rest, sep) == [head] + Split(rest, sep)
  {
    if head == [] {
      assert head + [sep] + rest == [sep] + rest;
    } else {
      assert forall i :: 0 <= i < |head[1..]| ==> head[1..][i] == head[i + 1];
      SplitHead(head[1..], rest, sep);
      assert (head + [sep] + rest)[1..] == head[1..] + [sep] + rest;
      assert [head[0]] + head[1..] == head;
    }
  }

  lemma {:induction false} SplitJoin(parts: seq<string>, sep: char)
    requires parts != [] && FreeOf(parts, sep)
    ensures Split(Join(parts, sep), sep) == parts
    decreases |parts|
  {
    if |parts| == 1 {
      SplitHead(parts[0], [], sep);
      assert parts == [parts[0]];
    } else {
      var rest := parts[1..];
      assert forall i :: 0 <= i < |rest| ==> rest[i] == parts[i + 1];
      SplitJoin(rest, sep);
      SplitHead(parts[0], Join(rest, sep), sep);
      assert parts == [parts[0]] + rest;
    }
  }

  /** Texts and nonempty lists of parts without a separator correspond one to one: a list is the split
      of a text exactly when the text is its join. */
  lemma SplitIff(s: string, parts: seq<string>, sep: char)
    ensures Split(s, sep) == parts <==> parts != [] && FreeOf(parts, sep) && Join(parts, sep) == s
  {
    JoinSplit(s, sep);
    SplitFree(s, sep);
    if parts != [] && FreeOf(parts, sep) {
      SplitJoin(parts, sep);
    }
  }

  /** A walk over a table of collapsed stacks, in some order of its keys. */
  function Stacks(order: seq<string>, collapsed: map<string, nat>): (r: seq<Stack>)
    ensures |r| == |order|
  {
    seq(|order|, i requires 0 <= i < |order| => StackOf(order[i], collapsed))
  }

  function StackOf(key: string, collapsed: map<string, nat>): Stack {
    Stack(Split(key, ';'), if key in collapsed then collapsed[key] else 0)
  }

  /** Each key's stack is its text split at the separators, with the key's count. */
  lemma StacksAre(order: seq<string>, collapsed: map<string, nat>, i: nat)
    requires multiset(order) == multiset(collapsed.Keys) && i < |order|
    ensures order[i] in collapsed && Stacks(order, collapsed)[i] == Stack(Split(order[i], ';'), collapsed[order[i]])
  {
    assert order[i] in multiset(order);
  }

  lemma StacksWithout(order: seq<string>, i: nat, collapsed: map<string, nat>)
    requires i < |order|
    ensures Stacks(Without(order, i), collapsed) == Without(Stacks(order, collapsed), i)
  {
    var all, rest := Stacks(order, collapsed), Without(order, i);
    forall j | 0 <= j < |rest|
      ensures Stacks(rest, collapsed)[j] == Without(all, i)[j]
    {
      WithoutAt(order, i, j);
      WithoutAt(all, i, j);
    }
  }

  lemma {:induction false} StacksOrder(a: seq<string>, b: seq<string>, collapsed: map<string, nat>)
    requires multiset(a) == multiset(b)
    ensures multiset(Stacks(a, collapsed)) == multiset(Stacks(b, collapsed))
    decreases |a|
  {
    if a == [] {
      assert |b| == |multiset(b)| == 0;
    } else {
      var i := FindFirst(a, b);
      WithoutCounts(a, 0);
      WithoutCounts(b, i);
      StacksOrder(Without(a, 0), Without(b, i), collapsed);
      StacksWithout(a, 0, collapsed);
      StacksWithout(b, i, collapsed);
      WithoutCounts(Stacks(a, collapsed), 0);
      WithoutCounts(Stacks(b, collapsed), i);
    }
  }

  /** The tree of a table of collapsed stacks; `order` is the walk that the table happens to give. */
  method BuildTree(order: seq<string>, collapsed: map<string, nat>) returns (root: FlameFrame)
    requires multiset(order) == multiset(collapsed.Keys)
    ensures root.Valid() && fresh(root.Repr)
    ensures root.View == Tree(Stacks(order, collapsed))
    ensures forall i :: 0 <= i < |order| ==>
      order[i] in collapsed && Stacks(order, collapsed)[i] == Stack(Split(order[i], ';'), collapsed[order[i]])
  {
    ghost var all := Stacks(order, collapsed);
    root := new FlameFrame(ROOT_NAME);
    assert all[0..] == all;
    for i := 0 to |order|
      invariant root.Valid() && fresh(root.Repr)
      invariant InsertedAll(root.View, all[i..]) == Tree(all)
    {
      StacksAre(order, collapsed, i);
      assert all[i..][1..] == all[i + 1..];
      root.Insert(Split(order[i], ';'), collapsed[order[i]]);
    }
    forall i | 0 <= i < |order|
      ensures order[i] in collapsed && all[i] == Stack(Split(order[i], ';'), collapsed[order[i]])
    {
      StacksAre(order, collapsed, i);
    }
  }

  /** A hash map is walked in no particular order; the tree does not depend on it. */
  lemma WalkOrderIrrelevant(a: seq<string>, b: seq<string>, collapsed: map<string, nat>)
    requires multiset(a) == multiset(collapsed.Keys) == multiset(b)
    ensures Tree(Stacks(a, collapsed)) == Tree(Stacks(b, collapsed))
  {
    StacksOrder(a, b, collapsed);
    OrderIrrelevant(Stacks(a, collapsed), Stacks(b, collapsed));
  }
}
