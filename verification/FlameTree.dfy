/** The call-stack tree behind the flamegraph (agents/android/src/file_server.rs): what inserting
    weighted stacks builds, whatever the order. */
module FlameTree {

  import opened Counting
  import opened Options

  datatype Frame = Frame(name: string, samples: nat, children: map<string, Frame>)

  /** A collapsed stack, outermost function first, and how often it was seen. */
  datatype Stack = Stack(path: seq<string>, count: nat)

  function New(name: string): Frame { Frame(name, 0, map[]) }

  function Child(f: Frame, name: string): Frame {
    if name in f.children then f.children[name] else New(name)
  }

  /** The tree with `count` added along `path`; missing frames are created. */
  function Inserted(f: Frame, path: seq<string>, count: nat): Frame
    decreases |path|
  {
    var g := f.(samples := f.samples + count);
    if path == [] then g
    else g.(children := f.children[path[0] := Inserted(Child(f, path[0]), path[1..], count)])
  }

  function InsertedAll(f: Frame, stacks: seq<Stack>): Frame
    decreases |stacks|
  {
    if stacks == [] then f
    else InsertedAll(Inserted(f, stacks[0].path, stacks[0].count), stacks[1..])
  }

  /** The frame at a path. */
  function At(f: Frame, p: seq<string>): Option<Frame>
    decreases |p|
  {
    if p == [] then Some(f)
    else if p[0] in f.children then At(f.children[p[0]], p[1..])
    else None
  }

  function SamplesAt(f: Frame, p: seq<string>): nat {
    if At(f, p).Some? then At(f, p).value.samples else 0
  }

  /** Counts of the stacks that begin with p, together. */
  function PrefixSum(stacks: seq<Stack>, p: seq<string>): nat {
    if stacks == [] then 0
    else (if p <= stacks[0].path then stacks[0].count else 0) + PrefixSum(stacks[1..], p)
  }

  predicate HasPrefix(stacks: seq<Stack>, p: seq<string>) { exists s <- stacks :: p <= s.path }

  /** A frame that exists at p is named by the last step of p. */
  predicate NameFits(f: Frame, p: seq<string>) {
    p != [] && At(f, p).Some? ==> At(f, p).value.name == p[|p| - 1]
  }

  /** One insertion adds its count exactly at the prefixes of its path. */
  lemma {:induction false} InsertAt(f: Frame, path: seq<string>, count: nat, p: seq<string>)
    ensures var g := Inserted(f, path, count);
      && (At(g, p).Some? <==> At(f, p).Some? || p <= path)
      && SamplesAt(g, p) == SamplesAt(f, p) + (if p <= path then count else 0)
      && (NameFits(f, p) ==> NameFits(g, p))
    decreases |p|
  {
    if p != [] && path != [] && p[0] == path[0] {
      var child := Child(f, p[0]);
      InsertAt(child, path[1..], count, p[1..]);
      assert p <= path <==> p[1..] <= path[1..] by {
        assert p == [p[0]] + p[1..] && path == [path[0]] + path[1..];
      }
    }
  }

  lemma {:induction false} InsertAllAt(f: Frame, stacks: seq<Stack>, p: seq<string>)
    ensures var g := InsertedAll(f, stacks);
      && (At(g, p).Some? <==> At(f, p).Some? || HasPrefix(stacks, p))
      && SamplesAt(g, p) == SamplesAt(f, p) + PrefixSum(stacks, p)
      && (NameFits(f, p) ==> NameFits(g, p))
    decreases |stacks|
  {
    if stacks != [] {
      var s := stacks[0];
      InsertAt(f, s.path, s.count, p);
      InsertAllAt(Inserted(f, s.path, s.count), stacks[1..], p);
      assert stacks == [s] + stacks[1..];
    }
  }

  const ROOT_NAME := "all"

  function Tree(stacks: seq<Stack>): Frame { InsertedAll(New(ROOT_NAME), stacks) }

  /** The tree indexes the stacks: there is a frame at p exactly when p is empty or begins some stack,
      it is named after p, and it carries the sum of the counts of the stacks that begin with p. */
  lemma TreeIndexes(stacks: seq<Stack>, p: seq<string>)
    ensures At(Tree(stacks), p).Some? <==> p == [] || HasPrefix(stacks, p)
    ensures At(Tree(stacks), p).Some? ==> At(Tree(stacks), p).value.samples == PrefixSum(stacks, p)
    ensures At(Tree(stacks), p).Some? && p != [] ==> At(Tree(stacks), p).value.name == p[|p| - 1]
  {
    InsertAllAt(New(ROOT_NAME), stacks, p);
    assert At(New(ROOT_NAME), p).Some? <==> p == [];
  }

  lemma {:induction false} RootName(f: Frame, stacks: seq<Stack>)
    ensures InsertedAll(f, stacks).name == f.name
    decreases |stacks|
  {
    if stacks != [] {
      RootName(Inserted(f, stacks[0].path, stacks[0].count), stacks[1..]);
    }
  }

  // ---------------------------------------------------------------- order

  ghost predicate SameLabels(f: Frame, g: Frame) {
    forall p: seq<string> ::
      && (At(f, p).Some? <==> At(g, p).Some?)
      && (At(f, p).Some? ==> At(f, p).value.samples == At(g, p).value.samples
                             && At(f, p).value.name == At(g, p).value.name)
  }

  /** Trees with the same frames, names and samples at every path are the same tree. */
  lemma {:induction false} SameTree(f: Frame, g: Frame)
    requires SameLabels(f, g)
    ensures f == g
    decreases f
  {
    assert At(f, []).Some? && At(g, []).Some?;
    forall k: string
      ensures k in f.children <==> k in g.children
    {
      assert At(f, [k]).Some? <==> At(g, [k]).Some?;
      assert k in f.children ==> At(f, [k]) == At(f.children[k], []) by { assert [k][1..] == []; }
      assert k in g.children ==> At(g, [k]) == At(g.children[k], []) by { assert [k][1..] == []; }
    }
    forall k | k in f.children
      ensures f.children[k] == g.children[k]
    {
      forall p: seq<string>
        ensures At(f.children[k], p) == At(f, [k] + p) && At(g.children[k], p) == At(g, [k] + p)
      {
        assert ([k] + p)[1..] == p;
      }
      SameTree(f.children[k], g.children[k]);
    }
    assert f.children == g.children;
  }

  lemma {:induction false} PrefixSumSplit(a: seq<Stack>, b: seq<Stack>, p: seq<string>)
    ensures PrefixSum(a + b, p) == PrefixSum(a, p) + PrefixSum(b, p)
    decreases |a|
  {
    if a == [] {
      assert a + b == b;
    } else {
      assert (a + b)[1..] == a[1..] + b;
      PrefixSumSplit(a[1..], b, p);
    }
  }

  lemma PrefixSumWithout(b: seq<Stack>, i: nat, p: seq<string>)
    requires i < |b|
    ensures PrefixSum(b, p) == PrefixSum([b[i]], p) + PrefixSum(Without(b, i), p)
  {
    PrefixSumSplit(b[..i], [b[i]] + b[i + 1..], p);
    PrefixSumSplit([b[i]], b[i + 1..], p);
    PrefixSumSplit(b[..i], b[i + 1..], p);
    assert b == b[..i] + ([b[i]] + b[i + 1..]);
  }

  lemma {:induction false} PrefixSumOrder(a: seq<Stack>, b: seq<Stack>, p: seq<string>)
    requires multiset(a) == multiset(b)
    ensures PrefixSum(a, p) == PrefixSum(b, p)
    decreases |a|
  {
    if a == [] {
      assert |b| == |multiset(b)| == 0;
    } else {
      var i := FindFirst(a, b);
      WithoutCounts(a, 0);
      WithoutCounts(b, i);
      PrefixSumOrder(Without(a, 0), Without(b, i), p);
      PrefixSumWithout(a, 0, p);
      PrefixSumWithout(b, i, p);
    }
  }

  /** The same stacks in any order build the same tree. */
  lemma OrderIrrelevant(a: seq<Stack>, b: seq<Stack>)
    requires multiset(a) == multiset(b)
    ensures Tree(a) == Tree(b)
  {
    forall p: seq<string>
      ensures
        && (At(Tree(a), p).Some? <==> At(Tree(b), p).Some?)
        && (At(Tree(a), p).Some? ==> At(Tree(a), p).value.samples == At(Tree(b), p).value.samples
                                     && At(Tree(a), p).value.name == At(Tree(b), p).value.name)
    {
      TreeIndexes(a, p);
      TreeIndexes(b, p);
      PrefixSumOrder(a, b, p);
      RootName(New(ROOT_NAME), a);
      RootName(New(ROOT_NAME), b);
      assert forall s :: s in a <==> s in multiset(a);
      assert forall s :: s in b <==> s in multiset(b);
    }
    SameTree(Tree(a), Tree(b));
  }

  // ---------------------------------------------------------------- depth

  /** The deepest path has d - 1 steps. */
  ghost predicate IsDepth(f: Frame, d: nat) {
    && (exists p :: At(f, p).Some? && |p| + 1 == d)
    && (forall p :: At(f, p).Some? ==> |p| + 1 <= d)
  }

  method GetMaxDepth(f: Frame) returns (d: nat)
    ensures IsDepth(f, d)
    decreases f
  {
    var max := 0;
    var todo := f.children.Keys;
    ghost var deepest: seq<string> := [];
    while todo != {}
      invariant todo <= f.children.Keys
      invariant At(f, deepest).Some? && |deepest| == max
      invariant forall k, p: seq<string> :: k in f.children.Keys - todo && At(f.children[k], p).Some? ==> |p| + 1 <= max
      decreases |todo|
    {
      var k :| k in todo;
      var child := GetMaxDepth(f.children[k]);
      if child > max {
        max := child;
        ghost var p :| At(f.children[k], p).Some? && |p| + 1 == child;
        deepest := [k] + p;
        assert deepest[1..] == p;
      }
      todo := todo - {k};
    }
    d := max + 1;
    forall p: seq<string> | At(f, p).Some?
      ensures |p| + 1 <= d
    {
      if p != [] {
        assert At(f.children[p[0]], p[1..]).Some?;
      }
    }
  }

  /** The tree is one deeper than the longest stack. */
  lemma DepthOfTree(stacks: seq<Stack>, d: nat)
    requires IsDepth(Tree(stacks), d)
    ensures forall s <- stacks :: |s.path| + 1 <= d
    ensures d == 1 || exists s <- stacks :: |s.path| + 1 == d
  {
    forall s | s in stacks
      ensures |s.path| + 1 <= d
    {
      TreeIndexes(stacks, s.path);
    }
    var p :| At(Tree(stacks), p).Some? && |p| + 1 == d;
    TreeIndexes(stacks, p);
    if p != [] {
      var s :| s in stacks && p <= s.path;
      assert |s.path| + 1 <= d;
    }
  }
}
