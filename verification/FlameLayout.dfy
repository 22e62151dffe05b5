/** Where the flamegraph draws each frame of the tree (agents/android/src/file_server.rs). */
module FlameLayout {
  import opened Options
  import opened FlameTree

  // ---------------------------------------------------------------- samples shrink downwards

  /** Samples of the named children together; a missing child has none. */
  function ChildSum(f: Frame, names: seq<string>): nat {
    if names == [] then 0 else Child(f, names[0]).samples + ChildSum(f, names[1..])
  }

  predicate Distinct(names: seq<string>) {
    forall i, j :: 0 <= i < j < |names| ==> names[i] != names[j]
  }

  /** Everywhere in the tree, children have no more samples together than their parent. */
  ghost predicate Consistent(f: Frame)
    decreases f
  {
    && (forall names: seq<string> :: Distinct(names) ==> ChildSum(f, names) <= f.samples)
    && (forall k <- f.children :: Consistent(f.children[k]))
  }

  lemma {:induction false} ChildSumInserted(f: Frame, path: seq<string>, count: nat, names: seq<string>)
    requires path != [] && Distinct(names)
    ensures ChildSum(Inserted(f, path, count), names)
            == ChildSum(f, names) + if path[0] in names then count else 0
    decreases |names|
  {
    if names != [] {
      var rest := names[1..];
      ChildSumInserted(f, path, count, rest);
      var g := Inserted(f, path, count);
      if names[0] == path[0] {
        assert forall i :: 0 <= i < |rest| ==> rest[i] == names[i + 1];
        assert path[0] !in rest;
        assert Child(g, path[0]).samples == Child(f, path[0]).samples + count;
      } else {
        assert Child(g, names[0]) == Child(f, names[0]);
        assert path[0] in names <==> path[0] in rest;
      }
    }
  }

  lemma {:induction false} NewConsistent(name: string, names: seq<string>)
    ensures ChildSum(New(name), names) == 0
    decreases |names|
  {
    if names != [] {
      NewConsistent(name, names[1..]);
    }
  }

  lemma {:induction false} InsertedConsistent(f: Frame, path: seq<string>, count: nat)
    requires Consistent(f)
    ensures Consistent(Inserted(f, path, count))
    decreases |path|
  {
    var g := Inserted(f, path, count);
    if path != [] {
      forall names: seq<string> | Distinct(names)
        ensures ChildSum(g, names) <= g.samples
      {
        ChildSumInserted(f, path, count, names);
      }
      var child := Child(f, path[0]);
      assert Consistent(child) by {
        forall names: seq<string> ensures ChildSum(New(path[0]), names) == 0 { NewConsistent(path[0], names); }
      }
      InsertedConsistent(child, path[1..], count);
    } else {
      forall names: seq<string> | Distinct(names)
        ensures ChildSum(g, names) <= g.samples
      {
        SameChildren(f, g, names);
      }
    }
  }

  lemma {:induction false} SameChildren(f: Frame, g: Frame, names: seq<string>)
    requires f.children == g.children
    ensures ChildSum(f, names) == ChildSum(g, names)
    decreases |names|
  {
    if names != [] {
      SameChildren(f, g, names[1..]);
    }
  }

  lemma {:induction false} TreeConsistent(f: Frame, stacks: seq<Stack>)
    requires Consistent(f)
    ensures Consistent(InsertedAll(f, stacks))
    decreases |stacks|
  {
    if stacks != [] {
      InsertedConsistent(f, stacks[0].path, stacks[0].count);
      TreeConsistent(Inserted(f, stacks[0].path, stacks[0].count), stacks[1..]);
    }
  }

  // ---------------------------------------------------------------- intervals

  datatype Interval = Interval(left: real, width: real)
  {
    function Right(): real { left + width }
  }

  predicate Inside(a: Interval, b: Interval) { b.left <= a.left && a.Right() <= b.Right() }

  predicate Apart(a: Interval, b: Interval) { a.Right() <= b.left || b.Right() <= a.left }

  type Rects = map<seq<string>, Interval>

  /** The width of a frame of n samples: its share of the total, times the total width. */
  function Width(n: nat, total: nat, width: real): real
    requires total > 0
  {
    (n as real / total as real) * width
  }

  lemma WidthAdds(a: nat, b: nat, total: nat, width: real)
    requires total > 0 && width >= 0.0
    ensures Width(a + b, total, width) == Width(a, total, width) + Width(b, total, width)
    ensures Width(a, total, width) >= 0.0
    ensures a <= b ==> Width(a, total, width) <= Width(b, total, width)
    ensures Width(0, total, width) == 0.0
    ensures Width(total, total, width) == width
  {
    var t := total as real;
    assert (a + b) as real / t == a as real / t + b as real / t;
    assert a as real / t >= 0.0;
    if a <= b {
      assert b as real / t - a as real / t == (b - a) as real / t;
      assert (b - a) as real / t >= 0.0;
      assert (b as real / t - a as real / t) * width >= 0.0;
    }
  }

  // ---------------------------------------------------------------- children in name order

  /** The order of names that the children are sorted by. */
  predicate Before(a: string, b: string) {
    if b == [] then false
    else if a == [] then true
    else if a[0] != b[0] then a[0] < b[0]
    else Before(a[1..], b[1..])
  }

  /** Alphabetical order: after a common start, the end of a name or the smaller letter comes first. */
  lemma {:induction false} BeforeIs(common: string, u: string, v: string)
    ensures Before(common + u, common + v) <==> Before(u, v)
    ensures u != [] && v != [] && u[0] != v[0] ==> (Before(common + u, common + v) <==> u[0] < v[0])
    ensures v != [] ==> Before(common, common + v) && !Before(common + v, common)
    decreases |common|
  {
    if common == [] {
      assert common + u == u && common + v == v;
    } else {
      BeforeIs(common[1..], u, v);
      assert (common + u)[1..] == common[1..] + u && (common + v)[1..] == common[1..] + v;
    }
  }

  lemma {:induction false} BeforeTotal(a: string, b: string)
    ensures a == b ==> !Before(a, b)
    ensures a != b ==> Before(a, b) != Before(b, a)
    decreases |a|
  {
    if a != [] && b != [] && a[0] == b[0] {
      BeforeTotal(a[1..], b[1..]);
      assert a == [a[0]] + a[1..] && b == [b[0]] + b[1..];
    }
  }

  lemma {:induction false} BeforeTransitive(a: string, b: string, c: string)
    requires Before(a, b) && Before(b, c)
    ensures Before(a, c)
    decreases |a|
  {
    if a != [] && a[0] == b[0] && b[0] == c[0] {
      BeforeTransitive(a[1..], b[1..], c[1..]);
    }
  }

  lemma {:induction false} FirstExists(names: set<string>)
    requires names != {}
    ensures exists k :: k in names && forall j :: j in names && j != k ==> Before(k, j)
    decreases |names|
  {
    var k :| k in names;
    var rest := names - {k};
    if rest == {} {
      assert names == rest + {k};
    } else {
      FirstExists(rest);
      var m :| m in rest && forall j :: j in rest && j != m ==> Before(m, j);
      BeforeTotal(k, m);
      if Before(k, m) {
        forall j | j in names && j != k
          ensures Before(k, j)
        {
          if j != m {
            BeforeTransitive(k, m, j);
          }
        }
      } else {
        assert forall j :: j in names && j != m ==> Before(m, j);
      }
    }
  }

  // ---------------------------------------------------------------- the layout

  /** The frame at q is wide enough to be drawn. */
  predicate Shown(f: Frame, q: seq<string>, total: nat, width: real) {
    At(f, q).Some? && At(f, q).value.samples > 0 && total > 0 && Width(At(f, q).value.samples, total, width) >= 0.5
  }

  ghost predicate ParentsHold(rects: Rects) {
    forall q <- rects :: q != [] ==> q[..|q| - 1] in rects && Inside(rects[q], rects[q[..|q| - 1]])
  }

  ghost predicate LevelsApart(rects: Rects) {
    forall q <- rects, r <- rects :: q != r && |q| == |r| ==> Apart(rects[q], rects[r])
  }

  ghost predicate KeysAre(f: Frame, total: nat, width: real, done: set<string>, rects: Rects) {
    forall q :: q in rects <==> q == [] || (q[0] in done && Shown(f, q, total, width))
  }

  ghost predicate WidthsAre(f: Frame, total: nat, width: real, rects: Rects)
    requires total > 0
  {
    forall q <- rects :: rects[q].width == Width(SamplesAt(f, q), total, width)
  }

  /** Siblings are drawn from left to right in the order of their names. */
  ghost predicate InNameOrder(rects: Rects) {
    forall p: seq<string>, j, k ::
      p + [j] in rects && p + [k] in rects && Before(j, k) ==> rects[p + [j]].Right() <= rects[p + [k]].left
  }

  /** The child k of g stands right of the edge of g by the width of the siblings `names` that come
      before it, whether they are drawn or not. */
  ghost predicate PlacedAt(g: Frame, k: string, edge: real, left: real, total: nat, width: real, names: seq<string>)
    requires total > 0
  {
    && Distinct(names)
    && (forall j :: j in names <==> j in g.children && Before(j, k))
    && left == edge + Width(ChildSum(g, names), total, width)
  }

  ghost predicate HasPlace(g: Frame, k: string, edge: real, left: real, total: nat, width: real)
    requires total > 0
  {
    exists names :: PlacedAt(g, k, edge, left, total, width, names)
  }

  function Up(q: seq<string>): seq<string>
    requires q != []
  {
    q[..|q| - 1]
  }

  ghost predicate PlacedOne(f: Frame, total: nat, width: real, rects: Rects, q: seq<string>)
    requires total > 0 && q in rects
  {
    q != [] ==>
      && Up(q) in rects && At(f, Up(q)).Some?
      && HasPlace(At(f, Up(q)).value, q[|q| - 1], rects[Up(q)].left, rects[q].left, total, width)
  }

  ghost predicate Placed(f: Frame, total: nat, width: real, rects: Rects)
    requires total > 0
  {
    forall q <- rects :: PlacedOne(f, total, width, rects, q)
  }

  /** Rectangles of the tree f drawn from x on, one for each frame that is wide enough: as wide as
      its samples, inside its parent's, apart from all others on its level, siblings by name and each
      right of its parent's edge by exactly the width of the siblings before it. */
  ghost predicate Layout(f: Frame, x: real, total: nat, width: real, rects: Rects)
    requires total > 0
  {
    && (forall q :: q in rects <==> Shown(f, q, total, width))
    && WidthsAre(f, total, width, rects)
    && (forall q <- rects :: Inside(rects[q], Interval(x, Width(f.samples, total, width))))
    && ([] in rects ==> rects[[]].left == x)
    && ParentsHold(rects) && LevelsApart(rects) && InNameOrder(rects) && Placed(f, total, width, rects)
  }

  /** The rectangles of a child, named from its parent. */
  function Below(k: string, rects: Rects): (r: Rects)
    ensures forall q :: q in r <==> q != [] && q[0] == k && q[1..] in rects
    ensures forall q <- r :: r[q] == rects[q[1..]]
  {
    assert forall q :: q != [] && q[0] == k && q[1..] in rects ==> q == [k] + q[1..];
    map q | q in (set p <- rects :: [k] + p) && q != [] && q[0] == k && q[1..] in rects :: rects[q[1..]]
  }

  /** The layout while the children in `done` are drawn and the next one starts at `next`. */
  ghost predicate Partial(f: Frame, x: real, total: nat, width: real, done: set<string>, next: real, rects: Rects)
    requires total > 0
  {
    && KeysAre(f, total, width, done, rects)
    && WidthsAre(f, total, width, rects)
    && rects[[]].left == x
    && (forall q <- rects :: q != [] ==> x <= rects[q].left && rects[q].Right() <= next)
    && next <= x + Width(f.samples, total, width)
    && ParentsHold(rects) && LevelsApart(rects) && InNameOrder(rects) && Placed(f, total, width, rects)
  }

  lemma ChildShown(f: Frame, q: seq<string>, total: nat, width: real)
    requires q != [] && q[0] in f.children
    ensures Shown(f, q, total, width) <==> Shown(f.children[q[0]], q[1..], total, width)
    ensures SamplesAt(f, q) == SamplesAt(f.children[q[0]], q[1..])
  {
  }

  /** Nothing below a frame has more samples than the frame. */
  lemma {:induction false} SamplesShrink(f: Frame, q: seq<string>)
    requires Consistent(f) && At(f, q).Some?
    ensures At(f, q).value.samples <= f.samples
    decreases |q|
  {
    if q != [] {
      SamplesShrink(f.children[q[0]], q[1..]);
      assert ChildSum(f, [q[0]]) == Child(f, q[0]).samples + ChildSum(f, [q[0]][1..]);
      assert Distinct([q[0]]);
    }
  }

  /** A frame too narrow to be drawn has nothing below it that is wide enough. */
  lemma NothingShown(f: Frame, q: seq<string>, total: nat, width: real)
    requires Consistent(f) && width >= 0.0 && !Shown(f, [], total, width)
    ensures !Shown(f, q, total, width)
  {
    if At(f, q).Some? && total > 0 {
      SamplesShrink(f, q);
      WidthAdds(At(f, q).value.samples, f.samples, total, width);
    }
  }

  lemma StartPartial(f: Frame, x: real, total: nat, width: real)
    requires total > 0 && width >= 0.0 && Shown(f, [], total, width)
    ensures Partial(f, x, total, width, {}, x, map[[] := Interval(x, Width(f.samples, total, width))])
  {
    WidthAdds(f.samples, 0, total, width);
  }

  lemma AddParents(a: Rects, k: string, c: Rects)
    requires ParentsHold(a) && ParentsHold(c) && [] in a
    requires forall q <- a :: q == [] || q[0] != k
    requires forall q <- c :: Inside(c[q], a[[]])
    ensures ParentsHold(a + Below(k, c))
  {
    var b := Below(k, c);
    var all := a + b;
    forall q | q in all && q != []
      ensures q[..|q| - 1] in all && Inside(all[q], all[q[..|q| - 1]])
    {
      var up := q[..|q| - 1];
      if q in b {
        if |q| == 1 {
          assert up == [];
        } else {
          assert up[1..] == q[1..][..|q| - 2];
          assert up in b && all[up] == c[up[1..]];
        }
      } else {
        assert up != [] ==> up[0] == q[0];
      }
    }
  }

  lemma AddLevels(a: Rects, k: string, c: Rects, next: real)
    requires LevelsApart(a) && LevelsApart(c)
    requires forall q <- a :: q != [] ==> q[0] != k && a[q].Right() <= next
    requires forall q <- c :: next <= c[q].left
    ensures LevelsApart(a + Below(k, c))
  {
    var b := Below(k, c);
    var all := a + b;
    forall q, r | q in all && r in all && q != r && |q| == |r|
      ensures Apart(all[q], all[r])
    {
      if q in b && r in b {
        assert q[1..] != r[1..] by { assert q == [k] + q[1..] && r == [k] + r[1..]; }
      }
    }
  }

  lemma AddNames(a: Rects, k: string, c: Rects, next: real, done: set<string>)
    requires InNameOrder(a) && InNameOrder(c) && k !in done
    requires forall q <- a :: q != [] ==> q[0] in done && a[q].Right() <= next
    requires forall q <- c :: next <= c[q].left
    requires forall j <- done :: Before(j, k)
    ensures InNameOrder(a + Below(k, c))
  {
    var b := Below(k, c);
    var all := a + b;
    forall p: seq<string>, i, j | p + [i] in all && p + [j] in all && Before(i, j)
      ensures all[p + [i]].Right() <= all[p + [j]].left
    {
      if p == [] {
        assert (p + [i])[0] == i && (p + [j])[0] == j;
        BeforeTotal(i, j);
        if i == k {
          BeforeTotal(k, j);
          assert false;
        }
      } else {
        assert (p + [i])[0] == p[0] == (p + [j])[0];
        if p[0] == k {
          assert (p + [i])[1..] == p[1..] + [i] && (p + [j])[1..] == p[1..] + [j];
        }
      }
    }
  }

  lemma AddChild(f: Frame, x: real, total: nat, width: real, done: set<string>, next: real, rects: Rects,
                 k: string, childRects: Rects)
    requires total > 0 && width >= 0.0 && Partial(f, x, total, width, done, next, rects)
    requires k in f.children && k !in done && forall j <- done :: Before(j, k)
    requires HasPlace(f, k, x, next, total, width)
    requires Layout(f.children[k], next, total, width, childRects) && x <= next
    requires next + Width(f.children[k].samples, total, width) <= x + Width(f.samples, total, width)
    ensures Partial(f, x, total, width, done + {k}, next + Width(f.children[k].samples, total, width),
                    rects + Below(k, childRects))
  {
    var w := Width(f.children[k].samples, total, width);
    assert w >= 0.0 by { WidthAdds(f.children[k].samples, 0, total, width); }
    assert [] in rects;
    AddBounds(x, next, w, rects, k, childRects);
    assert forall q <- childRects :: Inside(childRects[q], rects[[]]) && next <= childRects[q].left;
    AddShape(rects, k, childRects, next, done);
    AddKeys(f, total, width, done, rects, k, childRects);
    AddWidths(f, total, width, rects, k, childRects);
    AddPlaced(f, total, width, rects, k, childRects, next);
  }

  lemma AddShape(rects: Rects, k: string, childRects: Rects, next: real, done: set<string>)
    requires ParentsHold(rects) && LevelsApart(rects) && InNameOrder(rects) && [] in rects
    requires ParentsHold(childRects) && LevelsApart(childRects) && InNameOrder(childRects)
    requires forall q <- rects :: q != [] ==> q[0] in done && rects[q].Right() <= next
    requires forall q <- childRects :: Inside(childRects[q], rects[[]]) && next <= childRects[q].left
    requires k !in done && forall j <- done :: Before(j, k)
    ensures var all := rects + Below(k, childRects); ParentsHold(all) && LevelsApart(all) && InNameOrder(all)
  {
    AddParents(rects, k, childRects);
    AddLevels(rects, k, childRects, next);
    AddNames(rects, k, childRects, next, done);
  }

  lemma AddPlaced(f: Frame, total: nat, width: real, rects: Rects, k: string, childRects: Rects, next: real)
    requires total > 0 && k in f.children && [] in rects && forall q <- rects :: q == [] || q[0] != k
    requires Placed(f, total, width, rects) && Placed(f.children[k], total, width, childRects)
    requires HasPlace(f, k, rects[[]].left, next, total, width)
    requires [] in childRects ==> childRects[[]].left == next
    ensures Placed(f, total, width, rects + Below(k, childRects))
  {
    var all := rects + Below(k, childRects);
    forall q | q in all
      ensures PlacedOne(f, total, width, all, q)
    {
      if q in rects {
        PlacedBefore(f, total, width, rects, k, childRects, q);
      } else if q == [k] {
        assert q[1..] == [] && Up(q) == [];
      } else {
        PlacedBelow(f, total, width, rects, k, childRects, q);
      }
    }
  }

  lemma PlacedBefore(f: Frame, total: nat, width: real, rects: Rects, k: string, childRects: Rects, q: seq<string>)
    requires total > 0 && q in rects && forall r <- rects :: r == [] || r[0] != k
    requires PlacedOne(f, total, width, rects, q)
    ensures PlacedOne(f, total, width, rects + Below(k, childRects), q)
  {
    var all := rects + Below(k, childRects);
    assert all[q] == rects[q];
    if q != [] {
      assert all[Up(q)] == rects[Up(q)];
    }
  }

  lemma PlacedBelow(f: Frame, total: nat, width: real, rects: Rects, k: string, childRects: Rects, q: seq<string>)
    requires total > 0 && k in f.children && q in Below(k, childRects) && q[1..] != []
    requires PlacedOne(f.children[k], total, width, childRects, q[1..])
    ensures PlacedOne(f, total, width, rects + Below(k, childRects), q)
  {
    var up := Up(q);
    assert up != [] && up[0] == k && up[1..] == Up(q[1..]);
    assert up in Below(k, childRects);
    assert At(f, up) == At(f.children[k], up[1..]);
  }

  lemma AddBounds(x: real, next: real, w: real, rects: Rects, k: string, childRects: Rects)
    requires x <= next && w >= 0.0 && [] in rects && rects[[]].left == x
    requires forall q <- rects :: q != [] ==> x <= rects[q].left && rects[q].Right() <= next
    requires forall q <- childRects :: Inside(childRects[q], Interval(next, w))
    ensures var all := rects + Below(k, childRects);
      && [] in all && all[[]] == rects[[]]
      && forall q <- all :: q != [] ==> x <= all[q].left && all[q].Right() <= next + w
  {
    var b := Below(k, childRects);
    forall q | q in b
      ensures x <= b[q].left && b[q].Right() <= next + w
    {
      assert Inside(childRects[q[1..]], Interval(next, w));
    }
  }

  lemma AddKeys(f: Frame, total: nat, width: real, done: set<string>, rects: Rects, k: string, childRects: Rects)
    requires KeysAre(f, total, width, done, rects) && k in f.children && k !in done
    requires forall q :: q in childRects <==> Shown(f.children[k], q, total, width)
    ensures KeysAre(f, total, width, done + {k}, rects + Below(k, childRects))
  {
    var all := rects + Below(k, childRects);
    forall q: seq<string>
      ensures q in all <==> q == [] || (q[0] in done + {k} && Shown(f, q, total, width))
    {
      if q != [] && q[0] == k {
        ChildShown(f, q, total, width);
      }
    }
  }

  lemma AddWidths(f: Frame, total: nat, width: real, rects: Rects, k: string, childRects: Rects)
    requires total > 0 && WidthsAre(f, total, width, rects) && k in f.children
    requires WidthsAre(f.children[k], total, width, childRects)
    ensures WidthsAre(f, total, width, rects + Below(k, childRects))
  {
    var b := Below(k, childRects);
    forall q | q in b
      ensures b[q].width == Width(SamplesAt(f, q), total, width)
    {
      ChildShown(f, q, total, width);
    }
  }

  lemma {:induction false} ChildSumAppend(f: Frame, names: seq<string>, k: string)
    ensures ChildSum(f, names + [k]) == ChildSum(f, names) + Child(f, k).samples
    decreases |names|
  {
    if names == [] {
      assert [k][1..] == [];
      assert [] + [k] == [k];
    } else {
      assert (names + [k])[1..] == names[1..] + [k];
      ChildSumAppend(f, names[1..], k);
    }
  }

  lemma FinishLayout(f: Frame, x: real, total: nat, width: real, next: real, rects: Rects)
    requires total > 0 && Shown(f, [], total, width)
    requires Partial(f, x, total, width, f.children.Keys, next, rects)
    ensures Layout(f, x, total, width, rects)
  {
    assert forall q: seq<string> :: q != [] && Shown(f, q, total, width) ==> q[0] in f.children;
  }

  /** The children drawn so far come first by name. */
  ghost predicate Progress(all: set<string>, todo: set<string>, names: seq<string>) {
    && todo <= all && Distinct(names)
    && (forall k :: k in names <==> k in all - todo)
    && (forall j <- all - todo, k <- todo :: Before(j, k))
  }

  lemma OneMoreName(all: set<string>, todo: set<string>, names: seq<string>, k: string)
    requires Progress(all, todo, names) && k in todo && forall j :: j in todo && j != k ==> Before(k, j)
    ensures Progress(all, todo - {k}, names + [k])
    ensures all - (todo - {k}) == (all - todo) + {k}
  {
    assert all - (todo - {k}) == (all - todo) + {k};
    var more := names + [k];
    assert k !in names;
    forall i, j | 0 <= i < j < |more|
      ensures more[i] != more[j]
    {
      assert more[i] == names[i] && names[i] in names;
    }
    forall x
      ensures x in more <==> x in all - (todo - {k})
    {
      assert x in more <==> x in names || x == k;
    }
  }

  /** The children drawn so far come first by name, and the next one starts where they end. */
  ghost predicate Drawing(f: Frame, x: real, total: nat, width: real, todo: set<string>, names: seq<string>,
                          next: real, rects: Rects)
    requires total > 0
  {
    && Progress(f.children.Keys, todo, names)
    && next == x + Width(ChildSum(f, names), total, width)
    && Partial(f, x, total, width, f.children.Keys - todo, next, rects)
  }

  lemma ChildFits(f: Frame, names: seq<string>, k: string)
    requires Consistent(f) && k in f.children && k !in names && Distinct(names)
    ensures Distinct(names + [k])
    ensures ChildSum(f, names + [k]) == ChildSum(f, names) + f.children[k].samples <= f.samples
  {
    ChildSumAppend(f, names, k);
  }

  /** The samples of the drawn children and one more still fit the parent. */
  lemma RoomForChild(f: Frame, x: real, total: nat, width: real, names: seq<string>, k: string)
    requires total > 0 && width >= 0.0 && Consistent(f) && k in f.children && k !in names && Distinct(names)
    ensures Distinct(names + [k]) && f.children[k].samples <= f.samples
    ensures Width(ChildSum(f, names + [k]), total, width)
            == Width(ChildSum(f, names), total, width) + Width(f.children[k].samples, total, width)
    ensures Width(ChildSum(f, names + [k]), total, width) <= Width(f.samples, total, width)
    ensures Width(ChildSum(f, names), total, width) >= 0.0
  {
    ChildFits(f, names, k);
    var sum, more := ChildSum(f, names), f.children[k].samples;
    WidthAdds(sum, more, total, width);
    WidthAdds(sum + more, f.samples, total, width);
  }

  lemma NextPlaced(f: Frame, x: real, total: nat, width: real, todo: set<string>, names: seq<string>, next: real, k: string)
    requires total > 0 && Progress(f.children.Keys, todo, names)
    requires next == x + Width(ChildSum(f, names), total, width)
    requires k in todo && forall j :: j in todo && j != k ==> Before(k, j)
    ensures HasPlace(f, k, x, next, total, width)
  {
    forall j
      ensures j in names <==> j in f.children && Before(j, k)
    {
      BeforeTotal(j, k);
    }
    assert PlacedAt(f, k, x, next, total, width, names);
  }

  lemma DrawnOne(f: Frame, x: real, total: nat, width: real, todo: set<string>, names: seq<string>,
                 next: real, rects: Rects, k: string, childRects: Rects)
    requires total > 0 && width >= 0.0 && Consistent(f) && Drawing(f, x, total, width, todo, names, next, rects)
    requires k in todo && forall j :: j in todo && j != k ==> Before(k, j)
    requires Layout(f.children[k], next, total, width, childRects)
    ensures Drawing(f, x, total, width, todo - {k}, names + [k],
                    next + Width(f.children[k].samples, total, width), rects + Below(k, childRects))
  {
    var done := f.children.Keys - todo;
    RoomForChild(f, x, total, width, names, k);
    NextPlaced(f, x, total, width, todo, names, next, k);
    AddChild(f, x, total, width, done, next, rects, k, childRects);
    OneMoreName(f.children.Keys, todo, names, k);
  }

  /** Draws a frame and its children from left to right; a frame that is too narrow is skipped with
      all that is below it, but its share of the width is left free. */
  method RenderNode(f: Frame, x: real, total: nat, width: real) returns (rects: Rects)
    requires Consistent(f) && f.samples <= total && width >= 0.0
    ensures total == 0 ==> rects == map[]
    ensures total > 0 ==> Layout(f, x, total, width, rects)
    decreases f
  {
    if f.samples == 0 || Width(f.samples, total, width) < 0.5 {
      forall q: seq<string> ensures !Shown(f, q, total, width) { NothingShown(f, q, total, width); }
      return map[];
    }
    rects := map[[] := Interval(x, Width(f.samples, total, width))];
    var childX := x;
    var todo := f.children.Keys;
    ghost var names: seq<string> := [];
    StartPartial(f, x, total, width);
    WidthAdds(0, 0, total, width);
    assert f.children.Keys - todo == {};
    while todo != {}
      invariant Drawing(f, x, total, width, todo, names, childX, rects)
      decreases |todo|
    {
      FirstExists(todo);
      var k :| k in todo && forall j :: j in todo && j != k ==> Before(k, j);
      var child := f.children[k];
      RoomForChild(f, x, total, width, names, k);
      var childRects := RenderNode(child, childX, total, width);
      DrawnOne(f, x, total, width, todo, names, childX, rects, k, childRects);
      names := names + [k];
      rects := rects + Below(k, childRects);
      childX := childX + Width(child.samples, total, width);
      todo := todo - {k};
    }
    assert f.children.Keys - todo == f.children.Keys;
    FinishLayout(f, x, total, width, childX, rects);
  }

  /** The drawing of any collapsed stacks: the root takes the whole width from 0. */
  method RenderTree(stacks: seq<Stack>, width: real) returns (rects: Rects)
    requires width >= 0.0
    ensures Tree(stacks).samples == 0 ==> rects == map[]
    ensures Tree(stacks).samples > 0 ==> Layout(Tree(stacks), 0.0, Tree(stacks).samples, width, rects)
  {
    TreeConsistent(New(ROOT_NAME), stacks) by { RootConsistent(); }
    rects := RenderNode(Tree(stacks), 0.0, Tree(stacks).samples, width);
  }

  lemma RootConsistent()
    ensures Consistent(New(ROOT_NAME))
  {
    forall names: seq<string> ensures ChildSum(New(ROOT_NAME), names) == 0 { NewConsistent(ROOT_NAME, names); }
  }

  // ---------------------------------------------------------------- the picture

  const FRAME_HEIGHT := 20
  const HEADING := 25

  /** The picture is as high as the depth of the tree asks for. */
  function PictureHeight(depth: nat): nat { (depth + 1) * FRAME_HEIGHT + 50 }

  /** The top of the frame at q: the root stands at the bottom, each level one frame higher. */
  function Top(depth: nat, q: seq<string>): int { PictureHeight(depth) - FRAME_HEIGHT - 10 - |q| * FRAME_HEIGHT }

  /** Every frame of the tree fits between the heading and the bottom of the picture, however deep. */
  lemma PictureHoldsAll(f: Frame, depth: nat, q: seq<string>)
    requires IsDepth(f, depth) && At(f, q).Some?
    ensures HEADING < Top(depth, q) && Top(depth, q) + FRAME_HEIGHT <= PictureHeight(depth)
    ensures exists p :: At(f, p).Some? && Top(depth, p) == 3 * FRAME_HEIGHT
  {
    var p :| At(f, p).Some? && |p| + 1 == depth;
    assert Top(depth, p) == 3 * FRAME_HEIGHT;
  }
}
