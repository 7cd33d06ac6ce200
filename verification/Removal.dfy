/** Top-down removal from the red-black tree. */
module Removal {
  import opened RedBlack

  predicate NotBelow<N>(s: seq<Item<N>>, x: nat) { forall k :: 0 <= k < |s| ==> s[k].lo >= x }

  lemma {:induction false} NotBelowCat<N>(a: seq<Item<N>>, b: seq<Item<N>>, x: nat)
    ensures NotBelow(a + b, x) <==> NotBelow(a, x) && NotBelow(b, x)
  {
    var s := a + b;
    assert forall k :: 0 <= k < |a| ==> s[k] == a[k];
    assert forall k :: 0 <= k < |b| ==> s[|a| + k] == b[k];
  }

  lemma {:induction false} NotBelowOne<N>(i: Item<N>, x: nat)
    ensures NotBelow([i], x) <==> i.lo >= x
  {
    assert [i][0] == i;
  }

  /** The node with address x is the one at hand, below it, or the last one left behind on a
      turn to the left. */
  predicate Around<N>(p: Path<N>, x: nat) {
    Below(Lefts(p), x) && NotBelow(Rights(p), x)
  }

  lemma {:induction false} AroundStep<N>(p: Path<N>, x: nat)
    requires |p| > 0
    ensures Around(p, x) <==>
      (Around(p[1..], x)
       && if p[0].right then Below(Items(p[0].other), x) && p[0].item.lo < x else NotBelow(Items(p[0].other), x) && p[0].item.lo >= x)
  {
    hide Below, NotBelow;
    var l, r, o, m := Lefts(p[1..]), Rights(p[1..]), Items(p[0].other), p[0].item;
    BoundsOne(m, x);
    BoundsCat(l + o, [m], x);
    BoundsCat(l, o, x);
    NotBelowOne(m, x);
    NotBelowCat([m] + o, r, x);
    NotBelowCat([m], o, x);
  }

  /** The side on which the search for x leaves a node. */
  predicate GoesRight<N>(q: Tree<N>, x: nat) { q.Node? && q.item.lo < x }

  // ---- pushing a red node down --------------------------------------------------------------

  /** In front of a visit: the node or the one above is red, or the one above is the root, with
      no red child. */
  predicate Reached<N>(p: Path<N>, q: Tree<N>) {
    IsRed(q) || |p| == 0 || p[0].red || (|p| == 1 && !IsRed(p[0].other))
  }

  /** Behind a visit: the node or the next one is red, or it is the root, with no red child. */
  predicate Visited<N>(p: Path<N>, q: Tree<N>, x: nat) {
    q.Node? && (q.red || IsRed(Child(q, GoesRight(q, x))) || (|p| == 0 && !IsRed(Child(q, !GoesRight(q, x)))))
  }

  ghost predicate Sound<N>(p: Path<N>, q: Tree<N>, n: nat, x: nat) {
    Balanced(q, n) && Fits(p, n, IsRed(q)) && Around(p, x)
  }

  /** A rotation of the node at hand, which has a red child on the other side. */
  lemma {:induction false} RotateHere<N>(p: Path<N>, q: Tree<N>, n: nat, x: nat)
    requires Sound(p, q, n, x) && q.Node? && !q.red && Sorted(Items(Whole(p, q)))
    requires var d := GoesRight(q, x); !IsRed(Child(q, d)) && IsRed(Child(q, !d))
    ensures var d := GoesRight(q, x);
            var t := RotateSingle(q, d);
            var r := [Step(false, t.item, d, Child(t, !d))] + p;
            && n > 0 && Sound(r, Child(t, d), n - 1, x) && Items(Whole(r, Child(t, d))) == Items(Whole(p, q))
            && Visited(r, Child(t, d), x) && Depth(Child(t, d), x) == Depth(q, x)
  {
    var d := GoesRight(q, x);
    var t := RotateSingle(q, d);
    var r := [Step(false, t.item, d, Child(t, !d))] + p;
    var c := Child(t, d);
    assert r[1..] == p;
    assert Up(r[0], c) == t;
    RotateBalance(q, d, n);
    RotateItems(q, d);
    WholeItems(p, q);
    WholeItems(p, t);
    SortedMiddle(p, q);
    SortedMiddle(p, t);
    RotatedSide(t, q, d, x);
    AroundStep(r, x);
  }

  lemma {:induction false} RotateBalance<N>(q: Tree<N>, d: bool, n: nat)
    requires Balanced(q, n) && q.Node? && !q.red && !IsRed(Child(q, d)) && IsRed(Child(q, !d))
    ensures var t := RotateSingle(q, d);
            n > 0 && Child(t, d).Node? && Child(t, d).red && Balanced(Child(t, d), n - 1) && Balanced(Child(t, !d), n - 1)
  {
    var t := RotateSingle(q, d);
    if d {
      assert t == Node(false, q.left.item, q.left.left, Node(true, q.item, q.left.right, q.right));
    } else {
      assert t == Node(false, q.right.item, Node(true, q.item, q.left, q.right.left), q.right.right);
    }
  }

  lemma {:induction false} RotateItems<N>(q: Tree<N>, d: bool)
    requires q.Node? && Child(q, !d).Node?
    ensures Items(RotateSingle(q, d)) == Items(q)
  {
    var t := RotateSingle(q, d);
    if d {
      assert t == Node(false, q.left.item, q.left.left, Node(true, q.item, q.left.right, q.right));
      Assoc(Items(q.left.left), q.left.item, Items(q.left.right), q.item, Items(q.right));
    } else {
      assert t == Node(false, q.right.item, Node(true, q.item, q.left, q.right.left), q.right.right);
      Assoc(Items(q.left), q.item, Items(q.right.left), q.right.item, Items(q.right.right));
    }
    assert Items(t) == Items(t.left) + [t.item] + Items(t.right);
    assert Items(t.left) == if d then Items(q.left.left) else Items(q.left) + [q.item] + Items(q.right.left);
    assert Items(t.right) == if d then Items(q.left.right) + [q.item] + Items(q.right) else Items(q.right.right);
  }

  lemma {:induction false} Assoc<T>(a: seq<T>, m: T, b: seq<T>, k: T, c: seq<T>)
    ensures a + [m] + (b + [k] + c) == (a + [m] + b) + [k] + c
  {
  }

  /** After the rotation the new node above lies on the side that the search leaves behind. */
  lemma {:induction false} RotatedSide<N>(t: Tree<N>, q: Tree<N>, d: bool, x: nat)
    requires q.Node? && Child(q, !d).Node? && t == RotateSingle(q, d) && d == GoesRight(q, x) && Sorted(Items(t))
    ensures if d then Below(Items(Child(t, !d)), x) && t.item.lo < x else NotBelow(Items(Child(t, !d)), x) && t.item.lo >= x
  {
    SortedAround(Items(t.left), t.item, Items(t.right));
    var c := Child(t, d);
    assert c.Node? && c.item == q.item;
    BoundsAround(Items(c.left), c.item, Items(c.right), t.item.lo);
    assert Items(c) == Items(c.left) + [c.item] + Items(c.right);
    BelowLess(Items(t.left), t.item.lo, x);
  }

  lemma {:induction false} MakeRed<N>(q: Tree<N>, n: nat)
    requires Balanced(q, n) && q.Node? && !q.red && !IsRed(q.left) && !IsRed(q.right)
    ensures n > 0 && Balanced(Paint(q, true), n - 1) && Items(Paint(q, true)) == Items(q)
  {
  }

  /** The colour flip of the node at hand, its sibling and the node above. */
  lemma {:induction false} FlipHere<N>(p: Path<N>, q: Tree<N>, n: nat, x: nat)
    requires Sound(p, q, n, x) && q.Node? && !q.red && !IsRed(q.left) && !IsRed(q.right)
    requires |p| > 0 && Reached(p, q) && p[0].other.Node? && !IsRed(p[0].other.left) && !IsRed(p[0].other.right)
    ensures var r := [Step(false, p[0].item, p[0].right, Paint(p[0].other, true))] + p[1..];
            && n > 0 && Sound(r, Paint(q, true), n - 1, x) && Items(Whole(r, Paint(q, true))) == Items(Whole(p, q))
            && Visited(r, Paint(q, true), x) && Depth(Paint(q, true), x) == Depth(q, x)
  {
    var s := p[0].other;
    var r := [Step(false, p[0].item, p[0].right, Paint(s, true))] + p[1..];
    assert r[1..] == p[1..];
    MakeRed(q, n);
    MakeRed(s, n);
    if p[0].red { FitsBlack(p[1..], n); }
    assert Lefts(r) == Lefts(p) && Rights(r) == Rights(p);
    WholeItems(p, q);
    WholeItems(r, Paint(q, true));
  }

  /** The rotation of the node above, towards the node at hand: a double one when the near
      child of the sibling is red. */
  function Turned<N>(s: Step<N>, q: Tree<N>): Tree<N>
    requires s.other.Node? && (IsRed(Child(s.other, s.right)) || IsRed(Child(s.other, !s.right)))
  {
    if IsRed(Child(s.other, s.right)) then RotateDouble(Up(s, q), s.right) else RotateSingle(Up(s, q), s.right)
  }

  /** The steps that replace the one above after the rotation and the recolouring. */
  function TurnedSteps<N>(s: Step<N>, q: Tree<N>): Path<N>
    requires s.other.Node? && (IsRed(Child(s.other, s.right)) || IsRed(Child(s.other, !s.right)))
  {
    var t := Turned(s, q);
    if Child(t, s.right).Node? then
      [Step(false, Child(t, s.right).item, s.right, Child(Child(t, s.right), !s.right)),
       Step(true, t.item, s.right, Paint(Child(t, !s.right), false))]
    else []
  }

  lemma {:induction false} TurnHere<N>(s: Step<N>, q: Tree<N>, n: nat)
    requires q.Node? && !q.red && !IsRed(q.left) && !IsRed(q.right) && Balanced(q, n)
    requires s.other.Node? && !s.other.red && Balanced(s.other, n)
    requires IsRed(Child(s.other, s.right)) || IsRed(Child(s.other, !s.right))
    ensures var t, e, r := Turned(s, q), TurnedSteps(s, q), s.other;
            && n > 0 && t.Node? && Child(t, s.right).Node? && Child(Child(t, s.right), s.right) == q && |e| == 2
            && e[0].item == s.item && e[0].right == s.right && !e[0].red && Balanced(e[0].other, n - 1)
            && e[1].right == s.right && e[1].red && Balanced(e[1].other, n) && !IsRed(e[1].other)
            && (if s.right then Items(e[1].other) + [e[1].item] + Items(e[0].other) == Items(s.other)
                else Items(e[0].other) + [e[1].item] + Items(e[1].other) == Items(s.other))
  {
    var r := s.other;
    if IsRed(Child(r, s.right)) {
      if s.right {
        var m := r.right;
        Assoc(Items(r.left), r.item, Items(m.left), m.item, Items(m.right));
        assert Items(r) == Items(r.left) + [r.item] + Items(r.right);
        assert Items(Node(false, r.item, r.left, m.left)) == Items(r.left) + [r.item] + Items(m.left);
        assert TurnedSteps(s, q)[1].other == Node(false, r.item, r.left, m.left);
      } else {
        var m := r.left;
        Assoc(Items(m.left), m.item, Items(m.right), r.item, Items(r.right));
        assert Items(r) == Items(r.left) + [r.item] + Items(r.right);
        assert Items(Node(false, r.item, m.right, r.right)) == Items(m.right) + [r.item] + Items(r.right);
        assert TurnedSteps(s, q)[1].other == Node(false, r.item, m.right, r.right);
      }
    }
  }

  /** The node above rotated. */
  lemma {:induction false} RotateAbove<N>(p: Path<N>, q: Tree<N>, n: nat, x: nat)
    requires Sound(p, q, n, x) && q.Node? && !q.red && !IsRed(q.left) && !IsRed(q.right)
    requires |p| > 0 && Reached(p, q) && p[0].other.Node?
    requires IsRed(Child(p[0].other, p[0].right)) || IsRed(Child(p[0].other, !p[0].right))
    ensures var r := TurnedSteps(p[0], q) + p[1..];
            && n > 0 && Sound(r, Paint(q, true), n - 1, x) && Items(Whole(r, Paint(q, true))) == Items(Whole(p, q))
            && Visited(r, Paint(q, true), x) && Depth(Paint(q, true), x) == Depth(q, x)
  {
    TurnHere(p[0], q, n);
    MakeRed(q, n);
    var e := TurnedSteps(p[0], q);
    var r := e + p[1..];
    assert r[1..] == [e[1]] + p[1..] && r[1..][1..] == p[1..] && r[0] == e[0] && r[1..][0] == e[1];
    TurnFits(p, e, n);
    TurnSides(p, e);
    WholeItems(p, q);
    WholeItems(r, Paint(q, true));
  }

  lemma {:induction false} TurnFits<N>(p: Path<N>, e: Path<N>, n: nat)
    requires |p| > 0 && |e| == 2 && n > 0 && (p[0].red ==> Fits(p[1..], n, true)) && (!p[0].red ==> |p| == 1)
    requires !e[0].red && Balanced(e[0].other, n - 1) && e[1].red && Balanced(e[1].other, n) && !IsRed(e[1].other)
    ensures Fits(e + p[1..], n - 1, true)
  {
    var r := e + p[1..];
    assert r[0] == e[0] && r[1..][0] == e[1] && r[1..][1..] == p[1..];
    assert Fits(p[1..], n, true);
    assert Fits(r[1..], n, false);
  }

  lemma {:induction false} TurnSides<N>(p: Path<N>, e: Path<N>)
    requires |p| > 0 && |e| == 2 && e[0].item == p[0].item && e[0].right == p[0].right && e[1].right == p[0].right
    requires if p[0].right then Items(e[1].other) + [e[1].item] + Items(e[0].other) == Items(p[0].other)
             else Items(e[0].other) + [e[1].item] + Items(e[1].other) == Items(p[0].other)
    ensures Lefts(e + p[1..]) == Lefts(p) && Rights(e + p[1..]) == Rights(p)
  {
    var r := e + p[1..];
    assert r[0] == e[0] && r[1..][0] == e[1] && r[1..][1..] == p[1..];
    if p[0].right {
      assert Lefts(r) == Lefts(p[1..]) + Items(e[1].other) + [e[1].item] + Items(e[0].other) + [p[0].item];
      assert Lefts(p) == Lefts(p[1..]) + (Items(e[1].other) + [e[1].item] + Items(e[0].other)) + [p[0].item];
    } else {
      assert Rights(r) == [p[0].item] + Items(e[0].other) + ([e[1].item] + Items(e[1].other) + Rights(p[1..]));
      assert Rights(p) == [p[0].item] + (Items(e[0].other) + [e[1].item] + Items(e[1].other)) + Rights(p[1..]);
    }
  }

  /** What one visit does: nothing, or one of the three repairs that make the node at hand red. */
  function Pushed<N>(p: Path<N>, q: Tree<N>, x: nat): (Path<N>, Tree<N>)
    requires q.Node?
  {
    var d := GoesRight(q, x);
    if q.red || IsRed(Child(q, d)) then (p, q)
    else if IsRed(Child(q, !d)) then
      var t := RotateSingle(q, d);
      ([Step(false, t.item, d, Child(t, !d))] + p, Child(t, d))
    else if |p| == 0 || p[0].other.Leaf? then (p, q)
    else
      var s := p[0].other;
      if !IsRed(Child(s, !p[0].right)) && !IsRed(Child(s, p[0].right))
      then ([Step(false, p[0].item, p[0].right, Paint(s, true))] + p[1..], Paint(q, true))
      else (TurnedSteps(p[0], q) + p[1..], Paint(q, true))
  }

  lemma {:induction false} Visits<N>(p: Path<N>, q: Tree<N>, n: nat, x: nat) returns (m: nat)
    requires Sound(p, q, n, x) && q.Node? && Reached(p, q) && Sorted(Items(Whole(p, q)))
    ensures var r := Pushed(p, q, x);
            Sound(r.0, r.1, m, x) && Visited(r.0, r.1, x) && r.1.Node? && Items(Whole(r.0, r.1)) == Items(Whole(p, q)) && Depth(r.1, x) == Depth(q, x)
  {
    hide Fits, Sorted, Below, NotBelow;
    var d := GoesRight(q, x);
    m := n;
    if q.red || IsRed(Child(q, d)) {
    } else if IsRed(Child(q, !d)) {
      RotateHere(p, q, n, x);
      m := n - 1;
    } else if |p| > 0 {
      SiblingThere(p, q, n);
      var s := p[0].other;
      if !IsRed(Child(s, !p[0].right)) && !IsRed(Child(s, p[0].right)) { FlipHere(p, q, n, x); } else { RotateAbove(p, q, n, x); }
      m := n - 1;
    }
  }

  lemma {:induction false} SiblingThere<N>(p: Path<N>, q: Tree<N>, n: nat)
    requires Balanced(q, n) && q.Node? && !q.red && |p| > 0 && Fits(p, n, false)
    ensures p[0].other.Node?
  {
  }

  /** The step down from a visited node. */
  function Down<N>(p: Path<N>, q: Tree<N>, x: nat): Path<N>
    requires q.Node?
  {
    [Step(q.red, q.item, GoesRight(q, x), Child(q, !GoesRight(q, x)))] + p
  }

  lemma {:induction false} StepDown<N>(p: Path<N>, q: Tree<N>, n: nat, x: nat)
    requires Sound(p, q, n, x) && Visited(p, q, x) && Sorted(Items(Whole(p, q)))
    ensures var c := Child(q, GoesRight(q, x));
            && (q.red || n > 0) && Sound(Down(p, q, x), c, if q.red then n else n - 1, x)
            && Whole(Down(p, q, x), c) == Whole(p, q) && Reached(Down(p, q, x), c) && Depth(c, x) < Depth(q, x)
  {
    hide Sorted, Below, NotBelow;
    var d := Down(p, q, x);
    assert d[1..] == p;
    assert Up(d[0], Child(q, GoesRight(q, x))) == q;
    RedBlack.SortedMiddle(p, q);
    SortedAround(Items(q.left), q.item, Items(q.right));
    BelowLess(Items(q.left), q.item.lo, x);
    BeyondNotBelow(Items(q.right), q.item.lo, x);
    AroundStep(d, x);
  }

  lemma {:induction false} BeyondNotBelow<N>(s: seq<Item<N>>, y: nat, x: nat)
    ensures Beyond(s, y) && y >= x ==> NotBelow(s, x)
  {
  }

  // ---- taking the node out -------------------------------------------------------------------

  /** fillData: the node whose address is x, on the way, gets the item of another. */
  function Filled<N>(p: Path<N>, x: nat, item: Item<N>): Path<N> {
    if |p| == 0 then []
    else if p[0].item.lo == x then [p[0].(item := item)] + p[1..]
    else [p[0]] + Filled(p[1..], x, item)
  }

  /** The items without the one at address x. */
  function Removed<N>(s: seq<Item<N>>, x: nat): seq<Item<N>> {
    if |s| == 0 then []
    else if s[0].lo == x then s[1..]
    else [s[0]] + Removed(s[1..], x)
  }

  lemma {:induction false} RemovedAt<N>(l: seq<Item<N>>, m: Item<N>, r: seq<Item<N>>)
    requires Absent(l, m.lo)
    ensures Removed(l + [m] + r, m.lo) == l + r
  {
    var s := l + [m] + r;
    if |l| > 0 {
      assert s[0] == l[0];
      assert s[1..] == l[1..] + [m] + r;
      assert Absent(l[1..], m.lo);
      RemovedAt(l[1..], m, r);
    } else {
      assert s == [m] + r;
    }
  }

  lemma {:induction false} RemovedBeyond<N>(s: seq<Item<N>>, x: nat, y: nat)
    requires Beyond(s, y)
    ensures Beyond(Removed(s, x), y)
  {
    if |s| > 0 && s[0].lo != x {
      RemovedBeyond(s[1..], x, y);
    }
  }

  lemma {:induction false} SortedHead<N>(s: seq<Item<N>>)
    requires |s| > 0
    ensures Sorted(s) <==> Sorted(s[1..]) && Beyond(s[1..], s[0].lo)
  {
    assert s == [] + [s[0]] + s[1..];
    SortedAround([], s[0], s[1..]);
  }

  lemma {:induction false} BoundsHead<N>(s: seq<Item<N>>, x: nat)
    requires |s| > 0
    ensures Absent(s, x) <==> s[0].lo != x && Absent(s[1..], x)
    ensures Beyond(s, x) ==> Absent(s, x)
  {
    assert s == [s[0]] + s[1..];
    BoundsCat([s[0]], s[1..], x);
    BoundsOne(s[0], x);
  }

  /** Removal leaves a sorted row without the address. */
  lemma {:induction false} RemovedSorted<N>(s: seq<Item<N>>, x: nat)
    requires Sorted(s)
    ensures Sorted(Removed(s, x)) && Absent(Removed(s, x), x)
    ensures |Removed(s, x)| == |s| - (if Absent(s, x) then 0 else 1)
    ensures Absent(s, x) ==> Removed(s, x) == s
  {
    hide Sorted, Beyond;
    if |s| > 0 {
      SortedHead(s);
      BoundsHead(s, x);
      if s[0].lo == x {
        if |s| > 1 { BoundsHead(s[1..], x); }
      } else {
        var t := [s[0]] + Removed(s[1..], x);
        RemovedSorted(s[1..], x);
        RemovedBeyond(s[1..], x, s[0].lo);
        assert t[1..] == Removed(s[1..], x);
        SortedHead(t);
        BoundsHead(t, x);
      }
    } else {
      assert Sorted(s);
    }
  }

  lemma {:induction false} FilledFits<N>(p: Path<N>, x: nat, item: Item<N>, n: nat, red: bool)
    requires Fits(p, n, red)
    ensures Fits(Filled(p, x, item), n, red)
    decreases |p|
  {
    if |p| > 0 {
      var f := Filled(p, x, item);
      if p[0].item.lo == x {
        assert f[1..] == p[1..];
      } else {
        assert f[1..] == Filled(p[1..], x, item);
        FilledFits(p[1..], x, item, if p[0].red then n else n + 1, p[0].red);
      }
    }
  }

  /** On the way to x the node with address x is the last one left behind on a turn to the
      left: the first item to the right of the hole. */
  lemma {:induction false} FilledSides<N>(p: Path<N>, x: nat, item: Item<N>)
    requires Around(p, x) && |Rights(p)| > 0 && Rights(p)[0].lo == x
    ensures Lefts(Filled(p, x, item)) == Lefts(p) && Rights(Filled(p, x, item)) == [item] + Rights(p)[1..]
    decreases |p|
  {
    hide Below, NotBelow;
    AroundStep(p, x);
    var f := Filled(p, x, item);
    if p[0].right {
      assert f[1..] == Filled(p[1..], x, item);
      FilledSides(p[1..], x, item);
    } else {
      assert f[1..] == p[1..];
    }
  }

  /** The last node of the descent has no child: either it is red, or it is the whole tree. */
  lemma {:induction false} LastNode<N>(p: Path<N>, q: Tree<N>, n: nat, x: nat)
    requires Sound(p, q, n, x) && Visited(p, q, x) && Child(q, GoesRight(q, x)).Leaf?
    ensures q.left.Leaf? && q.right.Leaf? && Fits(p, 0, false)
    ensures Items(q) == [q.item]
  {
    var d := GoesRight(q, x);
    var h := if q.red then n else n - 1;
    assert Balanced(Child(q, d), h) && h == 0;
    assert Balanced(Child(q, !d), h) && !IsRed(Child(q, !d));
    if q.red { FitsBlack(p, 0); }
  }

  lemma {:induction false} InRow<N>(s: seq<Item<N>>, x: nat)
    requires NotBelow(s, x) && Sorted(s) && !Absent(s, x)
    ensures |s| > 0 && s[0].lo == x
  {
    var k :| 0 <= k < |s| && s[k].lo == x;
  }

  /** The node taken out is the one at hand, after its item has gone to the node with address x
      unless it is that node. */
  lemma {:induction false} TakeOut<N>(p: Path<N>, q: Tree<N>, n: nat, x: nat, s: seq<Item<N>>)
    requires Sound(p, q, n, x) && Visited(p, q, x) && Child(q, GoesRight(q, x)).Leaf?
    requires Items(Whole(p, q)) == s && Sorted(s) && !Absent(s, x)
    ensures var f := if q.item.lo == x then p else Filled(p, x, q.item);
            Items(Whole(f, Leaf)) == Removed(s, x) && Fits(f, 0, false)
  {
    hide Below, NotBelow, Sorted, Absent, Removed, Fits, Lefts, Rights, Whole, Filled, Visited;
    LastNode(p, q, n, x);
    WholeItems(p, q);
    var l, r := Lefts(p), Rights(p);
    assert s == l + [q.item] + r;
    BelowAbsent(l, x);
    if q.item.lo == x {
      RemovedAt(l, q.item, r);
      WholeItems(p, Leaf);
      assert Items<N>(Leaf) == [];
    } else {
      var f := Filled(p, x, q.item);
      BoundsAround(l, q.item, r, x);
      assert s == (l + [q.item]) + r + [];
      SortedInner(l + [q.item], r, []);
      InRow(r, x);
      FilledSides(p, x, q.item);
      FilledFits(p, x, q.item, 0, false);
      WholeItems(f, Leaf);
      assert Items<N>(Leaf) == [];
      BoundsCat(l, [q.item], x);
      BoundsOne(q.item, x);
      RemovedAt(l + [q.item], r[0], r[1..]);
      assert s == (l + [q.item]) + [r[0]] + r[1..];
      assert l + [] + ([q.item] + r[1..]) == (l + [q.item]) + r[1..];
    }
  }

  lemma {:induction false} BelowAbsent<N>(s: seq<Item<N>>, x: nat)
    requires Below(s, x)
    ensures Absent(s, x)
  {
  }

  predicate IsLeaf<N>(q: Tree<N>) { q.Node? && q.left.Leaf? && q.right.Leaf? }

  /** r is the tree that has the items of root and a leaf with last at the end of a way, without
      that leaf, and with last in the place of the item with address x. */
  ghost predicate TakenOut<N>(root: Tree<N>, r: Tree<N>, x: nat, last: Item<N>, way: Path<N>, leaf: Tree<N>) {
    && IsLeaf(leaf) && leaf.item == last && Items(Whole(way, leaf)) == Items(root)
    && r == Paint(Whole(if last.lo == x then way else Filled(way, x, last), Leaf), false)
  }

  /** Takes out the node with address x: one way down that keeps the node at hand red, and the
      item of the last node moved to the one with address x. The node that goes is the one that
      held last. */
  method RemoveNode<N>(root: Tree<N>, x: nat) returns (r: Tree<N>, last: Item<N>, ghost way: Path<N>, ghost leaf: Tree<N>)
    requires RedBlack.Valid(root) && !Absent(Items(root), x)
    ensures RedBlack.Valid(r) && Items(r) == Removed(Items(root), x)
    ensures last in Items(root) && TakenOut(root, r, x, last, way, leaf)
  {
    hide Sound, Reached, Visited, Pushed, RedBlack.Valid, Sorted, Absent, Removed, Depth;
    var p: Path<N>, q := [], root;
    ghost var n := Begin(root, x);
    while true
      invariant q.Node? && Sound(p, q, n, x) && Reached(p, q)
      invariant Items(Whole(p, q)) == Items(root)
      decreases Depth(q, x)
    {
      ghost var m := Visits(p, q, n, x);
      p, q := Visit(p, q, x);
      var d := GoesRight(q, x);
      if Child(q, d).Leaf? {
        TakeOut(p, q, m, x, Items(root));
        LastNode(p, q, m, x);
        last := q.item;
        way, leaf := p, q;
        WholeItems(p, q);
        assert last in Items(q);
        if q.item.lo != x { p := Filled(p, x, q.item); }
        r := Paint(Whole(p, Leaf), false);
        Finish(p, Items(root), x);
        return;
      }
      StepDown(p, q, m, x);
      n := if q.red then m else m - 1;
      p, q := Down(p, q, x), Child(q, d);
    }
  }

  /** Pushes a red node down to the one at hand. */
  method Visit<N>(p0: Path<N>, q0: Tree<N>, x: nat) returns (p: Path<N>, q: Tree<N>)
    requires q0.Node?
    ensures (p, q) == Pushed(p0, q0, x)
  {
    p, q := p0, q0;
    var dir := GoesRight(q, x);
    if !IsRed(q) && !IsRed(Child(q, dir)) {
      if IsRed(Child(q, !dir)) {
        var t := RotateSingle(q, dir);
        p, q := [Step(t.red, t.item, dir, Child(t, !dir))] + p, Child(t, dir);
      } else if |p| > 0 && p[0].other.Node? {
        var s, last := p[0].other, p[0].right;
        if !IsRed(Child(s, !last)) && !IsRed(Child(s, last)) {
          p := [Step(false, p[0].item, last, Paint(s, true))] + p[1..];
        } else {
          p := TurnedSteps(p[0], q) + p[1..];
        }
        q := Paint(q, true);
      }
    }
  }

  lemma {:induction false} Begin<N>(root: Tree<N>, x: nat) returns (n: nat)
    requires RedBlack.Valid(root) && !Absent(Items(root), x)
    ensures root.Node? && Sound([], root, n, x) && Reached([], root) && Sorted(Items(root)) && Items(Whole([], root)) == Items(root)
  {
    n :| Balanced(root, n);
  }

  lemma {:induction false} Finish<N>(p: Path<N>, s: seq<Item<N>>, x: nat)
    requires Items(Whole(p, Leaf)) == Removed(s, x) && Fits(p, 0, false) && Sorted(s)
    ensures RedBlack.Valid(Paint(Whole(p, Leaf), false)) && Items(Paint(Whole(p, Leaf), false)) == Removed(s, x)
  {
    WholeBalanced(p, Leaf, 0);
    var m := PaintBlack(Whole(p, Leaf), Height(p, 0));
    RemovedSorted(s, x);
  }
}
