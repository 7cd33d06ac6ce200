/** The red-black tree of memory nodes, ordered by address, with the top-down insertion and
    removal of the memory manager. */
module RedBlack {
  import opened Word32

  /** A memory range and the node that owns it. */
  datatype Item<N> = Item(lo: nat, hi: nat, node: N)

  datatype Tree<N> = Leaf | Node(red: bool, item: Item<N>, left: Tree<N>, right: Tree<N>)

  predicate IsRed<N>(t: Tree<N>) { t.Node? && t.red }

  function Child<N>(t: Tree<N>, right: bool): Tree<N>
    requires t.Node?
  {
    if right then t.right else t.left
  }

  function WithChild<N>(t: Tree<N>, right: bool, c: Tree<N>): Tree<N>
    requires t.Node?
  {
    if right then t.(right := c) else t.(left := c)
  }

  /** The items from left to right. */
  function Items<N>(t: Tree<N>): seq<Item<N>> {
    if t.Leaf? then [] else Items(t.left) + [t.item] + Items(t.right)
  }

  /** No red node has a red child, and every way down meets n black nodes. */
  predicate Balanced<N>(t: Tree<N>, n: nat) {
    match t
    case Leaf => n == 0
    case Node(red, _, l, r) =>
      if red then !IsRed(l) && !IsRed(r) && Balanced(l, n) && Balanced(r, n)
      else n > 0 && Balanced(l, n - 1) && Balanced(r, n - 1)
  }

  predicate Sorted<N>(s: seq<Item<N>>) {
    forall i, j :: 0 <= i < j < |s| ==> s[i].lo < s[j].lo
  }

  predicate Below<N>(s: seq<Item<N>>, x: nat) { forall k :: 0 <= k < |s| ==> s[k].lo < x }
  predicate Beyond<N>(s: seq<Item<N>>, x: nat) { forall k :: 0 <= k < |s| ==> s[k].lo > x }
  predicate Absent<N>(s: seq<Item<N>>, x: nat) { forall k :: 0 <= k < |s| ==> s[k].lo != x }

  lemma {:induction false} BoundsCat<N>(a: seq<Item<N>>, b: seq<Item<N>>, x: nat)
    ensures Below(a + b, x) <==> Below(a, x) && Below(b, x)
    ensures Beyond(a + b, x) <==> Beyond(a, x) && Beyond(b, x)
    ensures Absent(a + b, x) <==> Absent(a, x) && Absent(b, x)
  {
    var s := a + b;
    assert forall k :: 0 <= k < |a| ==> s[k] == a[k];
    assert forall k :: 0 <= k < |b| ==> s[|a| + k] == b[k];
  }

  lemma {:induction false} BoundsOne<N>(i: Item<N>, x: nat)
    ensures Below([i], x) <==> i.lo < x
    ensures Beyond([i], x) <==> i.lo > x
    ensures Absent([i], x) <==> i.lo != x
    ensures Sorted([i])
  {
    assert [i][0] == i;
  }

  /** The bounds of a row around one item. */
  lemma {:induction false} BoundsAround<N>(a: seq<Item<N>>, m: Item<N>, b: seq<Item<N>>, x: nat)
    ensures Below(a + [m] + b, x) <==> Below(a, x) && m.lo < x && Below(b, x)
    ensures Beyond(a + [m] + b, x) <==> Beyond(a, x) && m.lo > x && Beyond(b, x)
    ensures Absent(a + [m] + b, x) <==> Absent(a, x) && m.lo != x && Absent(b, x)
  {
    hide Below, Beyond, Absent;
    BoundsOne(m, x);
    BoundsCat(a, [m], x);
    BoundsCat(a + [m], b, x);
  }

  lemma {:induction false} SortedAround<N>(a: seq<Item<N>>, m: Item<N>, b: seq<Item<N>>)
    ensures Sorted(a + [m] + b) <==> Sorted(a) && Sorted(b) && Below(a, m.lo) && Beyond(b, m.lo)
  {
    var s := a + [m] + b;
    assert forall k :: 0 <= k < |a| ==> s[k] == a[k];
    assert s[|a|] == m;
    assert forall k :: 0 <= k < |b| ==> s[|a| + 1 + k] == b[k];
    if Sorted(a) && Sorted(b) && Below(a, m.lo) && Beyond(b, m.lo) {
      forall i, j | 0 <= i < j < |s|
        ensures s[i].lo < s[j].lo
      {
        if j < |a| { } else if i > |a| {
          assert s[i] == b[i - |a| - 1] && s[j] == b[j - |a| - 1];
        } else if i < |a| && j > |a| {
          assert s[j] == b[j - |a| - 1];
        }
      }
    }
  }

  lemma {:induction false} SortedInner<N>(a: seq<Item<N>>, m: seq<Item<N>>, b: seq<Item<N>>)
    requires Sorted(a + m + b)
    ensures Sorted(m)
  {
    var s := a + m + b;
    assert forall k :: 0 <= k < |m| ==> s[|a| + k] == m[k];
  }

  // ---- rotations ---------------------------------------------------------------------

  function Paint<N>(t: Tree<N>, red: bool): Tree<N> {
    if t.Leaf? then t else t.(red := red)
  }

  /** rbRotateSingle: the child opposite to dir becomes the root, black; the old root its red
      child on the side of dir. */
  function RotateSingle<N>(t: Tree<N>, right: bool): Tree<N>
    requires t.Node? && Child(t, !right).Node?
  {
    var save := Child(t, !right);
    var down := WithChild(t, !right, Child(save, right)).(red := true);
    WithChild(save, right, down).(red := false)
  }

  function RotateDouble<N>(t: Tree<N>, right: bool): Tree<N>
    requires t.Node? && Child(t, !right).Node? && Child(Child(t, !right), right).Node?
  {
    RotateSingle(WithChild(t, !right, RotateSingle(Child(t, !right), !right)), right)
  }

  // ---- a tree with a hole ----------------------------------------------------------------

  /** One step of the way from a subtree up to the root: the node above, with its other child
      only, and the side the subtree hangs on. */
  datatype Step<N> = Step(red: bool, item: Item<N>, right: bool, other: Tree<N>)

  /** Innermost step first. */
  type Path<N> = seq<Step<N>>

  function Up<N>(s: Step<N>, t: Tree<N>): Tree<N> {
    if s.right then Node(s.red, s.item, s.other, t) else Node(s.red, s.item, t, s.other)
  }

  function Whole<N>(p: Path<N>, t: Tree<N>): Tree<N>
    decreases |p|
  {
    if |p| == 0 then t else Whole(p[1..], Up(p[0], t))
  }

  function Lefts<N>(p: Path<N>): seq<Item<N>> {
    if |p| == 0 then []
    else if p[0].right then Lefts(p[1..]) + Items(p[0].other) + [p[0].item]
    else Lefts(p[1..])
  }

  function Rights<N>(p: Path<N>): seq<Item<N>> {
    if |p| == 0 then []
    else if p[0].right then Rights(p[1..])
    else [p[0].item] + Items(p[0].other) + Rights(p[1..])
  }

  lemma {:induction false} Regroup<T>(a: seq<T>, b: seq<T>, c: seq<T>, d: seq<T>, e: seq<T>)
    ensures a + (b + c + d) + e == (a + b + c) + d + e
    ensures a + (b + c + d) + e == a + b + (c + d + e)
  {
  }

  lemma {:induction false} WholeItems<N>(p: Path<N>, t: Tree<N>)
    ensures Items(Whole(p, t)) == Lefts(p) + Items(t) + Rights(p)
    decreases |p|
  {
    if |p| > 0 {
      var l, m, o := Lefts(p[1..]), [p[0].item], Items(p[0].other);
      var r := Rights(p[1..]);
      WholeItems(p[1..], Up(p[0], t));
      Regroup(l, o, m, Items(t), r);
      Regroup(l, Items(t), m, o, r);
    }
  }

  /** The way to a hole for a subtree with n black nodes on each way down, whose root is red or
      not. */
  predicate Fits<N>(p: Path<N>, n: nat, red: bool) {
    |p| == 0 ||
    var s := p[0];
    && Balanced(s.other, n)
    && (s.red ==> !red && !IsRed(s.other))
    && Fits(p[1..], if s.red then n else n + 1, s.red)
  }

  function Height<N>(p: Path<N>, n: nat): nat {
    if |p| == 0 then n else Height(p[1..], if p[0].red then n else n + 1)
  }

  lemma {:induction false} WholeBalanced<N>(p: Path<N>, t: Tree<N>, n: nat)
    requires Balanced(t, n) && Fits(p, n, IsRed(t))
    ensures Balanced(Whole(p, t), Height(p, n))
    decreases |p|
  {
    if |p| > 0 {
      WholeBalanced(p[1..], Up(p[0], t), if p[0].red then n else n + 1);
    }
  }

  lemma {:induction false} FitsBlack<N>(p: Path<N>, n: nat)
    requires Fits(p, n, true)
    ensures Fits(p, n, false)
  {
  }

  // ---- insertion -----------------------------------------------------------------------------

  /** How far the search for address x goes down from a subtree. */
  function Depth<N>(t: Tree<N>, x: nat): nat {
    if t.Leaf? then 0 else 1 + Depth(Child(t, t.item.lo < x), x)
  }

  predicate Between<N>(p: Path<N>, x: nat) {
    Below(Lefts(p), x) && Beyond(Rights(p), x)
  }

  lemma {:induction false} BetweenStep<N>(p: Path<N>, x: nat)
    requires |p| > 0
    ensures Between(p, x) <==>
      (Between(p[1..], x)
       && if p[0].right then Below(Items(p[0].other), x) && p[0].item.lo < x else Beyond(Items(p[0].other), x) && p[0].item.lo > x)
  {
    hide Below, Beyond;
    var l, r, o, m := Lefts(p[1..]), Rights(p[1..]), Items(p[0].other), p[0].item;
    BoundsOne(m, x);
    BoundsCat(l + o, [m], x);
    BoundsCat(l, o, x);
    BoundsCat([m] + o, r, x);
    BoundsCat([m], o, x);
  }

  /** A black node that the next round leaves alone: not both of its children are red. */
  predicate Calm<N>(t: Tree<N>) {
    t.Node? && !t.red && !(IsRed(t.left) && IsRed(t.right))
  }

  /** The way down is such that a red violation can always be repaired: below a red node, the
      sibling of that node is black, or the node at hand will not turn red. */
  ghost predicate Repairable<N>(p: Path<N>, q: Tree<N>, x: nat) {
    && (|p| == 0 ==> !IsRed(q))
    && (|p| > 0 && p[0].red ==> (|p| >= 2 && !IsRed(p[1].other)) || Calm(q))
    && (|p| > 0 && IsRed(q) && IsRed(p[0].other) ==> Calm(Child(q, q.item.lo < x)))
  }

  /** The invariant of the descent: with t hung at the end of the path the tree is balanced and
      has the items given, and x belongs where the path leads. */
  ghost predicate Descent<N>(p: Path<N>, q: Tree<N>, n: nat, x: nat) {
    Balanced(q, n) && Fits(p, n, IsRed(q)) && Between(p, x) && Repairable(p, q, x)
  }

  function Flip<N>(q: Tree<N>): Tree<N>
    requires q.Node?
  {
    q.(red := true, left := Paint(q.left, false), right := Paint(q.right, false))
  }

  lemma {:induction false} FlipKeeps<N>(q: Tree<N>, n: nat, x: nat)
    requires Balanced(q, n) && q.Node? && IsRed(q.left) && IsRed(q.right)
    ensures !q.red && n > 0 && Balanced(Flip(q), n) && Items(Flip(q)) == Items(q) && Depth(Flip(q), x) == Depth(q, x)
    ensures Calm(Flip(q).left) && Calm(Flip(q).right)
  {
  }

  /** A red node under a red one: what is known when the repair is due. */
  predicate Violation<N>(p: Path<N>, q: Tree<N>, n: nat) {
    && |p| >= 2 && p[0].red && IsRed(q) && Balanced(q, n)
    && Balanced(p[0].other, n) && !IsRed(p[0].other)
    && !p[1].red && Balanced(p[1].other, n) && !IsRed(p[1].other)
    && Fits(p[2..], n + 1, false)
  }

  /** The red node that the old grandparent becomes in a single rotation. */
  function Lowered<N>(p: Path<N>): Tree<N>
    requires |p| >= 2
  {
    Up(p[1].(red := true), p[0].other)
  }

  lemma {:induction false} SingleRotates<N>(p: Path<N>, q: Tree<N>, n: nat)
    requires Violation(p, q, n) && p[0].right == p[1].right
    ensures var s := Step(false, p[0].item, p[1].right, Lowered(p));
            && RotateSingle(Up(p[1], Up(p[0], q)), !p[1].right) == Up(s, q)
            && Fits([s] + p[2..], n, true)
            && Lefts([s] + p[2..]) == Lefts(p) && Rights([s] + p[2..]) == Rights(p)
  {
    var s := Step(false, p[0].item, p[1].right, Lowered(p));
    var r := [s] + p[2..];
    assert r[1..] == p[2..] && p[1..][1..] == p[2..];
    if p[1].right {
      assert Items(Lowered(p)) == Items(p[1].other) + [p[1].item] + Items(p[0].other);
      assert Lefts(p) == Lefts(p[2..]) + Items(p[1].other) + [p[1].item] + Items(p[0].other) + [p[0].item];
      assert Lefts(r) == Lefts(p[2..]) + Items(Lowered(p)) + [p[0].item];
    } else {
      assert Items(Lowered(p)) == Items(p[0].other) + [p[1].item] + Items(p[1].other);
      assert Rights(p) == [p[0].item] + Items(p[0].other) + ([p[1].item] + Items(p[1].other) + Rights(p[2..]));
      assert Rights(r) == [p[0].item] + Items(Lowered(p)) + Rights(p[2..]);
    }
  }

  lemma {:induction false} DoubleRotates<N>(p: Path<N>, q: Tree<N>, n: nat)
    requires Violation(p, q, n) && p[0].right != p[1].right
    ensures var t := Up(p[1], Up(p[0], q));
            var r := RotateDouble(t, !p[1].right);
            && Balanced(r, n + 1) && r.Node? && !r.red && r.left.Node? && r.left.red && r.right.Node? && r.right.red
            && Items(r) == Items(t)
            && r.item == q.item
            && Child(r, !p[1].right).item == p[1].item && Child(r, p[1].right).item == p[0].item
            && Child(Child(r, !p[1].right), p[1].right) == Child(q, !p[1].right)
            && Child(Child(r, p[1].right), !p[1].right) == Child(q, p[1].right)
  {
    var t := Up(p[1], Up(p[0], q));
    var r := RotateDouble(t, !p[1].right);
    if p[1].right {
      assert r == q.(red := false, left := Node(true, p[1].item, p[1].other, q.left), right := Node(true, p[0].item, q.right, p[0].other));
    } else {
      assert r == q.(red := false, left := Node(true, p[0].item, p[0].other, q.left), right := Node(true, p[1].item, q.right, p[1].other));
    }
    DoubleItems(p[1].item, p[0].item, Items(p[1].other), Items(p[0].other), q.item, Items(q.left), Items(q.right));
    ItemsUp(p[0], q);
    ItemsUp(p[1], Up(p[0], q));
    assert Items(r) == Items(r.left) + [r.item] + Items(r.right);
    assert Items(r.left) == Items(r.left.left) + [r.left.item] + Items(r.left.right);
    assert Items(r.right) == Items(r.right.left) + [r.right.item] + Items(r.right.right);
  }

  lemma {:induction false} ItemsUp<N>(s: Step<N>, t: Tree<N>)
    ensures Items(Up(s, t)) == if s.right then Items(s.other) + [s.item] + Items(t) else Items(t) + [s.item] + Items(s.other)
  {
  }

  lemma {:induction false} DoubleItems<T>(g: T, p: T, go: seq<T>, po: seq<T>, q: T, l: seq<T>, r: seq<T>)
    ensures go + [g] + ((l + [q] + r) + [p] + po) == (go + [g] + l) + [q] + (r + [p] + po)
    ensures (po + [p] + (l + [q] + r)) + [g] + go == (po + [p] + l) + [q] + (r + [g] + go)
  {
  }

  // ---- one round of the descent --------------------------------------------------------------

  /** Where a round leaves the hole: at the node at hand, or above it after a double rotation. */
  function Repaired<N>(p: Path<N>, q: Tree<N>): (Path<N>, Tree<N>)
    requires q.Node?
  {
    if !(q.red && |p| >= 2 && p[0].red) then (p, q)
    else if p[0].right == p[1].right then ([Step(false, p[0].item, p[1].right, Lowered(p))] + p[2..], q)
    else
      var t := Up(p[1], Up(p[0], q));
      if Child(t, p[1].right).Node? && Child(Child(t, p[1].right), !p[1].right).Node?
      then (p[2..], RotateDouble(t, !p[1].right)) else (p, q)
  }

  /** The node at hand after the first half of a round. */
  function Opened<N>(q: Tree<N>, item: Item<N>): Tree<N> {
    if q.Leaf? then Node(true, item, Leaf, Leaf)
    else if IsRed(q.left) && IsRed(q.right) then Flip(q)
    else q
  }

  /** After the repair: the way to the hole fits again, and going down keeps the violation
      repairable. */
  ghost predicate Settled<N>(p: Path<N>, q: Tree<N>, n: nat, x: nat) {
    && Balanced(q, n) && Fits(p, n, IsRed(q)) && q.Node?
    && (q.red ==> (|p| > 0 && !IsRed(p[0].other)) || Calm(Child(q, q.item.lo < x)))
    && (IsRed(q.left) && IsRed(q.right) ==> Calm(Child(Child(q, q.item.lo < x), Child(q, q.item.lo < x).item.lo < x)))
  }

  /** A round without a repair. */
  lemma {:induction false} QuietRound<N>(p: Path<N>, q: Tree<N>, n: nat, x: nat)
    requires Descent(p, q, n, x) && q.Node? && !(IsRed(q.left) && IsRed(q.right))
    ensures Settled(p, q, n, x)
  {
  }

  lemma {:induction false} FitsTwo<N>(p: Path<N>, n: nat)
    requires Fits(p, n, false) && |p| >= 2 && p[0].red
    ensures !p[1].red && Balanced(p[1].other, n) && Balanced(p[0].other, n) && !IsRed(p[0].other) && Fits(p[2..], n + 1, false)
  {
    assert p[1..][0] == p[1] && p[1..][1..] == p[2..];
    assert Fits(p[1..], n, true);
  }

  lemma {:induction false} FlipRound<N>(p: Path<N>, q: Tree<N>, n: nat, x: nat)
    requires Descent(p, q, n, x) && q.Node? && IsRed(q.left) && IsRed(q.right)
    ensures if |p| > 0 && p[0].red then Violation(p, Flip(q), n) else Settled(p, Flip(q), n, x)
  {
    FlipKeeps(q, n, x);
    if |p| > 0 && p[0].red { FitsTwo(p, n); }
  }

  lemma {:induction false} SingleRound<N>(p: Path<N>, f: Tree<N>, n: nat, x: nat)
    requires Violation(p, f, n) && p[0].right == p[1].right && Between(p, x) && Calm(f.left) && Calm(f.right)
    ensures var r := Repaired(p, f); Settled(r.0, r.1, n, x) && Between(r.0, x) && Items(Whole(r.0, r.1)) == Items(Whole(p, f))
  {
    hide Balanced, Fits;
    SingleRotates(p, f, n);
    WholeItems(p, f);
    WholeItems(Repaired(p, f).0, f);
  }

  lemma {:induction false} LeftsTwo<N>(p: Path<N>, x: nat)
    requires |p| >= 2 && Between(p, x)
    ensures Between(p[2..], x)
    ensures if p[1].right then p[1].item.lo < x else p[1].item.lo > x
    ensures if p[0].right then p[0].item.lo < x else p[0].item.lo > x
  {
    hide Between, Below, Beyond;
    assert p[1..][0] == p[1] && p[1..][1..] == p[2..];
    BetweenStep(p, x);
    BetweenStep(p[1..], x);
  }

  lemma {:induction false} DoubleRound<N>(p: Path<N>, f: Tree<N>, n: nat, x: nat)
    requires Violation(p, f, n) && p[0].right != p[1].right && Between(p, x) && Calm(f.left) && Calm(f.right)
    ensures var r := Repaired(p, f); Settled(r.0, r.1, n + 1, x) && Between(r.0, x) && Items(Whole(r.0, r.1)) == Items(Whole(p, f))
  {
    DoubleRotates(p, f, n);
    LeftsTwo(p, x);
    var r := Repaired(p, f).1;
    hide Balanced, Fits;
    var c := Child(r, r.item.lo < x);
    assert Child(c, c.item.lo < x) == Child(f, f.item.lo < x);
    WholeItems(p, f);
    WholeItems(p[2..], r);
    ItemsTwo(p, f, r);
  }

  lemma {:induction false} ItemsTwo<N>(p: Path<N>, q: Tree<N>, r: Tree<N>)
    requires |p| >= 2 && Items(r) == Items(Up(p[1], Up(p[0], q)))
    ensures Items(Whole(p[2..], r)) == Items(Whole(p, q))
  {
    WholeItems(p[2..], r);
    WholeItems(p[2..], Up(p[1], Up(p[0], q)));
    assert p[1..][0] == p[1] && p[1..][1..] == p[2..];
    assert Whole(p, q) == Whole(p[2..], Up(p[1], Up(p[0], q)));
  }

  /** A repaired flip. */
  lemma {:induction false} RepairRound<N>(p: Path<N>, q: Tree<N>, n: nat, x: nat)
    requires Descent(p, q, n, x) && q.Node? && IsRed(q.left) && IsRed(q.right) && |p| > 0 && p[0].red
    ensures var r := Repaired(p, Flip(q));
            Settled(r.0, r.1, if r.1.red then n else n + 1, x) && Between(r.0, x) && Items(Whole(r.0, r.1)) == Items(Whole(p, q))
  {
    hide Balanced, Fits;
    FlipKeeps(q, n, x);
    FlipRound(p, q, n, x);
    var f := Flip(q);
    WholeItems(p, q);
    WholeItems(p, f);
    if p[0].right == p[1].right { SingleRound(p, f, n, x); } else { DoubleRotates(p, f, n); DoubleRound(p, f, n, x); }
  }

  /** One step down from a settled node. */
  function Down<N>(p: Path<N>, q: Tree<N>, x: nat): Path<N>
    requires q.Node?
  {
    [Step(q.red, q.item, q.item.lo < x, Child(q, !(q.item.lo < x)))] + p
  }

  lemma {:induction false} SortedMiddle<N>(p: Path<N>, q: Tree<N>)
    requires Sorted(Items(Whole(p, q)))
    ensures Sorted(Items(q))
  {
    WholeItems(p, q);
    SortedInner(Lefts(p), Items(q), Rights(p));
  }

  lemma {:induction false} BelowLess<N>(s: seq<Item<N>>, x: nat, y: nat)
    ensures Below(s, x) && x <= y ==> Below(s, y)
    ensures Beyond(s, x) && x >= y ==> Beyond(s, y)
  {
  }

  lemma {:induction false} StepDown<N>(p: Path<N>, q: Tree<N>, n: nat, x: nat)
    requires Settled(p, q, n, x) && Between(p, x) && q.item.lo != x && Sorted(Items(Whole(p, q)))
    ensures var c := Child(q, q.item.lo < x);
            Descent(Down(p, q, x), c, if q.red then n else n - 1, x) && Whole(Down(p, q, x), c) == Whole(p, q)
  {
    hide Sorted, Below, Beyond;
    var d := Down(p, q, x);
    assert d[1..] == p && (|p| > 0 ==> d[1] == p[0]);
    assert Up(d[0], Child(q, q.item.lo < x)) == q;
    SortedMiddle(p, q);
    SortedAround(Items(q.left), q.item, Items(q.right));
    BelowLess(Items(q.left), q.item.lo, x);
    BelowLess(Items(q.right), q.item.lo, x);
    BetweenStep(d, x);
  }

  /** The new node hung at the end of the way, and the repair it may need. */
  lemma {:induction false} LeafRound<N>(p: Path<N>, n: nat, item: Item<N>)
    requires Descent(p, Leaf, n, item.lo) && |p| > 0
    ensures n == 0
    ensures var f := Node(true, item, Leaf, Leaf);
            var r := Repaired(p, f);
            && Items(Whole(r.0, r.1)) == Lefts(p) + [item] + Rights(p)
            && exists h: nat :: Balanced(Whole(r.0, r.1), h)
  {
    var f := Node(true, item, Leaf, Leaf);
    var r := Repaired(p, f);
    WholeItems(p, f);
    assert Items(f) == [item];
    if p[0].red {
      FitsTwo(p, 0);
      if p[0].right == p[1].right {
        SingleRotates(p, f, 0);
        WholeItems(r.0, f);
        WholeBalanced(r.0, f, 0);
      } else {
        DoubleRotates(p, f, 0);
        ItemsTwo(p, f, r.1);
        WholeBalanced(p[2..], r.1, 1);
      }
    } else {
      WholeBalanced(p, f, 0);
    }
  }

  // ---- vMemMgrInsertNode ------------------------------------------------------------------------

  /** A valid tree: balanced, with a black root, and sorted by address. */
  ghost predicate Valid<N>(t: Tree<N>) {
    (exists n: nat :: Balanced(t, n)) && !IsRed(t) && Sorted(Items(t))
  }

  /** The items with one more in its place. */
  function Inserted<N>(s: seq<Item<N>>, item: Item<N>): seq<Item<N>> {
    if |s| == 0 then [item]
    else if s[0].lo < item.lo then [s[0]] + Inserted(s[1..], item)
    else [item] + s
  }

  lemma {:induction false} InsertedAt<N>(l: seq<Item<N>>, r: seq<Item<N>>, item: Item<N>)
    requires Below(l, item.lo) && Beyond(r, item.lo)
    ensures Inserted(l + r, item) == l + [item] + r
  {
    if |l| > 0 {
      assert (l + r)[1..] == l[1..] + r;
      assert Below(l[1..], item.lo);
      InsertedAt(l[1..], r, item);
    } else {
      assert l + r == r;
    }
  }

  /** Where an absent address belongs in a sorted row. */
  lemma {:induction false} SplitAt<N>(s: seq<Item<N>>, x: nat) returns (k: nat)
    requires Sorted(s) && Absent(s, x)
    ensures k <= |s| && Below(s[..k], x) && Beyond(s[k..], x)
  {
    k := 0;
    while k < |s| && s[k].lo < x
      invariant k <= |s| && Below(s[..k], x)
    {
      k := k + 1;
    }
  }

  lemma {:induction false} InsertedSorted<N>(s: seq<Item<N>>, item: Item<N>)
    requires Sorted(s) && Absent(s, item.lo)
    ensures Sorted(Inserted(s, item)) && multiset(Inserted(s, item)) == multiset(s) + multiset{item}
  {
    hide Sorted, Below, Beyond, Inserted;
    var k := SplitAt(s, item.lo);
    var l, r := s[..k], s[k..];
    assert s == l + r;
    InsertedAt(l, r, item);
    assert [] + l + r == s && l + r + [] == s;
    SortedInner([], l, r);
    SortedInner(l, r, []);
    SortedAround(l, item, r);
    assert multiset(l + [item] + r) == multiset(l + r) + multiset{item};
  }

  /** The repair keeps the search going down. */
  lemma {:induction false} RepairDepth<N>(p: Path<N>, f: Tree<N>, n: nat, x: nat)
    requires Violation(p, f, n) && Between(p, x)
    ensures var r := Repaired(p, f).1;
            if r.red then r == f else IsRed(Child(r, r.item.lo < x)) && Depth(Child(r, r.item.lo < x), x) == Depth(f, x)
  {
    if p[0].right != p[1].right {
      DoubleRotates(p, f, n);
      LeftsTwo(p, x);
    }
  }

  /** A red node under a red one is one that can be repaired. */
  lemma {:induction false} Ready<N>(p: Path<N>, q: Tree<N>, n: nat, item: Item<N>)
    requires Descent(p, q, n, item.lo)
    ensures var f := Opened(q, item); f.red && |p| > 0 && p[0].red ==> Violation(p, f, n)
  {
    if q.Leaf? {
      if |p| > 0 && p[0].red { FitsTwo(p, n); }
    } else if IsRed(q.left) && IsRed(q.right) {
      FlipRound(p, q, n, item.lo);
    }
  }

  /** A round that does not reach the bottom, and the step down from it. */
  lemma {:induction false} NextRound<N>(p: Path<N>, q: Tree<N>, n: nat, item: Item<N>)
    requires Descent(p, q, n, item.lo) && q.Node? && Sorted(Items(Whole(p, q)))
    requires Absent(Items(Whole(p, q)), item.lo)
    ensures var x, r := item.lo, Repaired(p, Opened(q, item));
            var c := Child(r.1, r.1.item.lo < x);
            var m := if IsRed(q.left) && IsRed(q.right) && !r.1.red then n + 1 else n;
            && (r.1.red || m > 0)
            && Descent(Down(r.0, r.1, x), c, if r.1.red then m else m - 1, x)
            && Items(Whole(Down(r.0, r.1, x), c)) == Items(Whole(p, q))
            && 2 * Depth(c, x) - (if IsRed(c) then 1 else 0) < 2 * Depth(q, x) - if IsRed(q) then 1 else 0
  {
    var x := item.lo;
    var f := Opened(q, item);
    var r := Repaired(p, f);
    var m := if IsRed(q.left) && IsRed(q.right) && !r.1.red then n + 1 else n;
    if IsRed(q.left) && IsRed(q.right) {
      FlipKeeps(q, n, x);
      FlipRound(p, q, n, x);
      WholeItems(p, q);
      WholeItems(p, f);
      if |p| > 0 && p[0].red {
        RepairRound(p, q, n, x);
        RepairDepth(p, f, n, x);
      }
    } else {
      QuietRound(p, q, n, x);
    }
    assert Settled(r.0, r.1, m, x) && Items(Whole(r.0, r.1)) == Items(Whole(p, q));
    ItemThere(r.0, r.1, x);
    StepDown(r.0, r.1, m, x);
  }

  lemma {:induction false} ItemThere<N>(p: Path<N>, q: Tree<N>, x: nat)
    requires q.Node? && Absent(Items(Whole(p, q)), x)
    ensures q.item.lo != x
  {
    hide Absent;
    WholeItems(p, q);
    BoundsCat(Lefts(p) + Items(q), Rights(p), x);
    BoundsCat(Lefts(p), Items(q), x);
    BoundsAround(Items(q.left), q.item, Items(q.right), x);
  }

  lemma {:induction false} PaintBlack<N>(t: Tree<N>, h: nat) returns (n: nat)
    requires Balanced(t, h)
    ensures Balanced(Paint(t, false), n) && Items(Paint(t, false)) == Items(t) && !IsRed(Paint(t, false))
  {
    n := if IsRed(t) then h + 1 else h;
  }

  lemma {:induction false} InsertedLeaf<N>(p: Path<N>, n: nat, root: Tree<N>, item: Item<N>, t: Tree<N>)
    requires Descent(p, Leaf, n, item.lo) && Items(Whole(p, Leaf)) == Items(root) && Valid(root) && Absent(Items(root), item.lo)
    requires Items(t) == Lefts(p) + [item] + Rights(p) && (exists h: nat :: Balanced(t, h))
    ensures Valid(Paint(t, false)) && Items(Paint(t, false)) == Inserted(Items(root), item)
  {
    hide Sorted, Inserted, Below, Beyond, Balanced, Absent, Items, Fits, Repairable, Lefts, Rights, Whole;
    WholeItems(p, Leaf);
    assert Items<N>(Leaf) == [] by { NoItems<N>(); }
    assert Items(root) == Lefts(p) + Rights(p);
    InsertedAt(Lefts(p), Rights(p), item);
    InsertedSorted(Items(root), item);
    var h: nat :| Balanced(t, h);
    var m := PaintBlack(t, h);
  }

  lemma {:induction false} NoItems<N>()
    ensures Items<N>(Leaf) == []
  {
  }

  lemma {:induction false} OneNode<N>(item: Item<N>)
    ensures Valid(Node(false, item, Leaf, Leaf)) && Items(Node(false, item, Leaf, Leaf)) == Inserted(Items<N>(Leaf), item)
  {
    assert Balanced(Node(false, item, Leaf, Leaf), 1);
    assert Items(Node(false, item, Leaf, Leaf)) == [item];
  }

  lemma {:induction false} Start<N>(root: Tree<N>, x: nat) returns (n: nat)
    requires Valid(root)
    ensures Descent([], root, n, x) && Sorted(Items(root)) && Items(Whole([], root)) == Items(root)
  {
    n :| Balanced(root, n);
  }

  // ---- the helper pointers ---------------------------------------------------------------------

  /** NULL, the false root, or the node with an address. */
  datatype Link = Null | Head | To(lo: nat)

  function Parent<N>(p: Path<N>): Link { if |p| > 0 then To(p[0].item.lo) else Null }
  function Grandparent<N>(p: Path<N>): Link { if |p| > 1 then To(p[1].item.lo) else Null }
  function Above<N>(p: Path<N>): Link { if |p| > 2 then To(p[2].item.lo) else Head }

  /** The first round behind a double rotation. */
  predicate Turned<N>(p: Path<N>, q: Tree<N>) {
    |p| > 0 && !p[0].red && IsRed(q) && IsRed(p[0].other)
  }

  /** What the pointers t, g and p of the descent are good for. After a rotation g and t do not
      follow the tree at once: they may be stale while the node at hand needs no repair. */
  predicate Linked<N>(way: Path<N>, q: Tree<N>, t: Link, g: Link, p: Link) {
    && p == Parent(way)
    && (g == Grandparent(way) || Turned(way, q))
    && (t == Above(way) || (Calm(q) && |way| >= 2) || Turned(way, q))
  }

  /** Whenever a repair is due, the three pointers are the parent, the grandparent and the node
      above it. */
  lemma {:induction false} LinksGood<N>(way: Path<N>, q: Tree<N>, n: nat, item: Item<N>, t: Link, g: Link, p: Link)
    requires Descent(way, q, n, item.lo) && Linked(way, q, t, g, p)
    ensures Opened(q, item).red && |way| > 0 && way[0].red ==> p == Parent(way) && g == Grandparent(way) && t == Above(way)
  {
  }

  /** The pointers move down with the search. */
  lemma {:induction false} LinksMove<N>(way: Path<N>, q: Tree<N>, n: nat, item: Item<N>, t: Link, g: Link, p: Link)
    requires Descent(way, q, n, item.lo) && q.Node? && Linked(way, q, t, g, p)
    ensures var r := Repaired(way, Opened(q, item));
            Linked(Down(r.0, r.1, item.lo), Child(r.1, r.1.item.lo < item.lo), if g != Null then g else t, p, To(r.1.item.lo))
  {
    hide Between, Fits;
    var f := Opened(q, item);
    var r := Repaired(way, f);
    var d := Down(r.0, r.1, item.lo);
    var c := Child(r.1, r.1.item.lo < item.lo);
    if IsRed(q.left) && IsRed(q.right) {
      FlipKeeps(q, n, item.lo);
      FlipRound(way, q, n, item.lo);
      if |way| > 0 && way[0].red {
        if way[0].right == way[1].right {
          assert d[1..] == r.0 && d[1] == r.0[0];
        } else {
          DoubleRotates(way, f, n);
          RepairDepth(way, f, n, item.lo);
          assert Turned(d, c);
        }
      } else {
        assert r.0 == way && r.1 == f && Calm(c);
      }
    } else {
      assert !(q.red && |way| >= 2 && way[0].red) by { NoViolation(way, q, n, item.lo); }
      assert r.0 == way && r.1 == q;
    }
  }

  lemma {:induction false} StartLinked<N>(root: Tree<N>)
    ensures Linked([], root, Head, Null, Null)
  {
  }

  lemma {:induction false} NoViolation<N>(p: Path<N>, q: Tree<N>, n: nat, x: nat)
    requires Descent(p, q, n, x)
    ensures !(IsRed(q) && |p| > 0 && p[0].red)
  {
  }

  /** The repair of a red violation: a single or a double rotation of the grandparent, hung
      below the node above it. */
  method Repair<N>(p0: Path<N>, q0: Tree<N>, ghost n: nat, ghost t: Link, ghost g: Link, ghost parent: Link) returns (p: Path<N>, q: Tree<N>)
    requires q0.Node? && (q0.red && |p0| > 0 && p0[0].red ==> Violation(p0, q0, n))
    requires q0.red && |p0| > 0 && p0[0].red ==> parent == Parent(p0) && g == Grandparent(p0) && t == Above(p0)
    ensures (p, q) == Repaired(p0, q0) && q.Node?
  {
    p, q := p0, q0;
    if q.red && |p| > 0 && p[0].red {
      var last := p[1].right;
      var below := Up(p[1], Up(p[0], q));
      if p[0].right == last {
        SingleRotates(p, q, n);
        var s := RotateSingle(below, !last);
        p, q := [Step(s.red, s.item, last, Child(s, !last))] + p[2..], Child(s, last);
      } else {
        DoubleRotates(p, q, n);
        p, q := p[2..], RotateDouble(below, !last);
      }
    }
  }

  /** Adds a node: one way down, with colour flips, repairs on the way, and a black root. */
  method InsertNode<N>(root: Tree<N>, item: Item<N>) returns (r: Tree<N>)
    requires Valid(root) && Absent(Items(root), item.lo)
    ensures Valid(r) && Items(r) == Inserted(Items(root), item)
  {
    hide Below, Beyond, Sorted, Absent, Descent, Lefts, Rights, Inserted, Violation, Repaired, Depth, Valid, Linked;
    if root.Leaf? {
      OneNode(item);
      r := Node(false, item, Leaf, Leaf);
      return;
    }
    var p: Path<N>, q := [], root;
    ghost var n := Start(root, item.lo);
    ghost var x := item.lo;
    assert Linked(p, q, Head, Null, Null) by { StartLinked(root); }
    ghost var t, g, parent := Head, Null, Null;
    var done := false;
    while true
      invariant Descent(p, q, n, x) && Items(Whole(p, q)) == Items(root) && Linked(p, q, t, g, parent)
      invariant |p| == 0 ==> q.Node?
      decreases 2 * Depth(q, x) - if IsRed(q) then 1 else 0
    {
      ghost var q0, p0 := q, p;
      if q.Leaf? {
        q := Node(true, item, Leaf, Leaf);
        done := true;
      } else if IsRed(q.left) && IsRed(q.right) {
        q := Flip(q);
      }
      Ready(p0, q0, n, item);
      LinksGood(p0, q0, n, item, t, g, parent);
      p, q := Repair(p, q, n, t, g, parent);
      assert (p, q) == Repaired(p0, Opened(q0, item));
      if done {
        LeafRound(p0, n, item);
        r := Paint(Whole(p, q), false);
        InsertedLeaf(p0, n, root, item, Whole(p, q));
        return;
      }
      NextRound(p0, q0, n, item);
      LinksMove(p0, q0, n, item, t, g, parent);
      t, g, parent := if g != Null then g else t, parent, To(q.item.lo);
      n := if IsRed(q0.left) && IsRed(q0.right) && !q.red then n + 1 else n;
      n := if q.red then n else n - 1;
      p, q := Down(p, q, item.lo), Child(q, q.item.lo < item.lo);
    }
  }

  // ---- vMemMgrFindNodeByPtr ----------------------------------------------------------------------

  /** The ranges of the items follow one another without overlap. */
  predicate Apart<N>(s: seq<Item<N>>) {
    && (forall i :: 0 <= i < |s| ==> s[i].lo < s[i].hi)
    && (forall i, j :: 0 <= i < j < |s| ==> s[i].hi <= s[j].lo)
  }

  predicate Holds<N>(i: Item<N>, p: nat) { i.lo <= p < i.hi }

  lemma {:induction false} ApartCat<N>(a: seq<Item<N>>, b: seq<Item<N>>)
    requires Apart(a + b)
    ensures Apart(a) && Apart(b)
    ensures forall i, j :: 0 <= i < |a| && 0 <= j < |b| ==> a[i].hi <= b[j].lo
  {
    var s := a + b;
    assert forall k :: 0 <= k < |a| ==> s[k] == a[k];
    forall k | 0 <= k < |b| ensures b[k] == s[|a| + k] { }
  }

  /** Some item of a row holds the address. */
  predicate Somewhere<N>(s: seq<Item<N>>, p: nat) { exists k :: 0 <= k < |s| && Holds(s[k], p) }

  lemma {:induction false} SomewhereCat<N>(a: seq<Item<N>>, b: seq<Item<N>>, p: nat)
    ensures Somewhere(a + b, p) <==> Somewhere(a, p) || Somewhere(b, p)
  {
    var s := a + b;
    forall k | 0 <= k < |a| ensures s[k] == a[k] { }
    forall k | 0 <= k < |b| ensures s[|a| + k] == b[k] { }
    if k :| 0 <= k < |b| && Holds(b[k], p) { assert Holds(s[|a| + k], p); }
    if k :| 0 <= k < |a| && Holds(a[k], p) { assert Holds(s[k], p); }
  }

  lemma {:induction false} SomewhereOne<N>(i: Item<N>, p: nat)
    ensures Somewhere([i], p) <==> Holds(i, p)
  {
    assert [i][0] == i;
  }

  lemma {:induction false} Narrow<N>(t: Tree<N>, p: nat)
    requires t.Node? && Apart(Items(t))
    ensures Apart(Items(t.left)) && Apart(Items(t.right))
    ensures p < t.item.lo ==> (Somewhere(Items(t), p) <==> Somewhere(Items(t.left), p))
    ensures p >= t.item.hi ==> (Somewhere(Items(t), p) <==> Somewhere(Items(t.right), p))
  {
    hide Somewhere;
    var a, b, m := Items(t.left), Items(t.right), [t.item];
    ApartCat(a + m, b);
    ApartCat(a, m);
    SomewhereCat(a + m, b, p);
    SomewhereCat(a, m, p);
    SomewhereOne(t.item, p);
    if p < t.item.lo {
      assert (a + m)[|a|] == t.item;
      NotAfter(b, p);
    } else if p >= t.item.hi {
      assert m[0] == t.item;
      NotBefore(a, p);
    }
  }

  lemma {:induction false} NotAfter<N>(s: seq<Item<N>>, p: nat)
    requires forall k :: 0 <= k < |s| ==> s[k].lo > p
    ensures !Somewhere(s, p)
  {
  }

  lemma {:induction false} NotBefore<N>(s: seq<Item<N>>, p: nat)
    requires forall k :: 0 <= k < |s| ==> s[k].hi <= p
    ensures !Somewhere(s, p)
  {
  }

  lemma {:induction false} RootAmong<N>(t: Tree<N>)
    requires t.Node?
    ensures t.item in Items(t)
    ensures forall i :: i in Items(t.left) || i in Items(t.right) ==> i in Items(t)
  {
  }

  /** The node whose range holds an address, None when there is none. */
  method FindNodeByPtr<N>(root: Tree<N>, mem: nat) returns (found: Option<Item<N>>)
    requires Apart(Items(root))
    ensures found.Some? <==> Somewhere(Items(root), mem)
    ensures found.Some? ==> found.value in Items(root) && Holds(found.value, mem)
  {
    var t := root;
    found := None;
    while t.Node?
      invariant Apart(Items(t)) && (Somewhere(Items(root), mem) <==> Somewhere(Items(t), mem))
      invariant forall i :: i in Items(t) ==> i in Items(root)
      decreases t
    {
      Narrow(t, mem);
      RootAmong(t);
      if mem < t.item.lo {
        t := t.left;
      } else if mem >= t.item.hi {
        t := t.right;
      } else {
        assert Items(t)[|Items(t.left)|] == t.item;
        return Some(t.item);
      }
    }
  }
}
