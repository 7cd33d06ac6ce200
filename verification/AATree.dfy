/** The Andersson tree of constants of one size: lookup, insertion with an explicit stack of
    the way down, and in-order traversal with an explicit stack. */
module AATree {
  import opened Word32
  import Bits

  /** The most nodes that put and iterate can stack. */
  const HEIGHT_LIMIT := 64

  type Data = seq<Byte>

  /** memcmp(a, b) < 0 for data of one length. */
  predicate Less(a: Data, b: Data) {
    |a| > 0 && |b| > 0 && (a[0] < b[0] || (a[0] == b[0] && Less(a[1..], b[1..])))
  }

  datatype Constant = Constant(data: Data, shared: bool, offset: nat)

  datatype Tree = Leaf | Node(level: nat, item: Constant, left: Tree, right: Tree)

  function Level(t: Tree): nat { if t.Leaf? then 0 else t.level }
  function RightLevel(t: Tree): nat { if t.Leaf? then 0 else Level(t.right) }

  function Items(t: Tree): seq<Constant> {
    if t.Leaf? then [] else Items(t.left) + [t.item] + Items(t.right)
  }

  /** Levels: one less on the left, at most equal on the right, and never three in a row. */
  predicate Levelled(t: Tree) {
    t.Node? ==>
      && t.level == Level(t.left) + 1
      && (Level(t.right) == t.level || Level(t.right) + 1 == t.level)
      && RightLevel(t.right) < t.level
      && Levelled(t.left) && Levelled(t.right)
  }

  // ---- the order of data -----------------------------------------------------------------

  lemma {:induction false} LessTotal(a: Data, b: Data)
    requires |a| == |b|
    ensures !(Less(a, b) && Less(b, a))
    ensures a == b <==> !Less(a, b) && !Less(b, a)
  {
    if |a| > 0 {
      LessTotal(a[1..], b[1..]);
      assert a == [a[0]] + a[1..] && b == [b[0]] + b[1..];
    }
  }

  lemma {:induction false} LessTrans(a: Data, b: Data, c: Data)
    requires Less(a, b) && Less(b, c)
    ensures Less(a, c)
  {
    if a[0] == b[0] && b[0] == c[0] { LessTrans(a[1..], b[1..], c[1..]); }
  }

  ghost predicate Below(s: seq<Constant>, d: Data) { forall k :: 0 <= k < |s| ==> Less(s[k].data, d) }
  ghost predicate Above(s: seq<Constant>, d: Data) { forall k :: 0 <= k < |s| ==> Less(d, s[k].data) }

  /** Strictly sorted: every constant once. */
  ghost predicate Sorted(s: seq<Constant>) {
    forall i, j :: 0 <= i < j < |s| ==> Less(s[i].data, s[j].data)
  }

  ghost predicate OfSize(s: seq<Constant>, n: nat) { forall k :: 0 <= k < |s| ==> |s[k].data| == n }

  lemma {:induction false} CatBounds(a: seq<Constant>, b: seq<Constant>, d: Data, n: nat)
    ensures Below(a + b, d) <==> Below(a, d) && Below(b, d)
    ensures Above(a + b, d) <==> Above(a, d) && Above(b, d)
    ensures OfSize(a + b, n) <==> OfSize(a, n) && OfSize(b, n)
  {
    hide Less;
    var s := a + b;
    assert forall k :: 0 <= k < |a| ==> s[k] == a[k];
    assert forall k :: 0 <= k < |b| ==> s[|a| + k] == b[k];
  }

  lemma {:induction false} OneBounds(m: Constant, d: Data, n: nat)
    ensures Below([m], d) <==> Less(m.data, d)
    ensures Above([m], d) <==> Less(d, m.data)
    ensures OfSize([m], n) <==> |m.data| == n
  {
    assert [m][0] == m;
  }

  lemma {:induction false} SortedAround(a: seq<Constant>, m: Constant, b: seq<Constant>)
    ensures Sorted(a + [m] + b) <==> Sorted(a) && Sorted(b) && Below(a, m.data) && Above(b, m.data)
  {
    hide Less;
    var s := a + [m] + b;
    assert forall k :: 0 <= k < |a| ==> s[k] == a[k];
    assert s[|a|] == m;
    assert forall k :: 0 <= k < |b| ==> s[|a| + 1 + k] == b[k];
    if Sorted(a) && Sorted(b) && Below(a, m.data) && Above(b, m.data) {
      forall i, j | 0 <= i < j < |s|
        ensures Less(s[i].data, s[j].data)
      {
        if i > |a| {
          assert s[i] == b[i - |a| - 1] && s[j] == b[j - |a| - 1];
        } else if i < |a| && j > |a| {
          assert s[j] == b[j - |a| - 1];
          LessTrans(s[i].data, m.data, s[j].data);
        } else if i == |a| {
          assert s[j] == b[j - |a| - 1];
        }
      }
    }
  }

  lemma {:induction false} SortedParts(a: seq<Constant>, b: seq<Constant>)
    requires Sorted(a + b)
    ensures Sorted(a) && Sorted(b)
  {
    var s := a + b;
    assert forall k :: 0 <= k < |a| ==> s[k] == a[k];
    assert forall k :: 0 <= k < |b| ==> s[|a| + k] == b[k];
  }

  lemma {:induction false} BoundTrans(s: seq<Constant>, d: Data, e: Data)
    ensures Below(s, d) && Less(d, e) ==> Below(s, e)
    ensures Above(s, d) && Less(e, d) ==> Above(s, e)
  {
    if Below(s, d) && Less(d, e) { forall k | 0 <= k < |s| ensures Less(s[k].data, e) { LessTrans(s[k].data, d, e); } }
    if Above(s, d) && Less(e, d) { forall k | 0 <= k < |s| ensures Less(e, s[k].data) { LessTrans(e, d, s[k].data); } }
  }

  // ---- lookup --------------------------------------------------------------------------------

  /** The constant with the given data. */
  ghost predicate Among(s: seq<Constant>, d: Data) { exists k :: 0 <= k < |s| && s[k].data == d }

  lemma {:induction false} AmongAround(a: seq<Constant>, m: Constant, b: seq<Constant>, d: Data)
    ensures Among(a + [m] + b, d) <==> Among(a, d) || m.data == d || Among(b, d)
  {
    var s := a + [m] + b;
    assert forall k :: 0 <= k < |a| ==> s[k] == a[k];
    assert s[|a|] == m;
    assert forall k :: 0 <= k < |b| ==> s[|a| + 1 + k] == b[k];
    if Among(s, d) {
      var k :| 0 <= k < |s| && s[k].data == d;
      if k > |a| { assert s[k] == b[k - |a| - 1]; }
    }
  }

  lemma {:induction false} NotAmong(s: seq<Constant>, d: Data, n: nat)
    requires OfSize(s, n) && |d| == n
    ensures Below(s, d) ==> !Among(s, d)
    ensures Above(s, d) ==> !Among(s, d)
  {
    forall k | 0 <= k < |s| ensures s[k].data == d ==> !Less(s[k].data, d) && !Less(d, s[k].data) { LessTotal(s[k].data, d); }
  }

  lemma {:induction false} Narrow(t: Tree, d: Data, n: nat)
    requires t.Node? && Sorted(Items(t)) && OfSize(Items(t), n) && |d| == n
    ensures Sorted(Items(t.left)) && Sorted(Items(t.right)) && OfSize(Items(t.left), n) && OfSize(Items(t.right), n) && |t.item.data| == n
    ensures Less(t.item.data, d) ==> (Among(Items(t), d) <==> Among(Items(t.right), d))
    ensures Less(d, t.item.data) ==> (Among(Items(t), d) <==> Among(Items(t.left), d))
  {
    hide Less, Below, Above, Among, OfSize, Sorted;
    var a, b := Items(t.left), Items(t.right);
    SortedAround(a, t.item, b);
    CatBounds(a + [t.item], b, d, n);
    CatBounds(a, [t.item], d, n);
    OneBounds(t.item, d, n);
    AmongAround(a, t.item, b, d);
    BoundTrans(a, t.item.data, d);
    BoundTrans(b, t.item.data, d);
    NotAmong(a, d, n);
    NotAmong(b, d, n);
    LessTotal(t.item.data, d);
  }

  method Get(root: Tree, d: Data) returns (found: Option<Constant>)
    requires Sorted(Items(root)) && OfSize(Items(root), |d|)
    ensures found.Some? <==> Among(Items(root), d)
    ensures found.Some? ==> found.value in Items(root) && found.value.data == d
  {
    hide Less, Among, OfSize, Sorted;
    var t := root;
    found := None;
    ghost var n := |d|;
    while t.Node?
      invariant Sorted(Items(t)) && OfSize(Items(t), n)
      invariant Among(Items(root), d) <==> Among(Items(t), d)
      invariant forall i :: i in Items(t) ==> i in Items(root)
      decreases t
    {
      Narrow(t, d, n);
      LessTotal(t.item.data, d);
      assert t.item in Items(t);
      assert forall i :: i in Items(t.left) || i in Items(t.right) ==> i in Items(t);
      if t.item.data == d {
        ThereItIs(t, d);
        return Some(t.item);
      }
      t := if Less(t.item.data, d) then t.right else t.left;
    }
    assert !Among([], d) by { NothingAmong(d); }
  }

  lemma {:induction false} NothingAmong(d: Data)
    ensures !Among([], d)
  {
  }

  lemma {:induction false} ThereItIs(t: Tree, d: Data)
    requires t.Node? && t.item.data == d
    ensures Among(Items(t), d)
  {
    AmongAround(Items(t.left), t.item, Items(t.right), d);
  }

  // ---- skew and split ------------------------------------------------------------------------

  /** Removes a left horizontal link. */
  function Skew(t: Tree): Tree {
    if t.Node? && t.level != 0 && t.left.Node? && t.left.level == t.level
    then t.left.(right := t.(left := t.left.right))
    else t
  }

  /** Removes two consecutive horizontal links. */
  function Split(t: Tree): Tree {
    if t.Node? && t.level != 0 && t.right.Node? && t.right.right.Node? && t.right.right.level == t.level
    then Node(t.level + 1, t.right.item, t.(right := t.right.left), t.right.right)
    else t
  }

  lemma {:induction false} Regroup<T>(a: seq<T>, m: T, b: seq<T>, k: T, c: seq<T>)
    ensures (a + [m] + b) + [k] + c == a + [m] + (b + [k] + c)
  {
  }

  lemma {:induction false} SkewItems(t: Tree)
    ensures Items(Skew(t)) == Items(t)
  {
    if t.Node? && t.level != 0 && t.left.Node? && t.left.level == t.level {
      var l := t.left;
      Regroup(Items(l.left), l.item, Items(l.right), t.item, Items(t.right));
      assert Items(t.(left := l.right)) == Items(l.right) + [t.item] + Items(t.right);
    }
  }

  lemma {:induction false} SplitItems(t: Tree)
    ensures Items(Split(t)) == Items(t)
  {
    if t.Node? && t.level != 0 && t.right.Node? && t.right.right.Node? && t.right.right.level == t.level {
      var r := t.right;
      Regroup(Items(t.left), t.item, Items(r.left), r.item, Items(r.right));
      assert Items(t.(right := r.left)) == Items(t.left) + [t.item] + Items(r.left);
    }
  }

  /** What an insertion below may do to a subtree: its level stays, or grows by one where there
      was a horizontal link to the right, which is then gone. */
  predicate Grew(t: Tree, r: Tree) {
    && Levelled(r) && r.Node?
    && (r.level == Level(t) || (r.level == Level(t) + 1 && RightLevel(r) < r.level && (t.Leaf? || RightLevel(t) == t.level)))
  }

  lemma {:induction false} RightBound(t: Tree)
    requires Levelled(t)
    ensures RightLevel(t) <= Level(t)
  {
  }

  /** Skew and split restore the levels of a node one of whose subtrees grew. */
  lemma {:induction false} Rebalances(t: Tree, right: bool, c: Tree)
    requires t.Node? && Levelled(t) && Grew(if right then t.right else t.left, c)
    ensures Grew(t, Split(Skew(if right then t.(right := c) else t.(left := c))))
  {
    if right {
      var u := t.(right := c);
      assert Skew(u) == u;
      if c.right.Node? && c.right.level == t.level {
        assert c.level == t.level;
        RightBound(c.left);
        assert Level(c.left) + 1 == t.level && RightLevel(c.left) < t.level;
        assert Levelled(t.(right := c.left));
        assert RightLevel(c.right) < c.level;
        assert Split(u) == Node(t.level + 1, c.item, t.(right := c.left), c.right);
      } else {
        assert Split(u) == u;
        assert RightLevel(c) < t.level;
      }
    } else {
      var u := t.(left := c);
      if c.level == t.level { assert Skew(u) == c.(right := t.(left := c.right)); }
    }
  }

  // ---- put -------------------------------------------------------------------------------------

  datatype Step = Step(level: nat, item: Constant, right: bool, other: Tree)

  function Up(s: Step, t: Tree): Tree {
    if s.right then Node(s.level, s.item, s.other, t) else Node(s.level, s.item, t, s.other)
  }

  /** The nodes of the stack, innermost first, with a subtree at their end. */
  function Whole(p: seq<Step>, t: Tree): Tree
    decreases |p|
  {
    if |p| == 0 then t else Whole(p[1..], Up(p[0], t))
  }

  function Lefts(p: seq<Step>): seq<Constant> {
    if |p| == 0 then [] else if p[0].right then Lefts(p[1..]) + Items(p[0].other) + [p[0].item] else Lefts(p[1..])
  }

  function Rights(p: seq<Step>): seq<Constant> {
    if |p| == 0 then [] else if p[0].right then Rights(p[1..]) else [p[0].item] + Items(p[0].other) + Rights(p[1..])
  }

  lemma {:induction false} Shift<T>(a: seq<T>, b: seq<T>, c: seq<T>, d: seq<T>, e: seq<T>)
    ensures a + (b + c + d) + e == (a + b + c) + d + e
    ensures a + (b + c + d) + e == a + b + (c + d + e)
  {
  }

  lemma {:induction false} WholeItems(p: seq<Step>, t: Tree)
    ensures Items(Whole(p, t)) == Lefts(p) + Items(t) + Rights(p)
    decreases |p|
  {
    if |p| > 0 {
      WholeItems(p[1..], Up(p[0], t));
      Shift(Lefts(p[1..]), Items(p[0].other), [p[0].item], Items(t), Rights(p[1..]));
      Shift(Lefts(p[1..]), Items(t), [p[0].item], Items(p[0].other), Rights(p[1..]));
    }
  }

  lemma {:induction false} WholeLevelled(p: seq<Step>, t: Tree)
    requires Levelled(Whole(p, t))
    ensures Levelled(t) && (|p| > 0 ==> Levelled(Up(p[0], t)))
    decreases |p|
  {
    if |p| > 0 { WholeLevelled(p[1..], Up(p[0], t)); }
  }

  function Height(t: Tree): nat {
    if t.Leaf? then 0 else 1 + if Height(t.left) > Height(t.right) then Height(t.left) else Height(t.right)
  }

  lemma {:induction false} PathHeight(p: seq<Step>, t: Tree)
    ensures |p| + Height(t) <= Height(Whole(p, t))
    decreases |p|
  {
    if |p| > 0 { PathHeight(p[1..], Up(p[0], t)); }
  }

  /** A levelled tree of level n is at most 2 * n high and has at least 2^n - 1 nodes. */
  lemma {:induction false} LevelBounds(t: Tree)
    requires Levelled(t)
    ensures Height(t) <= 2 * Level(t) && (t.Node? && RightLevel(t) < t.level ==> Height(t) <= 2 * t.level - 1)
    ensures |Items(t)| + 1 >= Pow2(Level(t))
  {
    if t.Node? {
      LevelBounds(t.left);
      LevelBounds(t.right);
      if t.right.Node? && t.right.level == t.level {
        LevelBounds(t.right.left);
        LevelBounds(t.right.right);
        assert |Items(t.right)| == |Items(t.right.left)| + 1 + |Items(t.right.right)|;
      }
    }
  }

  /** Fewer than 2^32 - 1 nodes never fill the stacks. */
  lemma {:induction false} HeightFits(t: Tree)
    requires Levelled(t) && |Items(t)| + 1 < M
    ensures Height(t) <= HEIGHT_LIMIT - 2
  {
    LevelBounds(t);
    Pow2At32();
    if Level(t) >= 32 { Bits.Pow2Grows(32, Level(t)); }
  }

  ghost predicate Valid(t: Tree, n: nat) {
    Levelled(t) && Sorted(Items(t)) && OfSize(Items(t), n)
  }

  ghost predicate Between(p: seq<Step>, d: Data) { Below(Lefts(p), d) && Above(Rights(p), d) }

  lemma {:induction false} BetweenStep(p: seq<Step>, d: Data)
    requires |p| > 0
    ensures Between(p, d) <==>
      (Between(p[1..], d)
       && if p[0].right then Below(Items(p[0].other), d) && Less(p[0].item.data, d) else Above(Items(p[0].other), d) && Less(d, p[0].item.data))
  {
    hide Below, Above, Less;
    var l, r, o, m := Lefts(p[1..]), Rights(p[1..]), Items(p[0].other), p[0].item;
    OneBounds(m, d, 0);
    CatBounds(l + o, [m], d, 0);
    CatBounds(l, o, d, 0);
    CatBounds([m] + o, r, d, 0);
    CatBounds([m], o, d, 0);
  }

  lemma {:induction false} MiddleParts(p: seq<Step>, t: Tree, n: nat)
    requires Sorted(Items(Whole(p, t))) && OfSize(Items(Whole(p, t)), n)
    ensures Sorted(Items(t)) && OfSize(Items(t), n)
  {
    hide Sorted, OfSize;
    WholeItems(p, t);
    SortedParts(Lefts(p) + Items(t), Rights(p));
    SortedParts(Lefts(p), Items(t));
    CatBounds(Lefts(p) + Items(t), Rights(p), [], n);
    CatBounds(Lefts(p), Items(t), [], n);
  }

  lemma {:induction false} NotHere(p: seq<Step>, t: Tree, d: Data)
    requires t.Node? && !Among(Items(Whole(p, t)), d)
    ensures t.item.data != d
  {
    WholeItems(p, t);
    var l, m, r := Lefts(p), Items(t), Rights(p);
    assert (l + m + r)[|l| + |Items(t.left)|] == t.item;
  }

  /** One step down the search path keeps the bounds. */
  lemma {:induction false} StepBounds(p: seq<Step>, t: Tree, d: Data, n: nat)
    requires t.Node? && Between(p, d) && Sorted(Items(Whole(p, t))) && OfSize(Items(Whole(p, t)), n) && |d| == n && t.item.data != d
    ensures var right := Less(t.item.data, d);
            var q := [Step(t.level, t.item, right, if right then t.left else t.right)] + p;
            Between(q, d) && Whole(q, if right then t.right else t.left) == Whole(p, t)
  {
    hide Below, Above, Less, Sorted, OfSize;
    var right := Less(t.item.data, d);
    var q := [Step(t.level, t.item, right, if right then t.left else t.right)] + p;
    assert q[1..] == p;
    MiddleParts(p, t, n);
    Narrow(t, d, n);
    LessTotal(t.item.data, d);
    SortedAround(Items(t.left), t.item, Items(t.right));
    BoundTrans(Items(t.left), t.item.data, d);
    BoundTrans(Items(t.right), t.item.data, d);
    BetweenStep(q, d);
  }

  /** The constants with a new one in its place. */
  function Inserted(s: seq<Constant>, c: Constant): seq<Constant> {
    if |s| == 0 then [c]
    else if Less(s[0].data, c.data) then [s[0]] + Inserted(s[1..], c)
    else [c] + s
  }

  lemma {:induction false} InsertedAt(l: seq<Constant>, r: seq<Constant>, c: Constant)
    requires Below(l, c.data) && Above(r, c.data)
    ensures Inserted(l + r, c) == l + [c] + r
  {
    if |l| > 0 {
      assert (l + r)[1..] == l[1..] + r;
      InsertedAt(l[1..], r, c);
    } else {
      assert l + r == r;
      if |r| > 0 { LessAsym(r[0].data, c.data); }
    }
  }

  lemma {:induction false} LessAsym(a: Data, b: Data)
    ensures !(Less(a, b) && Less(b, a))
  {
    if |a| > 0 && |b| > 0 { LessAsym(a[1..], b[1..]); }
  }

  /** Links a new leaf and rebalances every node on the way back up. */
  method Put(root: Tree, c: Constant) returns (r: Tree)
    requires Valid(root, |c.data|) && !Among(Items(root), c.data) && |Items(root)| + 1 < M
    ensures Valid(r, |c.data|) && Items(r) == Inserted(Items(root), c)
  {
    hide Less, Below, Above, Among, Sorted, OfSize, Between, Inserted;
    ghost var n, d := |c.data|, c.data;
    var stack: seq<Step> := [];
    var node := root;
    HeightFits(root);
    assert Between([], d) by { NoSteps(d); }
    while node.Node?
      invariant Whole(stack, node) == root && Between(stack, d) && |stack| <= HEIGHT_LIMIT
      decreases node
    {
      NotHere(stack, node, d);
      StepBounds(stack, node, d, n);
      var right := Less(node.item.data, c.data);
      stack := [Step(node.level, node.item, right, if right then node.left else node.right)] + stack;
      node := if right then node.right else node.left;
      PathHeight(stack, node);
    }
    var t := Node(1, c, Leaf, Leaf);
    ghost var before := Leaf;
    LeafGrew(c);
    PutItems(stack, root, c, n);
    assert Items(t) == [c];
    WholeItems(stack, t);
    while |stack| > 0
      invariant Whole(stack, before) == root && Grew(before, t) && |stack| <= HEIGHT_LIMIT
      invariant Items(Whole(stack, t)) == Inserted(Items(root), c)
      decreases |stack|
    {
      ghost var above := Up(stack[0], before);
      WholeLevelled(stack, before);
      Rebalances(above, stack[0].right, t);
      var linked := Up(stack[0], t);
      SameItems(stack[1..], linked);
      t := Split(Skew(linked));
      before := above;
      stack := stack[1..];
    }
    r := t;
  }

  lemma {:induction false} LeafGrew(c: Constant)
    ensures Grew(Leaf, Node(1, c, Leaf, Leaf))
  {
    assert Levelled(Leaf);
  }

  lemma {:induction false} NoSteps(d: Data)
    ensures Between([], d)
  {
  }

  lemma {:induction false} SameItems(p: seq<Step>, t: Tree)
    ensures Items(Whole(p, Split(Skew(t)))) == Items(Whole(p, t))
  {
    SkewItems(t);
    SplitItems(Skew(t));
    WholeItems(p, t);
    WholeItems(p, Split(Skew(t)));
  }

  lemma {:induction false} PutItems(p: seq<Step>, root: Tree, c: Constant, n: nat)
    requires Whole(p, Leaf) == root && Between(p, c.data) && Valid(root, n) && |c.data| == n
    ensures Lefts(p) + [c] + Rights(p) == Inserted(Items(root), c)
    ensures Sorted(Inserted(Items(root), c)) && OfSize(Inserted(Items(root), c), n)
  {
    hide Below, Above, Sorted, OfSize, Inserted, Levelled;
    WholeItems(p, Leaf);
    var l, r := Lefts(p), Rights(p);
    assert Items(root) == l + r;
    InsertedAt(l, r, c);
    SortedParts(l, r);
    SortedAround(l, c, r);
    CatBounds(l, r, [], n);
    CatBounds(l + [c], r, [], n);
    CatBounds(l, [c], [], n);
    OneBounds(c, [], n);
  }

  // ---- iterate -----------------------------------------------------------------------------------

  /** What the nodes on the stack still have to offer, the top of the stack last in the row. */
  function Pending(stack: seq<Tree>): seq<Constant> {
    if |stack| == 0 then []
    else
      var t := stack[|stack| - 1];
      (if t.Node? then [t.item] + Items(t.right) else []) + Pending(stack[..|stack| - 1])
  }

  /** What is left to visit, with a node at hand whose left subtree is still to do or is done. */
  function Rest(node: Tree, down: bool, stack: seq<Tree>): seq<Constant>
    requires node.Node?
  {
    (if down then Items(node.left) else []) + ([node.item] + Items(node.right) + Pending(stack))
  }

  lemma {:induction false} RestDown(node: Tree, stack: seq<Tree>)
    requires node.Node? && node.left.Node?
    ensures Rest(node.left, true, stack + [node]) == Rest(node, true, stack)
  {
    var l := node.left;
    assert (stack + [node])[..|stack|] == stack;
    var after := [node.item] + Items(node.right) + Pending(stack);
    assert Pending(stack + [node]) == after;
    assert Items(l) == Items(l.left) + [l.item] + Items(l.right);
    Append(Items(l.left), [l.item], Items(l.right), after);
  }

  lemma {:induction false} Append<T>(a: seq<T>, b: seq<T>, c: seq<T>, d: seq<T>)
    ensures a + (b + c + d) == (a + b + c) + d
    ensures a + (b + c) == (a + b) + c
  {
  }

  lemma {:induction false} RestVisit(node: Tree, down: bool, stack: seq<Tree>)
    requires node.Node? && (down ==> node.left.Leaf?)
    ensures Rest(node, down, stack) == [node.item] + if node.right.Node? then Rest(node.right, true, stack) else Pending(stack)
  {
    if node.right.Node? {
      var r := node.right;
      assert Items(r) == Items(r.left) + [r.item] + Items(r.right);
      Append(Items(r.left), [r.item], Items(r.right), Pending(stack));
    }
  }

  lemma {:induction false} RestPop(stack: seq<Tree>)
    requires |stack| > 0 && stack[|stack| - 1].Node?
    ensures Pending(stack) == Rest(stack[|stack| - 1], false, stack[..|stack| - 1])
  {
  }

  lemma {:induction false} RestStart(root: Tree)
    requires root.Node?
    ensures Rest(root, true, []) == Items(root)
  {
    assert Pending([]) == [];
  }

  /** In-order traversal: left as far as it goes, visit, then right, or back to the stack. */
  method Iterate(root: Tree) returns (visited: seq<Constant>)
    requires Levelled(root) && |Items(root)| + 1 < M
    ensures visited == Items(root)
  {
    hide Rest, Items, Pending;
    visited := [];
    if root.Leaf? {
      assert Items(root) == [] by { NoItems(); }
      return;
    }
    HeightFits(root);
    RestStart(root);
    var node := root;
    var stack: seq<Tree> := [];
    var down := true;
    while true
      invariant node.Node? && |stack| <= HEIGHT_LIMIT
      invariant forall i :: 0 <= i < |stack| ==> stack[i].Node? && i + Height(stack[i]) <= Height(root)
      invariant |stack| + Height(node) <= Height(root)
      invariant visited + Rest(node, down, stack) == Items(root)
      decreases |Items(root)| - |visited|, if down then Height(node) + 1 else 0
    {
      RestThere(node, down, stack);
      if down && node.left.Node? {
        assert |stack| < HEIGHT_LIMIT;
        RestDown(node, stack);
        stack := stack + [node];
        node := node.left;
        continue;
      }
      RestVisit(node, down, stack);
      Append(visited, [node.item], if node.right.Node? then Rest(node.right, true, stack) else Pending(stack), []);
      visited := visited + [node.item];
      if node.right.Node? {
        node := node.right;
        down := true;
        continue;
      }
      if |stack| == 0 { break; }
      RestPop(stack);
      node := stack[|stack| - 1];
      stack := stack[..|stack| - 1];
      down := false;
    }
    assert Pending([]) == [] by { NothingPending(); }
  }

  lemma {:induction false} NoItems()
    ensures Items(Leaf) == []
  {
  }

  lemma {:induction false} NothingPending()
    ensures Pending([]) == []
  {
  }

  lemma {:induction false} RestThere(node: Tree, down: bool, stack: seq<Tree>)
    requires node.Node?
    ensures |Rest(node, down, stack)| > 0
  {
  }
}
