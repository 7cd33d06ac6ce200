/** The books of the allocator, on values: which addresses are live, given what each node hands
    out, and what the statistics add up to. */
module Ledger {
  import opened Blocks

  const UNIT := 64

  function Address(mem: nat, b: nat): nat { mem + UNIT * b }

  /** a is the address of an allocation in a node at mem. */
  predicate Owns(mem: nat, l: Live, a: nat) {
    a >= mem && (a - mem) % UNIT == 0 && (a - mem) / UNIT in l
  }

  /** Of each node its address, its number of blocks and its allocations. */
  datatype Entry = Entry(mem: nat, blocks: nat, live: Live)

  predicate Before(a: Entry, b: Entry) { a.mem + UNIT * a.blocks <= b.mem }

  /** Nodes do not overlap, and allocations lie apart within their node. */
  ghost predicate Proper(s: seq<Entry>) {
    && (forall k :: 0 <= k < |s| ==> Separate(s[k].live, s[k].blocks) && s[k].mem % UNIT == 0)
    && (forall i, j :: 0 <= i < |s| && 0 <= j < |s| && i != j ==> Before(s[i], s[j]) || Before(s[j], s[i]))
  }

  predicate Recorded(e: Entry, live: map<nat, nat>, b: nat)
    requires b in e.live
  {
    Address(e.mem, b) in live && live[Address(e.mem, b)] == e.live[b]
  }

  /** live has exactly the allocations of the nodes, by address, in blocks. */
  ghost predicate Tracks(s: seq<Entry>, live: map<nat, nat>) {
    && (forall k, b :: 0 <= k < |s| && b in s[k].live ==>
          Recorded(s[k], live, b))
    && (forall a :: a in live ==> exists k :: 0 <= k < |s| && Owns(s[k].mem, s[k].live, a))
  }

  lemma {:induction false} OwnsAddress(mem: nat, l: Live, b: nat)
    ensures Owns(mem, l, Address(mem, b)) <==> b in l
    ensures (Address(mem, b) - mem) / UNIT == b
  {
  }

  lemma {:induction false} OwnedAt(mem: nat, l: Live, a: nat) returns (b: nat)
    requires Owns(mem, l, a)
    ensures b in l && a == Address(mem, b)
  {
    b := (a - mem) / UNIT;
  }

  /** Live allocations lie apart, aligned, each within one node. */
  lemma {:induction false} LiveApart(s: seq<Entry>, live: map<nat, nat>, a: nat, b: nat)
    requires Proper(s) && Tracks(s, live) && a in live && b in live && a < b
    ensures a + UNIT * live[a] <= b
  {
    hide Owns;
    var i :| 0 <= i < |s| && Owns(s[i].mem, s[i].live, a);
    var j :| 0 <= j < |s| && Owns(s[j].mem, s[j].live, b);
    var x := OwnedAt(s[i].mem, s[i].live, a);
    var y := OwnedAt(s[j].mem, s[j].live, b);
    assert Recorded(s[i], live, x) && Recorded(s[j], live, y);
  }

  lemma {:induction false} AddressAligned(mem: nat, b: nat)
    requires mem % UNIT == 0
    ensures Address(mem, b) % UNIT == 0
  {
  }

  lemma {:induction false} LiveInside(s: seq<Entry>, live: map<nat, nat>, a: nat) returns (k: nat)
    requires Proper(s) && Tracks(s, live) && a in live
    ensures k < |s| && s[k].mem <= a && a + UNIT * live[a] <= s[k].mem + UNIT * s[k].blocks
    ensures a % UNIT == 0 && live[a] > 0
  {
    hide Owns;
    k :| 0 <= k < |s| && Owns(s[k].mem, s[k].live, a);
    var x := OwnedAt(s[k].mem, s[k].live, a);
    assert Recorded(s[k], live, x);
    AddressAligned(s[k].mem, x);
  }

  /** Only one node owns an address. */
  lemma {:induction false} OneOwner(s: seq<Entry>, i: nat, j: nat, a: nat)
    requires Proper(s) && i < |s| && j < |s| && Owns(s[i].mem, s[i].live, a) && Owns(s[j].mem, s[j].live, a)
    ensures i == j
  {
    hide Owns;
    var x := OwnedAt(s[i].mem, s[i].live, a);
    var y := OwnedAt(s[j].mem, s[j].live, a);
  }

  lemma {:induction false} NotLive(s: seq<Entry>, t: seq<Entry>, live: map<nat, nat>, k: nat, b: nat)
    requires Tracks(s, live) && Proper(t) && |t| == |s| && k < |s| && b !in s[k].live && b in t[k].live
    requires forall i :: 0 <= i < |s| ==> t[i].mem == s[i].mem && forall x :: x in s[i].live ==> x in t[i].live
    ensures Address(s[k].mem, b) !in live
  {
    hide Owns, Address;
    var a := Address(s[k].mem, b);
    if a in live {
      var j :| 0 <= j < |s| && Owns(s[j].mem, s[j].live, a);
      var y := OwnedAt(s[j].mem, s[j].live, a);
      OwnsAddress(t[k].mem, t[k].live, b);
      OwnsAddress(t[j].mem, t[j].live, y);
      OneOwner(t, k, j, a);
      OwnsAddress(s[k].mem, s[k].live, b);
    }
  }

  /** A new allocation in node k. */
  lemma {:induction false} Allocated(s: seq<Entry>, live: map<nat, nat>, k: nat, b: nat, n: nat)
    requires Proper(s) && Tracks(s, live) && k < |s| && b !in s[k].live && n > 0 && b + n <= s[k].blocks
    requires Separate(s[k].live[b := n], s[k].blocks)
    ensures var t := s[k := s[k].(live := s[k].live[b := n])];
            Proper(t) && Address(s[k].mem, b) !in live && Tracks(t, live[Address(s[k].mem, b) := n])
  {
    hide Owns, Address, Separate;
    var a := Address(s[k].mem, b);
    var t := s[k := s[k].(live := s[k].live[b := n])];
    assert Proper(t) by { SameRanges(s, t); }
    NotLive(s, t, live, k, b);
    OwnsAddress(t[k].mem, t[k].live, b);
    var m := live[a := n];
    forall i, c | 0 <= i < |t| && c in t[i].live
      ensures Recorded(t[i], m, c)
    {
      if i != k || c != b { assert c in s[i].live && Recorded(s[i], live, c); }
    }
    forall x | x in m
      ensures exists i :: 0 <= i < |t| && Owns(t[i].mem, t[i].live, x)
    {
      if x != a {
        var i :| 0 <= i < |s| && Owns(s[i].mem, s[i].live, x);
        OwnsMore(s[i].mem, s[i].live, t[i].live, x);
        assert Owns(t[i].mem, t[i].live, x);
      } else {
        assert Owns(t[k].mem, t[k].live, x);
      }
    }
  }

  lemma {:induction false} OwnsMore(mem: nat, l: Live, m: Live, a: nat)
    requires Owns(mem, l, a) && forall b :: b in l ==> b in m
    ensures Owns(mem, m, a)
  {
  }

  lemma {:induction false} SameRanges(s: seq<Entry>, t: seq<Entry>)
    requires Proper(s) && |t| == |s|
    requires forall i :: 0 <= i < |s| ==> t[i].mem == s[i].mem && t[i].blocks == s[i].blocks && Separate(t[i].live, t[i].blocks)
    ensures Proper(t)
  {
  }

  /** The allocation b of node k gone, or shortened. */
  lemma {:induction false} Changed(s: seq<Entry>, live: map<nat, nat>, k: nat, b: nat, l: Live)
    requires Proper(s) && Tracks(s, live) && k < |s| && b in s[k].live && Separate(l, s[k].blocks)
    requires l == s[k].live - {b} || (b in l && l == s[k].live[b := l[b]])
    ensures var a, t := Address(s[k].mem, b), s[k := s[k].(live := l)];
            && Proper(t) && a in live && live[a] == s[k].live[b]
            && Tracks(t, if b in l then live[a := l[b]] else live - {a})
  {
    hide Owns, Address, Separate;
    var a, t := Address(s[k].mem, b), s[k := s[k].(live := l)];
    assert Proper(t) by { SameRanges(s, t); }
    var m := if b in l then live[a := l[b]] else live - {a};
    assert Recorded(s[k], live, b);
    forall i, c | 0 <= i < |t| && c in t[i].live
      ensures Recorded(t[i], m, c)
    {
      assert c in s[i].live && Recorded(s[i], live, c);
      if i != k || b != c { OtherAddress(s, k, b, i, c); }
    }
    forall x | x in m
      ensures exists i :: 0 <= i < |t| && Owns(t[i].mem, t[i].live, x)
    {
      var i :| 0 <= i < |s| && Owns(s[i].mem, s[i].live, x);
      var c := OwnedAt(s[i].mem, s[i].live, x);
      OwnsAddress(t[i].mem, t[i].live, c);
    }
  }

  /** Different allocations have different addresses. */
  lemma {:induction false} OtherAddress(s: seq<Entry>, i: nat, b: nat, j: nat, c: nat)
    requires Proper(s) && i < |s| && j < |s| && b in s[i].live && c in s[j].live && (i != j || b != c)
    ensures Address(s[i].mem, b) != Address(s[j].mem, c)
  {
    hide Owns, Address;
    OwnsAddress(s[i].mem, s[i].live, b);
    OwnsAddress(s[j].mem, s[j].live, c);
    if Address(s[i].mem, b) == Address(s[j].mem, c) { OneOwner(s, i, j, Address(s[i].mem, b)); }
  }

  /** A new node without allocations. */
  lemma {:induction false} Added(s: seq<Entry>, live: map<nat, nat>, e: Entry)
    requires Proper(s) && Tracks(s, live) && e.live == map[] && e.mem % UNIT == 0
    requires forall k :: 0 <= k < |s| ==> Before(s[k], e) || Before(e, s[k])
    ensures Proper(s + [e]) && Tracks(s + [e], live)
  {
    hide Owns;
    var t := s + [e];
    forall x | x in live
      ensures exists i :: 0 <= i < |t| && Owns(t[i].mem, t[i].live, x)
    {
      var i :| 0 <= i < |s| && Owns(s[i].mem, s[i].live, x);
      assert t[i] == s[i];
    }
  }

  // ---- taking a node out of the list ------------------------------------------------------------

  /** The entry at index from goes to index at, and its own place is given up. */
  function Unlinked<T>(s: seq<T>, at: nat, from: nat): seq<T>
    requires at < |s| && from < |s|
  {
    var t := s[at := s[from]];
    t[..from] + t[from + 1..]
  }

  lemma {:induction false} UnlinkedHas<T>(s: seq<T>, at: nat, from: nat, i: nat) returns (j: nat)
    requires at < |s| && from < |s| && i < |s| && i != at
    ensures j < |Unlinked(s, at, from)| && Unlinked(s, at, from)[j] == s[i]
  {
    j := if i == from then (if at < from then at else at - 1) else if i < from then i else i - 1;
  }

  /** Where an entry of the shorter list was; different places come from different places, and
      none from the one taken out. */
  function Source(n: nat, at: nat, from: nat, j: nat): nat {
    var i := if j < from then j else j + 1;
    if i == at then from else i
  }

  lemma {:induction false} UnlinkedFrom<T>(s: seq<T>, at: nat, from: nat)
    requires at < |s| && from < |s|
    ensures |Unlinked(s, at, from)| == |s| - 1
    ensures forall j :: 0 <= j < |s| - 1 ==>
              (Source(|s|, at, from, j) < |s| && Source(|s|, at, from, j) != at && Unlinked(s, at, from)[j] == s[Source(|s|, at, from, j)])
    ensures forall i, j :: 0 <= i < j < |s| - 1 ==> Source(|s|, at, from, i) != Source(|s|, at, from, j)
  {
  }

  lemma {:induction false} UnlinkedTracks(s: seq<Entry>, live: map<nat, nat>, at: nat, from: nat)
    requires Proper(s) && Tracks(s, live) && at < |s| && from < |s| && s[at].live == map[]
    ensures Proper(Unlinked(s, at, from)) && Tracks(Unlinked(s, at, from), live)
  {
    hide Owns;
    var t := Unlinked(s, at, from);
    UnlinkedFrom(s, at, from);
    forall i, j | 0 <= i < |t| && 0 <= j < |t| && i != j
      ensures Before(t[i], t[j]) || Before(t[j], t[i])
    {
      var x, y := Source(|s|, at, from, i), Source(|s|, at, from, j);
      assert x != y;
    }
    forall x | x in live
      ensures exists i :: 0 <= i < |t| && Owns(t[i].mem, t[i].live, x)
    {
      var i :| 0 <= i < |s| && Owns(s[i].mem, s[i].live, x);
      var c := OwnedAt(s[i].mem, s[i].live, x);
      var j := UnlinkedHas(s, at, from, i);
    }
  }

  // ---- sums --------------------------------------------------------------------------------------

  /** How many blocks are allocated in all. */
  ghost function Total(live: map<nat, nat>): nat {
    if live == map[] then 0
    else
      var a :| a in live;
      live[a] + Total(live - {a})
  }

  lemma {:induction false} TotalWithout(live: map<nat, nat>, a: nat)
    requires a in live
    ensures Total(live) == live[a] + Total(live - {a})
    decreases |live|
  {
    var b :| b in live && Total(live) == live[b] + Total(live - {b});
    if b != a {
      TotalWithout(live - {b}, a);
      TotalWithout(live - {a}, b);
      assert live - {b} - {a} == live - {a} - {b};
    }
  }

  lemma {:induction false} TotalWith(live: map<nat, nat>, a: nat, n: nat)
    ensures Total(live[a := n]) + (if a in live then live[a] else 0) == Total(live) + n
  {
    var m := live[a := n];
    TotalWithout(m, a);
    if a in live {
      TotalWithout(live, a);
      assert m - {a} == live - {a};
    } else {
      assert m - {a} == live;
    }
  }

  function Sum(s: seq<nat>): nat {
    if |s| == 0 then 0 else Sum(s[..|s| - 1]) + s[|s| - 1]
  }

  lemma {:induction false} SumUpdate(s: seq<nat>, k: nat, v: nat)
    requires k < |s|
    ensures Sum(s[k := v]) + s[k] == Sum(s) + v
  {
    var n := |s| - 1;
    if k < n {
      SumUpdate(s[..n], k, v);
      assert s[k := v][..n] == s[..n][k := v];
    } else {
      assert s[k := v][..n] == s[..n];
    }
  }

  lemma {:induction false} SumCat(s: seq<nat>, t: seq<nat>)
    ensures Sum(s + t) == Sum(s) + Sum(t)
  {
    if |t| == 0 {
      assert s + t == s;
    } else {
      assert (s + t)[..|s + t| - 1] == s + t[..|t| - 1];
      SumCat(s, t[..|t| - 1]);
    }
  }

  lemma {:induction false} SumUnlinked(s: seq<nat>, at: nat, from: nat)
    requires at < |s| && from < |s|
    ensures Sum(Unlinked(s, at, from)) + s[at] == Sum(s)
  {
    var t := s[at := s[from]];
    SumUpdate(s, at, s[from]);
    SumCat(t[..from], t[from + 1..]);
    SumCat(t[..from], [t[from]]);
    SumCat(t[..from] + [t[from]], t[from + 1..]);
    assert t == t[..from] + [t[from]] + t[from + 1..];
    assert Sum([t[from]]) == t[from] by { assert [t[from]][..0] == []; }
  }
}
