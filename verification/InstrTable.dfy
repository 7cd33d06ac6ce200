/** The instruction table: AMX addresses and the native addresses of their code, searched in
    both directions. */
module InstrTable {
  import opened Word32
  import opened X86

  ghost predicate Ascending(t: seq<Entry>) {
    forall i, j :: 0 <= i < j < |t| ==> t[i].address < t[j].address
  }

  ghost predicate PtrsAscend(t: seq<Entry>) {
    forall i, j :: 0 <= i < j < |t| ==> t[i].ptr <= t[j].ptr
  }

  lemma {:induction false} LookupIs(t: seq<Entry>, k: int)
    requires Ascending(t) && 0 <= k < |t|
    ensures Lookup(t, t[k].address) == t[k].ptr
  {
    if k > 0 {
      assert t[1..][k - 1] == t[k];
      LookupIs(t[1..], k - 1);
    }
  }

  lemma {:induction false} LookupNone(t: seq<Entry>, address: int)
    requires forall k :: 0 <= k < |t| ==> t[k].address != address
    ensures Lookup(t, address) == 0
  {
    if |t| > 0 { LookupNone(t[1..], address); }
  }

  /** std::lower_bound by AMX address. */
  method LowerBoundByAddress(t: seq<Entry>, address: int) returns (first: nat)
    requires Ascending(t)
    ensures first <= |t|
    ensures forall k :: 0 <= k < first ==> t[k].address < address
    ensures forall k :: first <= k < |t| ==> t[k].address >= address
  {
    first := 0;
    var len := |t|;
    while len > 0
      invariant 0 <= len && first + len <= |t|
      invariant forall k :: 0 <= k < first ==> t[k].address < address
      invariant forall k :: first + len <= k < |t| ==> t[k].address >= address
    {
      var half := len / 2;
      var middle := first + half;
      if t[middle].address < address {
        first := middle + 1;
        len := len - half - 1;
      } else {
        len := half;
      }
    }
  }

  method LowerBoundByPtr(t: seq<Entry>, ptr: Word) returns (first: nat)
    requires PtrsAscend(t)
    ensures first <= |t|
    ensures forall k :: 0 <= k < first ==> t[k].ptr < ptr
    ensures forall k :: first <= k < |t| ==> t[k].ptr >= ptr
  {
    first := 0;
    var len := |t|;
    while len > 0
      invariant 0 <= len && first + len <= |t|
      invariant forall k :: 0 <= k < first ==> t[k].ptr < ptr
      invariant forall k :: first + len <= k < |t| ==> t[k].ptr >= ptr
    {
      var half := len / 2;
      var middle := first + half;
      if t[middle].ptr < ptr {
        first := middle + 1;
        len := len - half - 1;
      } else {
        len := half;
      }
    }
  }

  /** The search that the compiled code calls agrees with a scan of the table. */
  method GetJITInstrPtr(t: seq<Entry>, address: int) returns (ptr: Word)
    requires Ascending(t)
    ensures ptr == Lookup(t, address)
  {
    var result := LowerBoundByAddress(t, address);
    if result < |t| && t[result].address == address {
      LookupIs(t, result);
      return t[result].ptr;
    }
    LookupNone(t, address);
    return 0;
  }

  /** The address of the first entry with a pointer, 0 when there is none. */
  function Reverse(t: seq<Entry>, ptr: Word): int {
    if |t| == 0 then 0
    else if t[0].ptr == ptr then t[0].address
    else Reverse(t[1..], ptr)
  }

  lemma {:induction false} ReverseIs(t: seq<Entry>, k: int)
    requires 0 <= k < |t| && forall j :: 0 <= j < k ==> t[j].ptr != t[k].ptr
    ensures Reverse(t, t[k].ptr) == t[k].address
  {
    if k > 0 {
      assert t[1..][k - 1] == t[k];
      ReverseIs(t[1..], k - 1);
    }
  }

  lemma {:induction false} ReverseNone(t: seq<Entry>, ptr: Word)
    requires forall k :: 0 <= k < |t| ==> t[k].ptr != ptr
    ensures Reverse(t, ptr) == 0
  {
    if |t| > 0 { ReverseNone(t[1..], ptr); }
  }

  method GetAddressByJITInstrPtr(t: seq<Entry>, ptr: Word) returns (address: int)
    requires PtrsAscend(t)
    ensures address == Reverse(t, ptr)
  {
    var result := LowerBoundByPtr(t, ptr);
    if result < |t| && t[result].ptr == ptr {
      ReverseIs(t, result);
      return t[result].address;
    }
    ReverseNone(t, ptr);
    return 0;
  }

  lemma {:induction false} FirstWith(t: seq<Entry>, k: int) returns (f: nat)
    requires 0 <= k < |t|
    ensures f <= k && t[f].ptr == t[k].ptr && forall j :: 0 <= j < f ==> t[j].ptr != t[k].ptr
    decreases k
  {
    if j: nat :| j < k && t[j].ptr == t[k].ptr { f := FirstWith(t, j); } else { f := k; }
  }

  /** A pointer that several instructions share, because those in front emit no code, is mapped
      back to the least of their addresses; that address has the pointer again. */
  lemma PtrRoundTrip(t: seq<Entry>, k: int)
    requires Ascending(t) && 0 <= k < |t|
    ensures Lookup(t, Reverse(t, t[k].ptr)) == t[k].ptr
    ensures forall j :: 0 <= j < |t| && t[j].ptr == t[k].ptr ==> Reverse(t, t[k].ptr) <= t[j].address
    ensures (forall j :: 0 <= j < |t| && j != k ==> t[j].ptr != t[k].ptr) ==> Reverse(t, t[k].ptr) == t[k].address
  {
    var f := FirstWith(t, k);
    ReverseIs(t, f);
    LookupIs(t, f);
    forall j | 0 <= j < |t| && t[j].ptr == t[k].ptr
      ensures t[f].address <= t[j].address
    {
      if j != f { assert f < j; }
    }
  }
}
