/** Binding a label: every reference emitted before its position was known is patched. */
module Bind {
  import opened Word32

  /** A reference: where it is in the code, the displacement to add, and the relocation record
      that stands for it, -1 for a reference in the code itself. */
  datatype LabelLink = LabelLink(offset: nat, displacement: int, relocId: int)

  /** Offset -1 while the label is not bound. */
  datatype LabelData = LabelData(offset: int, links: seq<LabelLink>)

  datatype Error = Ok | LabelAlreadyBound | IllegalDisplacement

  /** The value a reference gets, as a 32-bit cell. */
  function Value(l: LabelLink, pos: nat): Word { Wrap(pos - l.offset + l.displacement) }

  predicate IsInt8(v: Word) { -128 <= Int(v) <= 127 }

  /** The placeholder at a reference says how many bytes it has. */
  function Width(code: seq<Byte>, l: LabelLink): nat
    requires l.offset < |code|
  {
    code[l.offset]
  }

  predicate InCode(l: LabelLink) { l.relocId == -1 }

  /** A reference in the code lies within it, and its placeholder is 1 or 4. */
  predicate SiteOk(code: seq<Byte>, l: LabelLink) {
    l.offset < |code| && (Width(code, l) == 1 || Width(code, l) == 4) && l.offset + Width(code, l) <= |code|
  }

  predicate InSite(code: seq<Byte>, l: LabelLink, b: int) {
    l.offset < |code| && l.offset <= b < l.offset + Width(code, l)
  }

  /** References in range that do not overlap, with relocation records of their own. */
  ghost predicate Disjoint(code: seq<Byte>, links: seq<LabelLink>, relocs: nat) {
    && (forall k :: 0 <= k < |links| ==> if InCode(links[k]) then SiteOk(code, links[k]) else 0 <= links[k].relocId < relocs)
    && (forall j, k, b :: 0 <= j < |links| && 0 <= k < |links| && j != k && InCode(links[j]) && InCode(links[k]) ==>
          !(InSite(code, links[j], b) && InSite(code, links[k], b)))
    && (forall j, k :: 0 <= j < |links| && 0 <= k < |links| && j != k && !InCode(links[j]) ==> links[j].relocId != links[k].relocId)
  }

  /** What a patched reference holds: a dword its value, a byte the low byte of its value when
      that fits, the placeholder when it does not. */
  ghost predicate Patched(code: seq<Byte>, now: seq<Byte>, l: LabelLink, pos: nat)
    requires |now| == |code| && SiteOk(code, l)
  {
    if Width(code, l) == 4
    then Join(now[l.offset], now[l.offset + 1], now[l.offset + 2], now[l.offset + 3]) == Value(l, pos)
    else now[l.offset] == if IsInt8(Value(l, pos)) then Value(l, pos) % 0x100 else code[l.offset]
  }

  predicate Fits(code: seq<Byte>, l: LabelLink, pos: nat)
    requires SiteOk(code, l)
  {
    Width(code, l) == 4 || IsInt8(Value(l, pos))
  }

  class Assembler {
    const buffer: array<Byte>
    /** The data of relocation records. */
    const relocs: array<Word>
    var position: nat
    var labels: seq<LabelData>
    var unusedLinks: seq<LabelLink>

    constructor (buffer: array<Byte>, relocs: array<Word>)
      ensures this.buffer == buffer && this.relocs == relocs && position == 0 && labels == [] && unusedLinks == []
    {
      this.buffer, this.relocs := buffer, relocs;
      position, labels, unusedLinks := 0, [], [];
    }

    method PatchSite(l: LabelLink) returns (ok: bool)
      requires SiteOk(buffer[..], l)
      modifies buffer
      ensures old(buffer[l.offset]) == 4 ==> ok
      ensures old(buffer[l.offset]) == 1 && -HALF <= position - l.offset + l.displacement < HALF ==>
                ok == (-128 <= position - l.offset + l.displacement <= 127)
      ensures Patched(old(buffer[..]), buffer[..], l, position) && ok == Fits(old(buffer[..]), l, position)
      ensures forall b :: 0 <= b < buffer.Length && !InSite(old(buffer[..]), l, b) ==> buffer[b] == old(buffer[b])
    {
      var v := Value(l, position);
      var size := buffer[l.offset];
      if -HALF <= position - l.offset + l.displacement < HALF { ByteFits(buffer[..], l, position); }
      ok := true;
      if size == 4 {
        JoinOfBytes(v);
        buffer[l.offset], buffer[l.offset + 1] := ByteOf(v, 0), ByteOf(v, 1);
        buffer[l.offset + 2], buffer[l.offset + 3] := ByteOf(v, 2), ByteOf(v, 3);
      } else if IsInt8(v) {
        buffer[l.offset] := v % 0x100;
      } else {
        ok := false;
      }
    }

    /** Binds a label at the current position. A label that is bound stays as it is. Otherwise
        every reference is patched and no other byte changes; an error tells of byte references
        that cannot hold their value. Of the links only the first is kept for reuse. */
    method Bind(id: nat) returns (e: Error)
      requires id < |labels| && Disjoint(buffer[..], labels[id].links, relocs.Length)
      modifies this`labels, this`unusedLinks, buffer, relocs
      ensures var d := old(labels)[id];
              if d.offset != -1
              then e == LabelAlreadyBound && labels == old(labels) && buffer[..] == old(buffer[..]) && relocs[..] == old(relocs[..])
              else
                && labels == old(labels)[id := LabelData(position, [])]
                && AllPatched(old(buffer[..]), buffer[..], d.links, |d.links|, position)
                && OthersSame(old(buffer[..]), buffer[..], d.links, |d.links|)
                && RelocsMoved(old(relocs[..]), relocs[..], d.links, |d.links|, position)
                && e == if AllFit(old(buffer[..]), d.links, |d.links|, position) then Ok else IllegalDisplacement
      ensures var d, code := old(labels)[id], old(buffer[..]);
              d.offset == -1 && position < HALF && buffer.Length < HALF - 4
              && (forall j :: 0 <= j < |d.links| && InCode(d.links[j]) ==> -4 <= d.links[j].displacement <= 0) ==>
                (e == Ok <==> forall j :: 0 <= j < |d.links| && InCode(d.links[j]) && code[d.links[j].offset] == 1 ==>
                                -128 <= position - d.links[j].offset + d.links[j].displacement <= 127)
      ensures var d := old(labels)[id];
              unusedLinks == (if d.offset == -1 && |d.links| > 0 then [d.links[0]] else []) + old(unusedLinks)
    {
      hide AllPatched, OthersSame, RelocsMoved, AllFit, Patched, Fits, Disjoint, InSite;
      if labels[id].offset != -1 { return LabelAlreadyBound; }
      ghost var code, data := buffer[..], relocs[..];
      var links := labels[id].links;
      Start(code, data, links, position);
      e := Ok;
      var k := 0;
      while k < |links|
        invariant 0 <= k <= |links| && buffer.Length == |code| && relocs.Length == |data| && labels == old(labels) && unusedLinks == old(unusedLinks)
        invariant AllPatched(code, buffer[..], links, k, position) && OthersSame(code, buffer[..], links, k)
        invariant RelocsMoved(data, relocs[..], links, k, position)
        invariant e == if AllFit(code, links, k, position) then Ok else IllegalDisplacement
      {
        var link := links[k];
        ghost var before, records := buffer[..], relocs[..];
        Reached(code, before, data, records, links, k, position);
        if link.relocId != -1 {
          relocs[link.relocId] := Wrap(relocs[link.relocId] + position);
          assert relocs[..] == records[link.relocId := Wrap(records[link.relocId] + position)];
        } else {
          var ok := PatchSite(link);
          if !ok { e := IllegalDisplacement; }
        }
        NextLink(code, before, buffer[..], data, records, relocs[..], links, k, position);
        k := k + 1;
      }
      SitesOk(code, links, relocs.Length);
      if position < HALF && |code| < HALF - 4 && forall j :: 0 <= j < |links| && InCode(links[j]) ==> -4 <= links[j].displacement <= 0 {
        TooFar(code, links, position);
      }
      if |links| > 0 { unusedLinks := [links[0]] + unusedLinks; }
      labels := labels[id := LabelData(position, [])];
    }
  }

  lemma {:induction false} SitesOk(code: seq<Byte>, links: seq<LabelLink>, relocs: nat)
    requires Disjoint(code, links, relocs)
    ensures forall j :: 0 <= j < |links| && InCode(links[j]) ==> SiteOk(code, links[j])
  {
  }

  ghost predicate AllPatched(code: seq<Byte>, now: seq<Byte>, links: seq<LabelLink>, k: int, pos: nat) {
    |now| == |code| && forall j :: 0 <= j < k <= |links| && InCode(links[j]) ==> SiteOk(code, links[j]) && Patched(code, now, links[j], pos)
  }

  /** Bytes outside the first k references are unchanged. */
  ghost predicate OthersSame(code: seq<Byte>, now: seq<Byte>, links: seq<LabelLink>, k: int) {
    |now| == |code|
    && forall b :: 0 <= b < |code| && (forall j :: 0 <= j < k <= |links| && InCode(links[j]) ==> !InSite(code, links[j], b)) ==> now[b] == code[b]
  }

  ghost predicate AllFit(code: seq<Byte>, links: seq<LabelLink>, k: int, pos: nat) {
    forall j :: 0 <= j < k <= |links| && InCode(links[j]) ==> SiteOk(code, links[j]) && Fits(code, links[j], pos)
  }

  /** The records of the first k references have moved with the position, no others have. */
  ghost predicate RelocsMoved(data: seq<Word>, now: seq<Word>, links: seq<LabelLink>, k: int, pos: nat) {
    && |now| == |data|
    && (forall j :: 0 <= j < k <= |links| && 0 <= links[j].relocId < |data| ==> now[links[j].relocId] == Wrap(data[links[j].relocId] + pos))
    && (forall r :: 0 <= r < |data| && (forall j :: 0 <= j < k <= |links| ==> links[j].relocId != r) ==> now[r] == data[r])
  }

  lemma {:induction false} Start(code: seq<Byte>, data: seq<Word>, links: seq<LabelLink>, pos: nat)
    ensures AllPatched(code, code, links, 0, pos) && OthersSame(code, code, links, 0) && RelocsMoved(data, data, links, 0, pos) && AllFit(code, links, 0, pos)
  {
  }

  /** The reference at hand is as it was. */
  lemma {:induction false} Reached(code: seq<Byte>, now: seq<Byte>, data: seq<Word>, records: seq<Word>, links: seq<LabelLink>, k: nat, pos: nat)
    requires k < |links| && Disjoint(code, links, |data|) && OthersSame(code, now, links, k) && RelocsMoved(data, records, links, k, pos)
    ensures InCode(links[k]) ==> SiteOk(now, links[k]) && SiteOk(code, links[k]) && Width(now, links[k]) == Width(code, links[k])
    ensures InCode(links[k]) ==> (forall b :: InSite(code, links[k], b) ==> now[b] == code[b]) && Fits(now, links[k], pos) == Fits(code, links[k], pos)
    ensures !InCode(links[k]) ==> 0 <= links[k].relocId < |records| && records[links[k].relocId] == data[links[k].relocId]
  {
    if InCode(links[k]) { Untouched(code, now, links, k); }
  }

  lemma {:induction false} NextLink(code: seq<Byte>, before: seq<Byte>, now: seq<Byte>, data: seq<Word>, records: seq<Word>, after: seq<Word>,
                                    links: seq<LabelLink>, k: nat, pos: nat)
    requires k < |links| && Disjoint(code, links, |data|) && AllPatched(code, before, links, k, pos) && OthersSame(code, before, links, k)
    requires RelocsMoved(data, records, links, k, pos)
    requires if InCode(links[k])
             then after == records && |now| == |code| && SiteOk(before, links[k]) && Patched(before, now, links[k], pos)
                  && forall b :: 0 <= b < |code| && !InSite(before, links[k], b) ==> now[b] == before[b]
             else now == before && 0 <= links[k].relocId < |records|
                  && after == records[links[k].relocId := Wrap(records[links[k].relocId] + pos)]
    ensures AllPatched(code, now, links, k + 1, pos) && OthersSame(code, now, links, k + 1) && RelocsMoved(data, after, links, k + 1, pos)
    ensures AllFit(code, links, k + 1, pos) <==> AllFit(code, links, k, pos) && (InCode(links[k]) ==> SiteOk(code, links[k]) && Fits(code, links[k], pos))
  {
    Reached(code, before, data, records, links, k, pos);
    if InCode(links[k]) {
      SamePatch(code, before, now, links[k], pos);
      Kept(code, before, now, links, k, pos);
    }
    OthersMore(code, before, now, links, k);
  }

  lemma {:induction false} SamePatch(code: seq<Byte>, before: seq<Byte>, now: seq<Byte>, l: LabelLink, pos: nat)
    requires |before| == |code| == |now| && SiteOk(before, l) && SiteOk(code, l) && Width(before, l) == Width(code, l)
    requires (forall b :: InSite(code, l, b) ==> before[b] == code[b]) && Patched(before, now, l, pos)
    ensures Patched(code, now, l, pos)
  {
    assert InSite(code, l, l.offset);
  }

  lemma {:induction false} OthersMore(code: seq<Byte>, before: seq<Byte>, now: seq<Byte>, links: seq<LabelLink>, k: nat)
    requires k < |links| && |now| == |code| && OthersSame(code, before, links, k)
    requires if InCode(links[k])
             then SiteOk(code, links[k]) && SiteOk(before, links[k]) && Width(before, links[k]) == Width(code, links[k])
                  && forall b :: 0 <= b < |code| && !InSite(before, links[k], b) ==> now[b] == before[b]
             else now == before
    ensures OthersSame(code, now, links, k + 1)
  {
    forall b | 0 <= b < |code| && (forall j :: 0 <= j < k + 1 <= |links| && InCode(links[j]) ==> !InSite(code, links[j], b))
      ensures now[b] == code[b]
    {
      assert forall j :: 0 <= j < k <= |links| && InCode(links[j]) ==> !InSite(code, links[j], b);
      if InCode(links[k]) { assert !InSite(code, links[k], b); }
    }
  }

  /** A site that has not been reached still has its placeholder. */
  lemma {:induction false} Untouched(code: seq<Byte>, now: seq<Byte>, links: seq<LabelLink>, k: nat)
    requires k < |links| && InCode(links[k]) && |now| == |code| && SiteOk(code, links[k])
    requires forall j, b :: 0 <= j < |links| && j != k && InCode(links[j]) ==> !(InSite(code, links[j], b) && InSite(code, links[k], b))
    requires forall b :: 0 <= b < |code| && (forall j :: 0 <= j < k && InCode(links[j]) ==> !InSite(code, links[j], b)) ==> now[b] == code[b]
    ensures forall b :: InSite(code, links[k], b) ==> now[b] == code[b]
    ensures SiteOk(now, links[k]) && Width(now, links[k]) == Width(code, links[k])
  {
    assert InSite(code, links[k], links[k].offset);
  }

  /** Patching one site leaves those patched before. */
  lemma {:induction false} Kept(code: seq<Byte>, before: seq<Byte>, now: seq<Byte>, links: seq<LabelLink>, k: nat, pos: nat)
    requires k < |links| && |before| == |code| == |now| && InCode(links[k]) && SiteOk(code, links[k])
    requires forall j :: 0 <= j < |links| && InCode(links[j]) ==> SiteOk(code, links[j])
    requires forall j, b :: 0 <= j < |links| && j != k && InCode(links[j]) ==> !(InSite(code, links[j], b) && InSite(code, links[k], b))
    requires forall b :: 0 <= b < |code| && !InSite(code, links[k], b) ==> now[b] == before[b]
    requires forall j :: 0 <= j < k && InCode(links[j]) ==> Patched(code, before, links[j], pos)
    ensures forall j :: 0 <= j < k && InCode(links[j]) ==> Patched(code, now, links[j], pos)
  {
    forall j | 0 <= j < k && InCode(links[j])
      ensures Patched(code, now, links[j], pos)
    {
      var l := links[j];
      forall b | l.offset <= b < l.offset + Width(code, l) ensures now[b] == before[b] { assert InSite(code, l, b); }
    }
  }

  /** A patched relative jump: the processor adds the dword to the address behind it, and the
      assembler links such references with displacement -4. */
  lemma JumpArrives(code: seq<Byte>, now: seq<Byte>, l: LabelLink, pos: nat)
    requires |now| == |code| && SiteOk(code, l) && Patched(code, now, l, pos)
    requires Width(code, l) == 4 && l.displacement == -4 && pos < M && |code| < M
    ensures Wrap(l.offset + 4 + Join(now[l.offset], now[l.offset + 1], now[l.offset + 2], now[l.offset + 3])) == pos
  {
    var v := Value(l, pos);
    var q := (pos - l.offset - 4) / M;
    assert pos - l.offset - 4 == q * M + v;
    WrapUnique(l.offset + 4 + v, pos, -q);
  }

  /** A byte reference fits exactly when the distance to the label does, no distance being longer
      than the code can be. */
  lemma ByteFits(code: seq<Byte>, l: LabelLink, pos: nat)
    requires SiteOk(code, l) && -HALF <= pos - l.offset + l.displacement < HALF
    ensures code[l.offset] == 4 ==> Fits(code, l, pos)
    ensures code[l.offset] == 1 ==> (Fits(code, l, pos) <==> -128 <= pos - l.offset + l.displacement <= 127)
  {
    SignedWrap(pos - l.offset + l.displacement);
  }

  lemma SignedWrap(x: int)
    requires -HALF <= x < HALF
    ensures Int(Wrap(x)) == x
  {
    if x < 0 { WrapUnique(x, x + M, -1); } else { WrapUnique(x, x, 0); }
  }

  /** A patched short jump: the processor adds the byte, with its sign, to the address behind it,
      and the assembler links such references with displacement -1. The label is reached exactly
      when its distance fits a byte; a byte that does not fit is left as it was. */
  lemma ShortJumpArrives(code: seq<Byte>, now: seq<Byte>, l: LabelLink, pos: nat)
    requires |now| == |code| < HALF && pos < HALF && SiteOk(code, l) && Patched(code, now, l, pos)
    requires code[l.offset] == 1 && l.displacement == -1
    ensures if -128 <= pos - l.offset - 1 <= 127
            then l.offset + 1 + (if now[l.offset] < 0x80 then now[l.offset] as int else now[l.offset] as int - 0x100) == pos
            else now[l.offset] == code[l.offset]
  {
    var x := pos - l.offset - 1;
    SignedWrap(x);
    if 0 <= x { WrapUnique(x, x, 0); } else { WrapUnique(x, x + M, -1); }
  }

  /** Every reference holds its value or has kept its byte, and the error is reported exactly when
      some byte reference is too far from the label. */
  lemma {:induction false} TooFar(code: seq<Byte>, links: seq<LabelLink>, pos: nat)
    requires pos < HALF && |code| < HALF - 4
    requires forall j :: 0 <= j < |links| && InCode(links[j]) ==> SiteOk(code, links[j]) && -4 <= links[j].displacement <= 0
    ensures AllFit(code, links, |links|, pos) <==>
              forall j :: 0 <= j < |links| && InCode(links[j]) && SiteOk(code, links[j]) && code[links[j].offset] == 1 ==>
                -128 <= pos - links[j].offset + links[j].displacement <= 127
  {
    hide SiteOk, Fits;
    forall j | 0 <= j < |links| && InCode(links[j])
      ensures links[j].offset < |code| && (code[links[j].offset] == 1 || code[links[j].offset] == 4)
      ensures code[links[j].offset] == 4 ==> Fits(code, links[j], pos)
      ensures code[links[j].offset] == 1 ==> (Fits(code, links[j], pos) <==> -128 <= pos - links[j].offset + links[j].displacement <= 127)
    {
      OneFits(code, links[j], pos);
    }
  }

  lemma OneFits(code: seq<Byte>, l: LabelLink, pos: nat)
    requires pos < HALF && |code| < HALF - 4 && SiteOk(code, l) && -4 <= l.displacement <= 0
    ensures l.offset < |code| && (code[l.offset] == 1 || code[l.offset] == 4)
    ensures code[l.offset] == 4 ==> Fits(code, l, pos)
    ensures code[l.offset] == 1 ==> (Fits(code, l, pos) <==> -128 <= pos - l.offset + l.displacement <= 127)
  {
    ByteFits(code, l, pos);
  }
}
