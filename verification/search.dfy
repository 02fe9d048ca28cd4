/**
 * The orders in which the extraction code tries alternatives. A regular
 * expression search takes the leftmost position where its pattern matches; a
 * lazy gap (`.{0,n}?`) takes the shortest gap that lets the rest match; a
 * greedy run that must give characters back tries its longest length first;
 * and every field is resolved by a cascade of strategies of which the first
 * one that yields a value wins.
 */
module Search {
  import opened Wrappers
  import opened Chars

  /** The first position in lo..hi at which `m` matches, with what it matched. */
  function FirstFrom<T>(lo: nat, hi: nat, m: nat -> Option<T>): (r: Option<(nat, T)>)
    ensures r.Some? ==> lo <= r.value.0 <= hi && m(r.value.0) == Some(r.value.1)
    ensures r.Some? ==> forall q :: lo <= q < r.value.0 ==> m(q).None?
    ensures r.None? ==> forall q :: lo <= q <= hi ==> m(q).None?
    decreases hi + 1 - lo
  {
    if lo > hi then None
    else
      match m(lo)
      case Some(t) => Some((lo, t))
      case None => FirstFrom(lo + 1, hi, m)
  }

  /** The first position in hi, hi-1, .., lo at which `m` matches. */
  function FirstDown<T>(hi: nat, lo: nat, m: nat -> Option<T>): (r: Option<(nat, T)>)
    ensures r.Some? ==> lo <= r.value.0 <= hi && m(r.value.0) == Some(r.value.1)
    ensures r.Some? ==> forall q :: r.value.0 < q <= hi ==> m(q).None?
    ensures r.None? ==> forall q :: lo <= q <= hi ==> m(q).None?
    decreases hi
  {
    if hi < lo then None
    else
      match m(hi)
      case Some(t) => Some((hi, t))
      case None => if hi == 0 then None else FirstDown(hi - 1, lo, m)
  }

  /** The value of the first strategy in a cascade that produced one. */
  function FirstSome<T>(xs: seq<Option<T>>): (r: Option<T>)
    ensures r.Some? <==> exists i :: 0 <= i < |xs| && xs[i].Some?
    ensures r.Some? ==> exists i :: 0 <= i < |xs| && xs[i] == r && forall j :: 0 <= j < i ==> xs[j].None?
  {
    if |xs| == 0 then None
    else if xs[0].Some? then xs[0]
    else
      var r := FirstSome(xs[1..]);
      assert forall i :: 1 <= i < |xs| ==> xs[i] == xs[1..][i - 1];
      r
  }

  /** Python's `w in s`. */
  predicate Contains(s: string, w: string) {
    exists i :: 0 <= i <= |s| && LiteralAt(s, i, w)
  }

  /** Python's `s.find(w)`, with None for -1. */
  function Find(s: string, w: string): (r: Option<nat>)
    ensures r.Some? ==> LiteralAt(s, r.value, w) && forall q :: 0 <= q < r.value ==> !LiteralAt(s, q, w)
    ensures r.None? <==> !Contains(s, w)
  {
    var m := (p: nat) => if LiteralAt(s, p, w) then Some(p) else None;
    assert forall q: nat :: m(q).Some? <==> LiteralAt(s, q, w);
    match FirstFrom(0, |s|, m)
    case Some((p, _)) => Some(p)
    case None => None
  }

  /** The leftmost match of a case-insensitive literal (`re.search(w, s, re.I)`). */
  function FindIgnoringCase(s: string, w: string): (r: Option<nat>)
    ensures r.Some? ==> LiteralAtIgnoringCase(s, r.value, w)
    ensures r.Some? ==> forall q :: 0 <= q < r.value ==> !LiteralAtIgnoringCase(s, q, w)
    ensures r.None? ==> forall q :: 0 <= q <= |s| ==> !LiteralAtIgnoringCase(s, q, w)
  {
    var m := (p: nat) => if LiteralAtIgnoringCase(s, p, w) then Some(p) else None;
    assert forall q: nat :: m(q).Some? <==> LiteralAtIgnoringCase(s, q, w);
    match FirstFrom(0, |s|, m)
    case Some((p, _)) => Some(p)
    case None => None
  }
}
