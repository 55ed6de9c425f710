/** Keeping the best of what has been seen so far, and the ones equal to it, in a list that starts anew with every
    better one: how servers and data centres are picked (src/ServerGroup.cpp `getReadServer`). Duplicates are
    taken out with a marker per number (src/ID.h `IDUnique`). */
module Ranking {

  /** A candidate and what it is judged by: `hi` first, then `lo`. */
  datatype Ranked<T> = Ranked(val: T, hi: int, lo: int)

  predicate Beats<T>(a: Ranked<T>, b: Ranked<T>) {
    a.hi > b.hi || (a.hi == b.hi && a.lo > b.lo)
  }

  /** One more candidate. */
  function Keep<T>(best: seq<Ranked<T>>, x: Ranked<T>): seq<Ranked<T>> {
    if best == [] || Beats(x, best[0]) then [x] else if Beats(best[0], x) then best else best + [x]
  }

  function Tops<T>(rs: seq<Ranked<T>>): seq<Ranked<T>> {
    if rs == [] then [] else Keep(Tops(rs[..|rs| - 1]), rs[|rs| - 1])
  }

  lemma {:induction false} TopsSnoc<T>(rs: seq<Ranked<T>>, x: Ranked<T>)
    ensures Tops(rs + [x]) == Keep(Tops(rs), x)
  {
    assert (rs + [x])[..|rs|] == rs;
  }

  predicate Equals<T>(a: Ranked<T>, b: Ranked<T>) { a.hi == b.hi && a.lo == b.lo }

  /** `best` are the candidates that no other beats, all of them. */
  ghost predicate AreBest<T>(best: seq<Ranked<T>>, rs: seq<Ranked<T>>) {
    && (rs != [] ==> best != [])
    && (forall i :: 0 <= i < |best| ==> best[i] in rs && Equals(best[i], best[0]))
    && (forall i :: 0 <= i < |rs| && best != [] ==> !Beats(rs[i], best[0]))
    && (forall i :: 0 <= i < |rs| && best != [] && Equals(rs[i], best[0]) ==> rs[i] in best)
  }

  lemma {:induction false} KeepIsBest<T>(best: seq<Ranked<T>>, rs: seq<Ranked<T>>, x: Ranked<T>)
    requires AreBest(best, rs)
    ensures AreBest(Keep(best, x), rs + [x])
  {
    var now, all := Keep(best, x), rs + [x];
    assert all[|rs|] == x;
    forall i | 0 <= i < |now| ensures now[i] in all && Equals(now[i], now[0]) {
      if i < |best| && now[i] == best[i] { assert best[i] in rs; }
    }
    forall i | 0 <= i < |all| ensures !Beats(all[i], now[0]) && (Equals(all[i], now[0]) ==> all[i] in now) {
      if i < |rs| {
        assert all[i] == rs[i];
        if best != [] && Equals(rs[i], best[0]) { assert rs[i] in best; }
      }
    }
  }

  lemma {:induction false} TopsAreBest<T>(rs: seq<Ranked<T>>)
    ensures AreBest(Tops(rs), rs)
  {
    if rs != [] {
      var rest, x := rs[..|rs| - 1], rs[|rs| - 1];
      TopsAreBest(rest);
      KeepIsBest(Tops(rest), rest, x);
      assert rs == rest + [x];
    }
  }

  // ----- duplicates -----

  /** The elements of `s`, each where it is first met. */
  function Firsts(s: seq<nat>): seq<nat> {
    if s == [] then []
    else
      var r, x := Firsts(s[..|s| - 1]), s[|s| - 1];
      if x in r then r else r + [x]
  }

  lemma {:induction false} FirstsSnoc(s: seq<nat>, x: nat)
    ensures Firsts(s + [x]) == if x in Firsts(s) then Firsts(s) else Firsts(s) + [x]
  {
    assert (s + [x])[..|s|] == s;
  }

  lemma {:induction false} FirstsAreDistinct(s: seq<nat>)
    ensures |Firsts(s)| <= |s| && (s != [] ==> Firsts(s) != [])
    ensures forall i, j :: 0 <= i < j < |Firsts(s)| ==> Firsts(s)[i] != Firsts(s)[j]
    ensures forall x :: x in Firsts(s) <==> x in s
  {
    if s != [] {
      FirstsAreDistinct(s[..|s| - 1]);
      assert s == s[..|s| - 1] + [s[|s| - 1]];
    }
  }

  /** `IDUnique`; the array holds a marker for every number there is. */
  class IDUnique {
    const marker: array<bool>

    ghost predicate Clear()
      reads marker
    {
      forall i :: 0 <= i < marker.Length ==> !marker[i]
    }

    constructor (size: nat)
      ensures Clear() && marker.Length == size && fresh(marker)
    {
      marker := new bool[size](_ => false);
    }

    ghost predicate Marks(s: seq<nat>)
      reads marker
    {
      forall k :: 0 <= k < marker.Length ==> (marker[k] <==> k in s)
    }

    /** The first `num` elements are compacted in place to the distinct ones among them; no element is overwritten
        before it is read, and all markers are clear again. */
    method Unique(d: array<nat>, num: nat) returns (n: nat)
      requires Clear() && num <= d.Length && (forall i :: 0 <= i < num ==> d[i] < marker.Length)
      modifies d, marker
      ensures Clear() && n <= num && d[..n] == Firsts(old(d[..num])) && d[num..] == old(d[num..])
    {
      hide Firsts;
      n := 0;
      ghost var was := d[..];
      FirstsAreDistinct(was[..0]);
      for i := 0 to num
        invariant n <= i && d[..n] == Firsts(was[..i]) && Marks(Firsts(was[..i]))
        invariant forall k :: i <= k < d.Length ==> d[k] == was[k]
        invariant forall k :: 0 <= k < num ==> d[k] < marker.Length
      {
        var p := d[i];
        assert was[..i + 1] == was[..i] + [p];
        FirstsSnoc(was[..i], p);
        if !marker[p] {
          marker[p] := true;
          d[n] := p;
          n := n + 1;
        }
      }
      assert was[..num] == old(d[..num]);
      Unmark(d, n);
    }

    method Unmark(d: array<nat>, n: nat)
      requires n <= d.Length && Marks(d[..n]) && (forall i :: 0 <= i < n ==> d[i] < marker.Length)
      modifies marker
      ensures Clear()
    {
      for i := 0 to n
        invariant forall k :: 0 <= k < marker.Length && marker[k] ==> k in d[i..n]
      {
        assert d[i..n] == [d[i]] + d[i + 1..n];
        marker[d[i]] := false;
      }
    }
  }
}
