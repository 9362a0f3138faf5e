/** How much of what is owed a row rewrite ends with: one pass of the Knuth-Morris-Pratt automaton. */
module Kmp {

  /** The first `k` of `p` are the last `k` of `text`. */
  predicate Border<T(==)>(p: seq<T>, text: seq<T>, k: nat) {
    k <= |p| && k <= |text| && p[..k] == text[|text| - k..]
  }

  /** The longest of the naive search's candidates: tried from the longest down. */
  function NaiveTail<T(==)>(p: seq<T>, text: seq<T>, k: nat): (r: nat)
    ensures r <= k
  {
    if k == 0 then 0 else if Border(p, text, k) then k else NaiveTail(p, text, k - 1)
  }

  ghost predicate Longest<T>(p: seq<T>, text: seq<T>, k: nat, limit: nat) {
    k <= limit && Border(p, text, k) && forall j :: k < j <= limit ==> !Border(p, text, j)
  }

  /** `failure[i]` is the longest proper border of the first `i + 1` of `p`. */
  ghost predicate Failures<T>(p: seq<T>, failure: seq<nat>) {
    |failure| <= |p| && forall i :: 0 <= i < |failure| ==> Longest(p, p[1..i + 1], failure[i], i)
  }

  lemma {:induction false} NaiveIsLongest<T>(p: seq<T>, text: seq<T>, k: nat)
    ensures Longest(p, text, NaiveTail(p, text, k), k)
  {
    if k > 0 && !Border(p, text, k) {
      NaiveIsLongest(p, text, k - 1);
    }
  }

  /** Below a border of the text, its borders are the borders of the matched part. */
  lemma BorderWithin<T>(p: seq<T>, text: seq<T>, m: nat, j: nat)
    requires Border(p, text, m) && 0 < m && j < m
    ensures Border(p, text, j) <==> Border(p, p[1..m], j)
  {
    assert p[1..m] == text[|text| - m..][1..];
    assert p[1..m][|p[1..m]| - j..] == text[|text| - j..];
  }

  /** A border of one more byte is a border of what came before, extended by it. */
  lemma BorderExtends<T>(p: seq<T>, text: seq<T>, c: T, k: nat)
    ensures Border(p, text + [c], k + 1) <==> Border(p, text, k) && k < |p| && p[k] == c
  {
    if k < |p| && k <= |text| {
      var all := text + [c];
      assert all[|all| - (k + 1)..] == text[|text| - k..] + [c];
      assert p[..k + 1] == p[..k] + [p[k]];
      if p[..k] + [p[k]] == text[|text| - k..] + [c] {
        assert (p[..k] + [p[k]])[..k] == (text[|text| - k..] + [c])[..k];
        assert (p[..k] + [p[k]])[k] == (text[|text| - k..] + [c])[k];
      }
    }
  }

  /** One step of the automaton: from a longest border of the text read so far to the longest after one more byte. */
  method Advance<T(==)>(p: seq<T>, failure: seq<nat>, from: nat, c: T, ghost text: seq<T>) returns (m: nat)
    requires Failures(p, failure) && from < |p| && from <= |failure|
    requires Longest(p, text, from, |p| - 1)
    ensures Longest(p, text + [c], m, |p|)
  {
    m := from;
    while m > 0 && c != p[m]
      invariant m <= from && Border(p, text, m)
      invariant forall j :: m < j < |p| && Border(p, text, j) ==> p[j] != c
    {
      var next := failure[m - 1];
      forall j | next < j < |p| && Border(p, text, j)
        ensures p[j] != c
      {
        if j < m {
          BorderWithin(p, text, m, j);
        }
      }
      assert Longest(p, p[1..m - 1 + 1], next, m - 1);
      BorderWithin(p, text, m, next);
      m := next;
    }
    ghost var stopped := m;
    if c == p[m] {
      m := m + 1;
    }
    forall k | 0 < k <= |p|
      ensures Border(p, text + [c], k) <==> Border(p, text, k - 1) && p[k - 1] == c
    {
      BorderExtends(p, text, c, k - 1);
    }
  }

  /** When all of `p` is matched the automaton goes on from its longest proper border. */
  lemma WholeMatch<T>(p: seq<T>, text: seq<T>, border: nat)
    requires p != [] && Border(p, text, |p|) && Longest(p, p[1..], border, |p| - 1)
    ensures Longest(p, text, border, |p| - 1)
  {
    assert p[1..|p|] == p[1..];
    forall j | 0 <= j < |p|
      ensures Border(p, text, j) <==> Border(p, p[1..], j)
    {
      BorderWithin(p, text, |p|, j);
    }
  }

  method FailureOf<T(==)>(p: seq<T>) returns (failure: seq<nat>)
    requires p != []
    ensures Failures(p, failure) && |failure| == |p|
  {
    failure := [0];
    var border := 0;
    for index := 1 to |p|
      invariant |failure| == index && Failures(p, failure) && border == failure[index - 1]
    {
      assert p[1..index] + [p[index]] == p[1..index + 1];
      border := Advance(p, failure, border, p[index], p[1..index]);
      failure := failure + [border];
    }
  }

  /** One pass of the automaton, with the naive search's answer. */
  method RestatedTail<T(==)>(owed: seq<T>, rewrite: seq<T>) returns (matched: nat)
    ensures matched == NaiveTail(owed, rewrite, |owed|)
    ensures Longest(owed, rewrite, matched, |owed|)
  {
    NaiveIsLongest(owed, rewrite, |owed|);
    if owed == [] || rewrite == [] {
      return 0;
    }
    var failure := FailureOf(owed);
    matched := 0;
    for i := 0 to |rewrite|
      invariant Longest(owed, rewrite[..i], matched, |owed|)
    {
      if matched == |owed| {
        assert Longest(owed, owed[1..|owed| - 1 + 1], failure[|owed| - 1], |owed| - 1);
        assert owed[1..|owed|] == owed[1..];
        WholeMatch(owed, rewrite[..i], failure[|owed| - 1]);
        matched := failure[|owed| - 1];
      }
      assert rewrite[..i + 1] == rewrite[..i] + [rewrite[i]];
      matched := Advance(owed, failure, matched, rewrite[i], rewrite[..i]);
    }
    assert rewrite[..|rewrite|] == rewrite;
  }
}
