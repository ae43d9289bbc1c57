/** Runs of characters of one kind, as a greedy regular expression finds them. */
module Scanning {
  predicate EndsWith(s: string, end: string) {
    |end| <= |s| && s[|s| - |end|..] == end
  }

  predicate All(p: char -> bool, s: string) {
    forall i :: 0 <= i < |s| ==> p(s[i])
  }

  /** The length of the longest prefix made of characters that satisfy `p`. */
  function Span(s: string, p: char -> bool): (n: nat)
    ensures n <= |s| && All(p, s[..n])
    ensures n < |s| ==> !p(s[n])
  {
    if s == [] || !p(s[0]) then 0
    else
      var n := Span(s[1..], p);
      assert s[..n + 1] == [s[0]] + s[1..][..n];
      n + 1
  }

  lemma {:induction false} SpanIs(s: string, p: char -> bool, n: nat)
    requires n <= |s| && All(p, s[..n]) && (n < |s| ==> !p(s[n]))
    ensures Span(s, p) == n
  {
    var m := Span(s, p);
    assert forall k :: 0 <= k < m ==> p(s[..m][k]);
    assert forall k :: 0 <= k < n ==> p(s[..n][k]);
  }

  /** What follows the end of a run does not matter. */
  lemma SpanLocal(u: string, v: string, p: char -> bool)
    requires Span(u, p) < |u|
    ensures Span(u + v, p) == Span(u, p)
  {
    var n := Span(u, p);
    assert (u + v)[..n] == u[..n] && (u + v)[n] == u[n];
    SpanIs(u + v, p, n);
  }
}
