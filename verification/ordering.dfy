/**
 * Orders used when a lineage graph is sorted: job ids numerically and edge
 * keys as Python compares `str` values (code point by code point, a proper
 * prefix first).
 */
module Ordering {

  predicate Increasing(s: seq<nat>)
  {
    forall i, j :: 0 <= i < j < |s| ==> s[i] < s[j]
  }

  /** Python's `a < b` on two `str` values. */
  predicate StrLess(a: string, b: string)
    decreases |a|
  {
    if |a| == 0 then |b| > 0
    else if |b| == 0 then false
    else if a[0] == b[0] then StrLess(a[1..], b[1..])
    else a[0] < b[0]
  }

  lemma {:induction false} StrLessIrreflexive(a: string)
    ensures !StrLess(a, a)
    decreases |a|
  {
    if |a| > 0 {
      StrLessIrreflexive(a[1..]);
    }
  }

  lemma {:induction false} StrLessTotal(a: string, b: string)
    requires a != b
    ensures StrLess(a, b) || StrLess(b, a)
    decreases |a|
  {
    if |a| > 0 && |b| > 0 && a[0] == b[0] {
      assert a == [a[0]] + a[1..] && b == [b[0]] + b[1..];
      StrLessTotal(a[1..], b[1..]);
    }
  }

  lemma {:induction false} StrLessAsymmetric(a: string, b: string)
    requires StrLess(a, b)
    ensures !StrLess(b, a)
    decreases |a|
  {
    if |a| > 0 && |b| > 0 && a[0] == b[0] {
      StrLessAsymmetric(a[1..], b[1..]);
    }
  }

  lemma {:induction false} StrLessTransitive(a: string, b: string, c: string)
    requires StrLess(a, b) && StrLess(b, c)
    ensures StrLess(a, c)
    decreases |a|
  {
    if |a| > 0 && |b| > 0 && |c| > 0 && a[0] == b[0] && b[0] == c[0] {
      StrLessTransitive(a[1..], b[1..], c[1..]);
    }
  }

  predicate StrIncreasing(s: seq<string>)
  {
    forall i, j :: 0 <= i < j < |s| ==> StrLess(s[i], s[j])
  }

  /** Puts `x` into its place in an increasing sequence, unless it is there already. */
  function InsertNat(x: nat, s: seq<nat>): (r: seq<nat>)
    requires Increasing(s)
    ensures Increasing(r)
    ensures forall y :: y in r <==> y in s || y == x
  {
    if s == [] then [x]
    else if x < s[0] then [x] + s
    else if x == s[0] then s
    else
      var t := InsertNat(x, s[1..]);
      assert forall j :: 0 <= j < |t| ==> s[0] < t[j] by {
        forall j | 0 <= j < |t| ensures s[0] < t[j] {
          assert t[j] in s[1..] || t[j] == x;
        }
      }
      [s[0]] + t
  }

  /** The distinct numbers of `xs` in ascending order. */
  function SortNats(xs: seq<nat>): (r: seq<nat>)
    ensures Increasing(r)
    ensures forall y :: y in r <==> y in xs
  {
    if xs == [] then [] else InsertNat(xs[|xs| - 1], SortNats(xs[..|xs| - 1]))
  }

  /** Puts `x` into its place in a `str`-ordered sequence, unless it is there already. */
  function InsertStr(x: string, s: seq<string>): (r: seq<string>)
    requires StrIncreasing(s)
    ensures StrIncreasing(r)
    ensures forall y :: y in r <==> y in s || y == x
  {
    if s == [] then [x]
    else if StrLess(x, s[0]) then
      var r := [x] + s;
      assert forall j :: 0 < j < |r| ==> StrLess(x, r[j]) by {
        forall j | 0 < j < |r| ensures StrLess(x, r[j]) {
          if j > 1 { StrLessTransitive(x, s[0], s[j - 1]); }
        }
      }
      r
    else if x == s[0] then s
    else
      StrLessTotal(x, s[0]);
      var t := InsertStr(x, s[1..]);
      var r := [s[0]] + t;
      assert forall j :: 0 <= j < |t| ==> StrLess(s[0], t[j]) by {
        forall j | 0 <= j < |t| ensures StrLess(s[0], t[j]) {
          assert t[j] in s[1..] || t[j] == x;
        }
      }
      r
  }

  /** The distinct strings of `xs` in Python `str` order. */
  function SortStrings(xs: seq<string>): (r: seq<string>)
    ensures StrIncreasing(r)
    ensures forall y :: y in r <==> y in xs
  {
    if xs == [] then [] else InsertStr(xs[|xs| - 1], SortStrings(xs[..|xs| - 1]))
  }
}
