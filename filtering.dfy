/** Keeping the elements of a sequence that satisfy a test, in their original order: what a
    backward `splice` sweep leaves behind and what a guarded `forEach` selects. */
module Filtering {

  function Filter<T>(s: seq<T>, keep: T -> bool): (r: seq<T>)
    ensures |r| <= |s|
    ensures forall i :: 0 <= i < |r| ==> keep(r[i]) && r[i] in s
    ensures forall i :: 0 <= i < |s| && keep(s[i]) ==> s[i] in r
    decreases |s|
  {
    if s == [] then [] else (if keep(s[0]) then [s[0]] else []) + Filter(s[1..], keep)
  }

  /** Filtering a suffix starting at `i` peels off the element at `i` first. */
  lemma FilterAt<T>(s: seq<T>, i: nat, keep: T -> bool)
    requires i < |s|
    ensures Filter(s[i..], keep) == (if keep(s[i]) then [s[i]] else []) + Filter(s[i + 1..], keep)
  {
    assert s[i..][1..] == s[i + 1..];
  }

  /** Filtering distributes over concatenation, so survivors keep their relative order. */
  lemma {:induction false} FilterAppend<T>(a: seq<T>, b: seq<T>, keep: T -> bool)
    ensures Filter(a + b, keep) == Filter(a, keep) + Filter(b, keep)
    decreases |a|
  {
    if a != [] {
      assert (a + b)[0] == a[0];
      assert (a + b)[1..] == a[1..] + b;
      FilterAppend(a[1..], b, keep);
      calc {
        Filter(a + b, keep);
        (if keep(a[0]) then [a[0]] else []) + Filter(a[1..] + b, keep);
        (if keep(a[0]) then [a[0]] else []) + (Filter(a[1..], keep) + Filter(b, keep));
        ((if keep(a[0]) then [a[0]] else []) + Filter(a[1..], keep)) + Filter(b, keep);
        Filter(a, keep) + Filter(b, keep);
      }
    } else {
      assert a + b == b;
    }
  }

  /** Each kept value occurs as often as before; every other value is gone. */
  lemma {:induction false} FilterMultiset<T>(s: seq<T>, keep: T -> bool, x: T)
    ensures multiset(Filter(s, keep))[x] == if keep(x) then multiset(s)[x] else 0
    decreases |s|
  {
    if s != [] {
      assert s == [s[0]] + s[1..];
      FilterMultiset(s[1..], keep, x);
    }
  }

  /** Overwriting the element between two pieces. */
  lemma ReplaceAt<T>(a: seq<T>, x: T, y: T, b: seq<T>)
    ensures (a + [x] + b)[|a| := y] == a + [y] + b
  {
    assert forall k :: 0 <= k < |a| + 1 + |b| ==> (a + [x] + b)[|a| := y][k] == (a + [y] + b)[k];
  }

  /** One step of a backward sweep at position `i` of `s`, with `prefix` not yet visited
      and the kept part of `s[i + 1..]` behind it: keeping `s[i]`, or splicing it out, leaves
      the kept part of `s[i..]` behind `prefix`. */
  lemma SweepStep<T>(prefix: seq<T>, s: seq<T>, i: nat, keep: T -> bool)
    requires i < |s|
    ensures var cur := prefix + [s[i]] + Filter(s[i + 1..], keep);
      if keep(s[i]) then cur == prefix + Filter(s[i..], keep)
      else cur[..|prefix|] + cur[|prefix| + 1..] == prefix + Filter(s[i..], keep)
  {
    FilterAt(s, i, keep);
    var cur := prefix + [s[i]] + Filter(s[i + 1..], keep);
    assert cur[..|prefix|] == prefix;
    assert cur[|prefix| + 1..] == Filter(s[i + 1..], keep);
  }
}
