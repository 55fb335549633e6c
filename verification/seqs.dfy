/** Order-preserving filtering over sequences, as `Array.prototype.filter` does. */
module Seqs {
  import opened Wrappers

  /** `r` can be obtained from `s` by deleting elements, keeping the order of the rest. */
  ghost predicate IsSubseq<T>(r: seq<T>, s: seq<T>)
    decreases |s|
  {
    if r == [] then true
    else if s == [] then false
    else (r[0] == s[0] && IsSubseq(r[1..], s[1..])) || IsSubseq(r, s[1..])
  }

  /** The elements of `s` that satisfy `p`, in their original order. */
  function Filter<T>(s: seq<T>, p: T -> bool): (r: seq<T>)
    ensures |r| <= |s|
    ensures forall i :: 0 <= i < |r| ==> r[i] in s && p(r[i])
    ensures forall i :: 0 <= i < |s| && p(s[i]) ==> s[i] in r
    ensures IsSubseq(r, s)
  {
    if s == [] then []
    else if p(s[0]) then [s[0]] + Filter(s[1..], p)
    else Filter(s[1..], p)
  }

  /**
   * `s.filter(keep)` where testing an element may throw: the call throws (`None`) when some
   * element throws, and otherwise keeps the elements that satisfy `keep`, in order.
   */
  function FilterOrThrow<T>(s: seq<T>, throws: T -> bool, keep: T -> bool): (r: Option<seq<T>>)
    ensures r.None? <==> exists i :: 0 <= i < |s| && throws(s[i])
    ensures r.Some? ==> r.value == Filter(s, keep)
  {
    if s == [] then Some([])
    else
      var rest := FilterOrThrow(s[1..], throws, keep);
      assert forall i :: 1 <= i < |s| ==> s[i] == s[1..][i - 1];
      if throws(s[0]) || rest.None? then None
      else Some(if keep(s[0]) then [s[0]] + rest.value else rest.value)
  }

  /** One more element throws or is kept on its own, after the elements already kept. */
  lemma FilterOrThrowAppend<T>(s: seq<T>, x: T, throws: T -> bool, keep: T -> bool)
    ensures FilterOrThrow(s + [x], throws, keep) ==
              if throws(x) || FilterOrThrow(s, throws, keep).None? then None
              else Some(FilterOrThrow(s, throws, keep).value + (if keep(x) then [x] else []))
  {
    var t := s + [x];
    var r, r' := FilterOrThrow(s, throws, keep), FilterOrThrow(t, throws, keep);
    assert r'.None? <==> throws(x) || r.None? by {
      assert t[|s|] == x;
      assert forall i :: 0 <= i < |s| ==> t[i] == s[i];
    }
    if r'.Some? {
      FilterAppend(s, [x], keep);
      assert Filter([x], keep) == if keep(x) then [x] else [] by {
        assert [x][1..] == [];
      }
    }
  }

  /** Number of elements of `s` that satisfy `p`. */
  function Count<T>(s: seq<T>, p: T -> bool): nat {
    |Filter(s, p)|
  }

  lemma {:induction false} FilterAll<T>(s: seq<T>, p: T -> bool)
    requires forall i :: 0 <= i < |s| ==> p(s[i])
    ensures Filter(s, p) == s
  {
    if s != [] {
      FilterAll(s[1..], p);
    }
  }

  lemma {:induction false} FilterAppend<T>(s: seq<T>, t: seq<T>, p: T -> bool)
    ensures Filter(s + t, p) == Filter(s, p) + Filter(t, p)
  {
    if s == [] {
      assert s + t == t;
    } else {
      assert (s + t)[1..] == s[1..] + t;
      FilterAppend(s[1..], t, p);
    }
  }

  /** Splitting by a predicate and its negation accounts for every element exactly once. */
  lemma {:induction false} CountSplit<T>(s: seq<T>, p: T -> bool)
    ensures Count(s, p) + Count(s, x => !p(x)) == |s|
  {
    if s != [] {
      CountSplit(s[1..], p);
    }
  }

  /** No element is kept exactly when none satisfies `p`. */
  lemma CountZero<T>(s: seq<T>, p: T -> bool)
    ensures Count(s, p) == 0 <==> forall i :: 0 <= i < |s| ==> !p(s[i])
  {
    if Count(s, p) != 0 {
      var r := Filter(s, p);
      assert r[0] in s && p(r[0]);
    }
  }

  /** Every element is kept exactly when all satisfy `p`. */
  lemma {:induction false} CountFull<T>(s: seq<T>, p: T -> bool)
    ensures Count(s, p) == |s| <==> forall i :: 0 <= i < |s| ==> p(s[i])
  {
    if s != [] {
      CountFull(s[1..], p);
      if forall i :: 0 <= i < |s| ==> p(s[i]) {
        assert forall i :: 0 <= i < |s[1..]| ==> p(s[1..][i]) by {
          forall i | 0 <= i < |s[1..]| ensures p(s[1..][i]) { assert s[1..][i] == s[i + 1]; }
        }
      }
    }
  }
}
