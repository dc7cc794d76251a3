/** Option, and the order-preserving filter that both `parsePlayers` and the
    save cleaning of the players form are built on. */
module Wrappers {
  datatype Option<+T> = None | Some(value: T)
}

module Seqs {

  /** The elements of `s` that satisfy `p`, in their original order
      (JavaScript's `Array.prototype.filter`). */
  function Filter<T>(p: T -> bool, s: seq<T>): (r: seq<T>)
    ensures |r| <= |s|
    ensures forall i :: 0 <= i < |r| ==> r[i] in s && p(r[i])
    ensures forall i :: 0 <= i < |s| && p(s[i]) ==> s[i] in r
  {
    if s == [] then []
    else if p(s[0]) then [s[0]] + Filter(p, s[1..])
    else Filter(p, s[1..])
  }

  /** `f` applied to every element (JavaScript's `Array.prototype.map`). */
  function Map<T, U>(f: T -> U, s: seq<T>): (r: seq<U>)
    ensures |r| == |s|
    ensures forall i :: 0 <= i < |s| ==> r[i] == f(s[i])
  {
    seq(|s|, i requires 0 <= i < |s| => f(s[i]))
  }

  /** `a` is obtained from `b` by deleting elements, without reordering. */
  ghost predicate SubsequenceOf<T>(a: seq<T>, b: seq<T>)
    decreases |b|
  {
    if a == [] then true
    else if b == [] then false
    else (a[0] == b[0] && SubsequenceOf(a[1..], b[1..])) || SubsequenceOf(a, b[1..])
  }

  /** Filtering keeps the surviving elements in their input order. */
  lemma {:induction false} FilterIsSubsequence<T>(p: T -> bool, s: seq<T>)
    ensures SubsequenceOf(Filter(p, s), s)
  {
    if s != [] {
      FilterIsSubsequence(p, s[1..]);
      var r := Filter(p, s);
      if p(s[0]) {
        assert r[0] == s[0] && r[1..] == Filter(p, s[1..]);
      } else {
        SubsequenceExtend(r, s[1..], s[0]);
      }
    }
  }

  /** Putting one more element in front of `b` keeps `a` a subsequence of it. */
  lemma SubsequenceExtend<T>(a: seq<T>, b: seq<T>, x: T)
    requires SubsequenceOf(a, b)
    ensures SubsequenceOf(a, [x] + b)
  {
  }

  /** Filtering a longer input extends the filtered prefix by at most the new element:
      this is what a loop that `push`es the elements satisfying `p` computes. */
  lemma {:induction false} FilterSnoc<T>(p: T -> bool, s: seq<T>, x: T)
    ensures Filter(p, s + [x]) == Filter(p, s) + (if p(x) then [x] else [])
  {
    if s == [] {
      assert [] + [x] == [x];
    } else {
      assert (s + [x])[0] == s[0] && (s + [x])[1..] == s[1..] + [x];
      FilterSnoc(p, s[1..], x);
    }
  }

  /** Filtering changes nothing when every element already satisfies `p`. */
  lemma {:induction false} FilterAllKept<T>(p: T -> bool, s: seq<T>)
    requires forall i :: 0 <= i < |s| ==> p(s[i])
    ensures Filter(p, s) == s
  {
    if s != [] {
      FilterAllKept(p, s[1..]);
    }
  }
}
