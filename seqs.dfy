/** The "filter, then append a mapped value" loop shape shared by every
    enumeration of the package: each element either contributes one result,
    in order, or is dropped. */
module Seqs {

  datatype Option<+T> = None | Some(value: T)

  function OptionToSeq<T>(o: Option<T>): seq<T> {
    match o
    case Some(v) => [v]
    case None => []
  }

  /** The values `f` produces for the elements of `s` it does not drop, in order. */
  function FilterMap<A, B>(s: seq<A>, f: A -> Option<B>): (r: seq<B>)
    ensures |r| <= |s|
  {
    if s == [] then [] else FilterMap(s[..|s| - 1], f) + OptionToSeq(f(s[|s| - 1]))
  }

  /** The positions of `s` that `f` keeps, in increasing order. */
  function Kept<A, B>(s: seq<A>, f: A -> Option<B>): (idx: seq<nat>)
    ensures |idx| == |FilterMap(s, f)|
    ensures forall k :: 0 <= k < |idx| ==> idx[k] < |s|
  {
    if s == [] then []
    else Kept(s[..|s| - 1], f) + (if f(s[|s| - 1]).Some? then [|s| - 1] else [])
  }

  ghost predicate Increasing(idx: seq<nat>) {
    forall j, k :: 0 <= j < k < |idx| ==> idx[j] < idx[k]
  }

  lemma {:induction false} KeptIncreasing<A, B>(s: seq<A>, f: A -> Option<B>)
    ensures Increasing(Kept(s, f))
  {
    if s != [] {
      KeptIncreasing(s[..|s| - 1], f);
    }
  }

  lemma {:induction false} KeptSound<A, B>(s: seq<A>, f: A -> Option<B>)
    ensures forall k :: 0 <= k < |Kept(s, f)| ==> f(s[Kept(s, f)[k]]) == Some(FilterMap(s, f)[k])
  {
    if s != [] {
      var s' := s[..|s| - 1];
      KeptSound(s', f);
      var idx, r := Kept(s, f), FilterMap(s, f);
      assert idx == Kept(s', f) + (if f(s[|s| - 1]).Some? then [|s| - 1] else []);
      assert r == FilterMap(s', f) + OptionToSeq(f(s[|s| - 1]));
      forall k | 0 <= k < |idx| ensures f(s[idx[k]]) == Some(r[k]) {
        if k < |Kept(s', f)| {
          assert s'[Kept(s', f)[k]] == s[idx[k]];
        }
      }
    }
  }

  lemma {:induction false} KeptComplete<A, B>(s: seq<A>, f: A -> Option<B>)
    ensures forall i :: 0 <= i < |s| && f(s[i]).Some? ==> i in Kept(s, f)
  {
    if s != [] {
      var s' := s[..|s| - 1];
      KeptComplete(s', f);
      assert forall i :: 0 <= i < |s'| ==> s'[i] == s[i];
    }
  }

  /** `FilterMap(s, f)` is the order-preserving subsequence picked by `Kept(s, f)`:
      every result comes from a kept element, and every element `f` keeps is picked. */
  lemma FilterMapKept<A, B>(s: seq<A>, f: A -> Option<B>)
    ensures Increasing(Kept(s, f))
    ensures forall k :: 0 <= k < |Kept(s, f)| ==> f(s[Kept(s, f)[k]]) == Some(FilterMap(s, f)[k])
    ensures forall i :: 0 <= i < |s| && f(s[i]).Some? ==> i in Kept(s, f)
  {
    KeptIncreasing(s, f);
    KeptSound(s, f);
    KeptComplete(s, f);
  }

  lemma FilterMapSnoc<A, B>(s: seq<A>, x: A, f: A -> Option<B>)
    ensures FilterMap(s + [x], f) == FilterMap(s, f) + OptionToSeq(f(x))
  {
    assert (s + [x])[..|s|] == s;
  }

  lemma FilterMapPair<A, B>(x: A, y: A, f: A -> Option<B>)
    ensures FilterMap([x, y], f) == OptionToSeq(f(x)) + OptionToSeq(f(y))
  {
    FilterMapSnoc([], x, f);
    FilterMapSnoc([x], y, f);
    assert [x] + [y] == [x, y];
  }

  /** Filtering the results of `f` with `g` is filtering with their composition `h`. */
  lemma {:induction false} FilterMapThen<A, B, C>(s: seq<A>, f: A -> Option<B>, g: B -> Option<C>, h: A -> Option<C>)
    requires forall i :: 0 <= i < |s| ==> h(s[i]) == (if f(s[i]).Some? then g(f(s[i]).value) else None)
    ensures FilterMap(FilterMap(s, f), g) == FilterMap(s, h)
  {
    if s != [] {
      var s', x := s[..|s| - 1], s[|s| - 1];
      assert forall i :: 0 <= i < |s'| ==> s'[i] == s[i];
      FilterMapThen(s', f, g, h);
      assert FilterMap(s, f) == FilterMap(s', f) + OptionToSeq(f(x));
      assert FilterMap(s, h) == FilterMap(s', h) + OptionToSeq(h(x));
      if f(x).Some? {
        assert FilterMap(s, f) == FilterMap(s', f) + [f(x).value];
        FilterMapSnoc(FilterMap(s', f), f(x).value, g);
      } else {
        assert FilterMap(s, f) == FilterMap(s', f);
      }
    }
  }

  /** Filtering a prefix yields a prefix of the result. */
  lemma {:induction false} FilterMapPrefix<A, B>(s: seq<A>, n: nat, f: A -> Option<B>)
    requires n <= |s|
    ensures FilterMap(s[..n], f) <= FilterMap(s, f)
  {
    if n < |s| {
      FilterMapPrefix(s[..|s| - 1], n, f);
      assert s[..|s| - 1][..n] == s[..n];
    } else {
      assert s[..n] == s;
    }
  }

  /** If nothing before position `i` is kept and `s[i]` is, the first result comes from `s[i]`. */
  lemma FilterMapFirst<A, B>(s: seq<A>, i: nat, f: A -> Option<B>)
    requires i < |s| && FilterMap(s[..i], f) == [] && f(s[i]).Some?
    ensures FilterMap(s, f) != [] && FilterMap(s, f)[0] == f(s[i]).value
  {
    var p := s[..i + 1];
    assert p[..i] == s[..i];
    assert FilterMap(p, f) == FilterMap(s[..i], f) + OptionToSeq(f(s[i]));
    assert FilterMap(p, f) == [f(s[i]).value];
    FilterMapPrefix(s, i + 1, f);
  }

  /** Filtering with two functions that agree on the elements gives the same result. */
  lemma {:induction false} FilterMapCongruent<A, B>(s: seq<A>, f: A -> Option<B>, g: A -> Option<B>)
    requires forall i :: 0 <= i < |s| ==> f(s[i]) == g(s[i])
    ensures FilterMap(s, f) == FilterMap(s, g)
  {
    if s != [] {
      FilterMapCongruent(s[..|s| - 1], f, g);
    }
  }
}
