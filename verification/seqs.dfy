/** The array operations the components use (`filter`, `map`, repeated `unshift`), on sequences. */
module Seqs {

  /** `s.filter(p)`: the elements satisfying `p`, in their original order. */
  function Filter<T>(p: T -> bool, s: seq<T>): (r: seq<T>)
    ensures |r| <= |s|
    ensures forall i :: 0 <= i < |r| ==> r[i] in s && p(r[i])
    ensures forall i :: 0 <= i < |s| && p(s[i]) ==> s[i] in r
  {
    if |s| == 0 then []
    else (if p(s[0]) then [s[0]] else []) + Filter(p, s[1..])
  }

  /** `s.map(f)`. */
  function Map<T, U>(f: T -> U, s: seq<T>): (r: seq<U>)
    ensures |r| == |s|
    ensures forall i :: 0 <= i < |s| ==> r[i] == f(s[i])
  {
    if |s| == 0 then [] else [f(s[0])] + Map(f, s[1..])
  }

  /** The elements of `s` from last to first. */
  function Reverse<T>(s: seq<T>): (r: seq<T>)
    ensures |r| == |s|
    ensures forall i :: 0 <= i < |s| ==> r[i] == s[|s| - 1 - i]
  {
    if |s| == 0 then [] else Reverse(s[1..]) + [s[0]]
  }

  /** Filtering distributes over concatenation, so it keeps the relative order of what it keeps. */
  lemma {:induction false} FilterAppend<T>(p: T -> bool, s: seq<T>, t: seq<T>)
    ensures Filter(p, s + t) == Filter(p, s) + Filter(p, t)
  {
    if |s| == 0 {
      assert s + t == t;
    } else {
      assert (s + t)[1..] == s[1..] + t;
      FilterAppend(p, s[1..], t);
    }
  }

  /** A sequence all of whose elements pass is its own filter. */
  lemma {:induction false} FilterKeepsAll<T>(p: T -> bool, s: seq<T>)
    requires forall i :: 0 <= i < |s| ==> p(s[i])
    ensures Filter(p, s) == s
  {
    if |s| != 0 {
      FilterKeepsAll(p, s[1..]);
    }
  }

  /** A sequence none of whose elements pass filters to nothing. */
  lemma {:induction false} FilterDropsAll<T>(p: T -> bool, s: seq<T>)
    requires forall i :: 0 <= i < |s| ==> !p(s[i])
    ensures Filter(p, s) == []
  {
    if |s| != 0 {
      FilterDropsAll(p, s[1..]);
    }
  }

  lemma MapAppend<T, U>(f: T -> U, s: seq<T>, t: seq<T>)
    ensures Map(f, s + t) == Map(f, s) + Map(f, t)
  {
  }

  lemma ReverseAppend<T>(s: seq<T>, t: seq<T>)
    ensures Reverse(s + t) == Reverse(t) + Reverse(s)
  {
  }

  /** Taking one element out of a sequence takes it out of its multiset. */
  lemma MultisetRemove<T>(s: seq<T>, j: nat)
    requires j < |s|
    ensures multiset(s[..j] + s[j + 1..]) == multiset(s) - multiset{s[j]}
  {
    assert s == s[..j] + [s[j]] + s[j + 1..];
  }

  /** The images of a sequence are the images of the sequence without one element, plus its image. */
  lemma {:induction false} MapRemove<T, U>(f: T -> U, s: seq<T>, j: nat)
    requires j < |s|
    ensures multiset(Map(f, s)) == multiset(Map(f, s[..j] + s[j + 1..])) + multiset{f(s[j])}
  {
    var rest := s[..j] + s[j + 1..];
    if j == 0 {
      assert rest == s[1..];
      assert Map(f, s) == [f(s[0])] + Map(f, s[1..]);
    } else {
      var t := s[1..];
      var restT := t[..j - 1] + t[j..];
      assert rest == [s[0]] + restT;
      assert rest[1..] == restT;
      MapRemove(f, t, j - 1);
      assert t[j - 1] == s[j];
      assert Map(f, s) == [f(s[0])] + Map(f, t);
      assert Map(f, rest) == [f(s[0])] + Map(f, restT);
    }
  }

  /** A position holding an element of the sequence's multiset. */
  lemma PositionOf<T>(s: seq<T>, x: T) returns (j: nat)
    requires x in multiset(s)
    ensures j < |s| && s[j] == x
  {
    assert x in s;
    j :| 0 <= j < |s| && s[j] == x;
  }

  /** `Map` of two sequences holding the same elements holds the same images. */
  lemma {:induction false} MultisetMap<T, U>(f: T -> U, a: seq<T>, b: seq<T>)
    requires multiset(a) == multiset(b)
    ensures multiset(Map(f, a)) == multiset(Map(f, b))
    decreases |a|
  {
    if |a| != 0 {
      var x := a[0];
      var j := PositionOf(b, x);
      var a', b' := a[..0] + a[1..], b[..j] + b[j + 1..];
      assert multiset(Map(f, a')) == multiset(Map(f, b')) by {
        MultisetRemove(a, 0);
        MultisetRemove(b, j);
        MultisetMap(f, a', b');
      }
      assert multiset(Map(f, a)) == multiset(Map(f, a')) + multiset{f(x)} by {
        MapRemove(f, a, 0);
      }
      assert multiset(Map(f, b)) == multiset(Map(f, b')) + multiset{f(x)} by {
        MapRemove(f, b, j);
      }
    }
  }

  /** Filtering one more element adds it when it passes. */
  lemma FilterStep<T>(p: T -> bool, s: seq<T>, j: nat)
    requires j < |s|
    ensures Filter(p, s[..j + 1]) == Filter(p, s[..j]) + (if p(s[j]) then [s[j]] else [])
  {
    assert s[..j + 1] == s[..j] + [s[j]];
    FilterAppend(p, s[..j], [s[j]]);
    assert [s[j]][1..] == [];
  }

  /** The first element that passes heads the filter. */
  lemma FilterFirst<T>(p: T -> bool, s: seq<T>, j: nat)
    requires j < |s| && p(s[j])
    requires Filter(p, s[..j]) == []
    ensures |Filter(p, s)| > 0 && Filter(p, s)[0] == s[j]
  {
    assert s == s[..j] + s[j..];
    FilterAppend(p, s[..j], s[j..]);
    assert s[j..][0] == s[j];
  }
}
