/**
 * JavaScript's default `Array.prototype.sort()` on the keys the list editor compares: strings
 * ordered character by character, with `undefined` placed after every string. Characters are
 * Unicode scalar values here, where JavaScript compares UTF-16 code units; the two orders differ
 * only between supplementary-plane characters and those from U+E000 up.
 */
module KeySort {
  import opened Options

  /** A sort key: a string, or `undefined` (`None`). */
  type Key = Option<string>

  /** Lexicographic order on strings, character by character. */
  predicate StringLe(a: string, b: string)
    decreases |a|
  {
    |a| == 0 || (|b| != 0 && (a[0] < b[0] || (a[0] == b[0] && StringLe(a[1..], b[1..]))))
  }

  /** The default sort's order: strings among themselves, `undefined` last. */
  predicate KeyLe(a: Key, b: Key) {
    match (a, b)
    case (_, None) => true
    case (None, Some(_)) => false
    case (Some(x), Some(y)) => StringLe(x, y)
  }

  lemma {:induction false} StringLeTotal(a: string, b: string)
    ensures StringLe(a, b) || StringLe(b, a)
    decreases |a|
  {
    if |a| != 0 && |b| != 0 && a[0] == b[0] {
      StringLeTotal(a[1..], b[1..]);
    }
  }

  lemma {:induction false} StringLeAntisymmetric(a: string, b: string)
    requires StringLe(a, b) && StringLe(b, a)
    ensures a == b
    decreases |a|
  {
    if |a| != 0 {
      StringLeAntisymmetric(a[1..], b[1..]);
      assert a == [a[0]] + a[1..] && b == [b[0]] + b[1..];
    }
  }

  lemma {:induction false} StringLeTransitive(a: string, b: string, c: string)
    requires StringLe(a, b) && StringLe(b, c)
    ensures StringLe(a, c)
    decreases |a|
  {
    if |a| != 0 && a[0] == b[0] && b[0] == c[0] {
      StringLeTransitive(a[1..], b[1..], c[1..]);
    }
  }

  lemma KeyLeTotal(a: Key, b: Key)
    ensures KeyLe(a, b) || KeyLe(b, a)
  {
    if a.Some? && b.Some? {
      StringLeTotal(a.value, b.value);
    }
  }

  lemma KeyLeAntisymmetric(a: Key, b: Key)
    requires KeyLe(a, b) && KeyLe(b, a)
    ensures a == b
  {
    if a.Some? && b.Some? {
      StringLeAntisymmetric(a.value, b.value);
    }
  }

  lemma KeyLeTransitive(a: Key, b: Key, c: Key)
    requires KeyLe(a, b) && KeyLe(b, c)
    ensures KeyLe(a, c)
  {
    if a.Some? && b.Some? && c.Some? {
      StringLeTransitive(a.value, b.value, c.value);
    }
  }

  predicate Sorted(s: seq<Key>) {
    forall i, j :: 0 <= i < j < |s| ==> KeyLe(s[i], s[j])
  }

  /** `x` placed into the sorted `s` before the first key it does not follow. */
  function Insert(x: Key, s: seq<Key>): (r: seq<Key>)
    requires Sorted(s)
    ensures |r| == |s| + 1
    ensures Sorted(r)
    ensures multiset(r) == multiset(s) + multiset{x}
  {
    if |s| == 0 then [x]
    else if KeyLe(x, s[0]) then
      assert Sorted([x] + s) by {
        var r := [x] + s;
        forall i, j | 0 <= i < j < |r|
          ensures KeyLe(r[i], r[j])
        {
          if i == 0 && j > 1 {
            KeyLeTransitive(x, s[0], s[j - 1]);
          }
        }
      }
      [x] + s
    else
      var rest := Insert(x, s[1..]);
      KeyLeTotal(x, s[0]);
      assert s == [s[0]] + s[1..];
      assert forall k :: 0 <= k < |rest| ==> KeyLe(s[0], rest[k]) by {
        forall k | 0 <= k < |rest|
          ensures KeyLe(s[0], rest[k])
        {
          assert rest[k] in multiset(rest);
          assert rest[k] == x || rest[k] in multiset(s[1..]);
          if rest[k] != x {
            var m :| 0 <= m < |s[1..]| && s[1..][m] == rest[k];
            assert s[m + 1] == rest[k];
          }
        }
      }
      [s[0]] + rest
  }

  /** The keys of `s` in sorted order: the result of the default sort, which a sorted
      rearrangement determines uniquely (see `SortedUnique`). */
  function Sort(s: seq<Key>): (r: seq<Key>)
    ensures |r| == |s|
    ensures Sorted(r)
    ensures multiset(r) == multiset(s)
  {
    if |s| == 0 then []
    else
      assert s == [s[0]] + s[1..];
      Insert(s[0], Sort(s[1..]))
  }

  /** The head of a sorted sequence comes before every key it holds. */
  lemma HeadIsLeast(s: seq<Key>, x: Key)
    requires Sorted(s) && x in multiset(s)
    ensures KeyLe(s[0], x)
  {
    var i :| 0 <= i < |s| && s[i] == x;
    if i == 0 {
      KeyLeTotal(x, x);
    }
  }

  /** Two sorted sequences holding the same keys are equal: this is why comparing sorted key lists
      position by position decides whether two lists hold the same keys. */
  lemma {:induction false} SortedUnique(a: seq<Key>, b: seq<Key>)
    requires Sorted(a) && Sorted(b)
    requires multiset(a) == multiset(b)
    ensures a == b
    decreases |a|
  {
    assert |a| == |multiset(a)| == |multiset(b)| == |b|;
    if |a| != 0 {
      HeadIsLeast(a, b[0]);
      HeadIsLeast(b, a[0]);
      KeyLeAntisymmetric(a[0], b[0]);
      assert a == [a[0]] + a[1..] && b == [b[0]] + b[1..];
      assert multiset(a[1..]) == multiset(a) - multiset{a[0]};
      assert multiset(b[1..]) == multiset(b) - multiset{b[0]};
      SortedUnique(a[1..], b[1..]);
    }
  }

  /** Sorting is insensitive to the order of its input. */
  lemma SortEqualIffSameKeys(a: seq<Key>, b: seq<Key>)
    ensures Sort(a) == Sort(b) <==> multiset(a) == multiset(b)
  {
    if multiset(a) == multiset(b) {
      SortedUnique(Sort(a), Sort(b));
    }
  }
}
