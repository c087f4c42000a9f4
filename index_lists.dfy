/** The unassigned-track and unassigned-measurement lists: Python lists of
    indices into the original track and measurement lists, built with
    `list(range(n))` and shrunk with `list.remove`. */
module IndexLists {

  /** `list(range(n))`. */
  function Range(n: nat): seq<nat> {
    seq(n, k requires 0 <= k < n => k as nat)
  }

  /** Strictly increasing: the lists start as `range` and only lose elements. */
  predicate Increasing(s: seq<nat>) {
    forall a, b :: 0 <= a < b < |s| ==> s[a] < s[b]
  }

  /** No index appears twice. */
  predicate Distinct(s: seq<nat>) {
    forall a, b :: 0 <= a < |s| && 0 <= b < |s| && a != b ==> s[a] != s[b]
  }

  /** After the element at position `i` is taken out, position `a` holds
      what was at position `Skip(a, i)`. */
  function Skip(a: nat, i: nat): nat {
    if a < i then a else a + 1
  }

  /** The list with position `i` taken out and the rest in order. */
  function RemoveAt(s: seq<nat>, i: nat): seq<nat>
    requires i < |s|
  {
    s[..i] + s[i + 1..]
  }

  /** `list.remove(v)`: take out the FIRST element equal to `v` (Python raises
      `ValueError` when there is none, which is why `v in s` is demanded). */
  function RemoveFirst(s: seq<nat>, v: nat): (r: seq<nat>)
    requires v in s
    ensures |r| == |s| - 1
    ensures multiset(r) == multiset(s) - multiset{v}
  {
    assert s == [s[0]] + s[1..];
    if s[0] == v then s[1..]
    else [s[0]] + RemoveFirst(s[1..], v)
  }

  /** `range(n)` counts 0, 1, ..., n-1 in order. */
  lemma RangeIsIncreasing(n: nat)
    ensures |Range(n)| == n
    ensures forall k :: 0 <= k < n ==> Range(n)[k] == k
    ensures Increasing(Range(n))
  {
  }

  lemma IncreasingIsDistinct(s: seq<nat>)
    requires Increasing(s)
    ensures Distinct(s)
  {
    forall a, b | 0 <= a < |s| && 0 <= b < |s| && a != b
      ensures s[a] != s[b]
    {
      if a < b { assert s[a] < s[b]; } else { assert s[b] < s[a]; }
    }
  }

  /** In a list without repeats, removing by value the element found at
      position `i` removes exactly position `i`. */
  lemma {:induction false} RemoveFirstAt(s: seq<nat>, i: nat)
    requires Distinct(s) && i < |s|
    ensures RemoveFirst(s, s[i]) == RemoveAt(s, i)
  {
    if i > 0 {
      assert s[0] != s[i];
      var t := s[1..];
      assert Distinct(t) by {
        forall a, b | 0 <= a < |t| && 0 <= b < |t| && a != b ensures t[a] != t[b] {
          assert t[a] == s[a + 1] && t[b] == s[b + 1];
        }
      }
      assert t[i - 1] == s[i];
      RemoveFirstAt(t, i - 1);
      assert RemoveFirst(s, s[i]) == [s[0]] + RemoveFirst(t, s[i]);
      RemoveAtTail(s, i);
    }
  }

  /** Taking out a position other than the first keeps the head. */
  lemma RemoveAtTail(s: seq<nat>, i: nat)
    requires 0 < i < |s|
    ensures RemoveAt(s, i) == [s[0]] + RemoveAt(s[1..], i - 1)
  {
    var t := s[1..];
    assert s[..i] == [s[0]] + t[..i - 1];
    assert s[i + 1..] == t[i..];
  }

  /** Taking out one position keeps a list increasing, and what is left
      at position `a` came from position `a` or `a + 1`. */
  lemma RemoveAtKeepsOrder(s: seq<nat>, i: nat)
    requires Increasing(s) && i < |s|
    ensures Increasing(RemoveAt(s, i))
    ensures forall a :: 0 <= a < |s| - 1 ==> RemoveAt(s, i)[a] == s[Skip(a, i)]
    ensures s[i] !in RemoveAt(s, i)
  {
    var r := RemoveAt(s, i);
    assert forall a :: 0 <= a < |s| - 1 ==> r[a] == s[Skip(a, i)];
    forall a, b | 0 <= a < b < |r| ensures r[a] < r[b] {
      assert r[a] == s[Skip(a, i)] && r[b] == s[Skip(b, i)];
    }
    forall a | 0 <= a < |r| ensures r[a] != s[i] {
      assert r[a] == s[Skip(a, i)];
    }
  }

  /** A list without repeats holds each value at most once. */
  lemma {:induction false} DistinctCounts(s: seq<nat>, v: nat)
    requires Distinct(s)
    ensures multiset(s)[v] <= 1
  {
    if s != [] {
      var t := s[1..];
      assert s == [s[0]] + t;
      assert Distinct(t) by {
        forall a, b | 0 <= a < |t| && 0 <= b < |t| && a != b ensures t[a] != t[b] {
          assert t[a] == s[a + 1] && t[b] == s[b + 1];
        }
      }
      DistinctCounts(t, v);
      if s[0] == v {
        forall a | 0 <= a < |t| ensures t[a] != v {
          assert t[a] == s[a + 1];
        }
        assert v !in t;
      }
    }
  }

  /** A value found at two positions occurs at least twice. */
  lemma RepeatCounts(s: seq<nat>, a: nat, b: nat)
    requires a < b < |s| && s[a] == s[b]
    ensures multiset(s)[s[a]] >= 2
  {
    assert s == s[..b] + s[b..];
    assert s[a] in s[..b] && s[b] in s[b..];
  }

  /** When two lists together hold exactly the entries of a list without
      repeats, neither repeats an entry and they share none. */
  lemma SplitDistinct(s: seq<nat>, x: seq<nat>, y: seq<nat>)
    requires Distinct(s) && multiset(x) + multiset(y) == multiset(s)
    ensures Distinct(x) && Distinct(y)
    ensures forall v :: v in x ==> v !in y
  {
    forall a, b | 0 <= a < |x| && 0 <= b < |x| && a != b ensures x[a] != x[b] {
      DistinctCounts(s, x[a]);
      if x[a] == x[b] {
        if a < b { RepeatCounts(x, a, b); } else { RepeatCounts(x, b, a); }
        assert false;
      }
    }
    forall a, b | 0 <= a < |y| && 0 <= b < |y| && a != b ensures y[a] != y[b] {
      DistinctCounts(s, y[a]);
      if y[a] == y[b] {
        if a < b { RepeatCounts(y, a, b); } else { RepeatCounts(y, b, a); }
        assert false;
      }
    }
    forall v | v in x ensures v !in y {
      DistinctCounts(s, v);
    }
  }
}
