/** The ranking step of index.mjs: the entries of the aggregated map are
    copied into an array and sorted in place with the comparator
    `b.commitCount - a.commitCount || churn(b) - churn(a)`. `Array.prototype.sort`
    is stable (ECMAScript 2019, section 22.1.3.27 "Array.prototype.sort"),
    and a stable sort under a consistent comparator has exactly one result,
    so the stable insertion sort below computes what the engine computes. */
module Ranking {
  import opened Churn

  /** Additions plus deletions. */
  function ChurnOf(s: FileStat): nat
  {
    s.additions + s.deletions
  }

  /** The comparator given to `sort`; negative means `a` goes first. */
  function Compare(a: Entry, b: Entry): int
  {
    var byCount := b.stat.commitCount - a.stat.commitCount;
    if byCount != 0 then byCount else ChurnOf(b.stat) - ChurnOf(a.stat)
  }

  /** `a` is ranked strictly before `b`. */
  predicate Before(a: Entry, b: Entry)
  {
    Compare(a, b) < 0
  }

  /** The comparator orders by commit count descending, then by churn
      descending, and is consistent: it is antisymmetric and treats as equal
      exactly the entries that agree on both keys. */
  lemma CompareMeaning(a: Entry, b: Entry)
    ensures Before(a, b) <==>
      a.stat.commitCount > b.stat.commitCount ||
      (a.stat.commitCount == b.stat.commitCount && ChurnOf(a.stat) > ChurnOf(b.stat))
    ensures Compare(a, b) == -Compare(b, a)
    ensures Compare(a, b) == 0 <==>
      a.stat.commitCount == b.stat.commitCount && ChurnOf(a.stat) == ChurnOf(b.stat)
  {
  }

  /** Every entry ranked before its successors, for any two positions. */
  predicate Sorted(r: seq<Entry>)
  {
    forall i, j :: 0 <= i < j < |r| ==> !Before(r[j], r[i])
  }

  /** Stable insertion: `x` goes after every entry not ranked after it. */
  function Insert(t: seq<Entry>, x: Entry): (r: seq<Entry>)
    ensures |r| == |t| + 1
  {
    if t == [] then [x]
    else if Before(x, t[|t| - 1]) then Insert(t[..|t| - 1], x) + [t[|t| - 1]]
    else t + [x]
  }

  /** The stable sort of `s` by the comparator. */
  function Ranked(s: seq<Entry>): (r: seq<Entry>)
    ensures |r| == |s|
  {
    if s == [] then [] else Insert(Ranked(s[..|s| - 1]), s[|s| - 1])
  }

  lemma {:induction false} InsertPermutation(t: seq<Entry>, x: Entry)
    ensures multiset(Insert(t, x)) == multiset(t) + multiset{x}
  {
    if t != [] && Before(x, t[|t| - 1]) {
      var p := t[..|t| - 1];
      InsertPermutation(p, x);
      assert t == p + [t[|t| - 1]];
    }
  }

  lemma {:induction false} InsertSorted(t: seq<Entry>, x: Entry)
    requires Sorted(t)
    ensures Sorted(Insert(t, x))
  {
    if t != [] {
      var last := t[|t| - 1];
      var p := t[..|t| - 1];
      if Before(x, last) {
        InsertSorted(p, x);
        InsertPermutation(p, x);
        var q := Insert(p, x);
        forall i | 0 <= i < |q| ensures !Before(last, q[i]) {
          assert q[i] in multiset(q);
          if q[i] != x {
            assert q[i] in multiset(p);
            var k :| 0 <= k < |p| && p[k] == q[i];
            assert t[k] == q[i];
          }
        }
      } else {
        forall i | 0 <= i < |t| ensures !Before(x, t[i]) {
          if i < |t| - 1 {
            assert !Before(last, t[i]);
          }
        }
      }
    }
  }

  /** The ranked sequence is a permutation of the entries: nothing added,
      nothing lost, no record changed. */
  lemma {:induction false} RankedPermutation(s: seq<Entry>)
    ensures multiset(Ranked(s)) == multiset(s)
  {
    if s != [] {
      var p := s[..|s| - 1];
      RankedPermutation(p);
      InsertPermutation(Ranked(p), s[|s| - 1]);
      assert s == p + [s[|s| - 1]];
    }
  }

  /** The ranked sequence is ordered: for any two entries, the earlier one
      has the larger commit count, or the same commit count and at least as
      much churn. */
  lemma {:induction false} RankedSorted(s: seq<Entry>)
    ensures Sorted(Ranked(s))
    ensures forall i, j :: 0 <= i < j < |s| ==>
      var r := Ranked(s);
      r[i].stat.commitCount > r[j].stat.commitCount ||
      (r[i].stat.commitCount == r[j].stat.commitCount && ChurnOf(r[i].stat) >= ChurnOf(r[j].stat))
  {
    if s != [] {
      RankedSorted(s[..|s| - 1]);
      InsertSorted(Ranked(s[..|s| - 1]), s[|s| - 1]);
    }
  }

  /** The entries with commit count `c` and churn `w`, in order. */
  function Ties(s: seq<Entry>, c: nat, w: nat): seq<Entry>
  {
    if s == [] then []
    else
      (if s[0].stat.commitCount == c && ChurnOf(s[0].stat) == w then [s[0]] else [])
      + Ties(s[1..], c, w)
  }

  lemma {:induction false} TiesAppend(a: seq<Entry>, b: seq<Entry>, c: nat, w: nat)
    ensures Ties(a + b, c, w) == Ties(a, c, w) + Ties(b, c, w)
  {
    if a == [] {
      assert a + b == b;
    } else {
      assert (a + b)[1..] == a[1..] + b;
      TiesAppend(a[1..], b, c, w);
    }
  }

  lemma {:induction false} InsertTies(t: seq<Entry>, x: Entry, c: nat, w: nat)
    ensures Ties(Insert(t, x), c, w) == Ties(t, c, w) + Ties([x], c, w)
  {
    if t == [] {
      assert Insert(t, x) == [x];
    } else {
      var last := t[|t| - 1];
      var p := t[..|t| - 1];
      assert t == p + [last];
      TiesAppend(p, [last], c, w);
      if Before(x, last) {
        InsertTies(p, x, c, w);
        TiesAppend(Insert(p, x), [last], c, w);
      } else {
        TiesAppend(t, [x], c, w);
      }
    }
  }

  /** The sort is stable: entries equal on both keys keep their original
      relative order. */
  lemma {:induction false} RankedStable(s: seq<Entry>, c: nat, w: nat)
    ensures Ties(Ranked(s), c, w) == Ties(s, c, w)
  {
    if s != [] {
      var p := s[..|s| - 1];
      RankedStable(p, c, w);
      InsertTies(Ranked(p), s[|s| - 1], c, w);
      assert s == p + [s[|s| - 1]];
      TiesAppend(p, [s[|s| - 1]], c, w);
    }
  }

  /** Ranking keeps the keys distinct, so `new Map(sorted)` loses nothing. */
  lemma RankedDistinct(s: seq<Entry>)
    requires DistinctPaths(s)
    ensures DistinctPaths(Ranked(s))
  {
    var r := Ranked(s);
    RankedPermutation(s);
    forall i, j | 0 <= i < j < |r| ensures r[i].path != r[j].path {
      assert r[i] in multiset(s) && r[j] in multiset(s);
      var i' :| 0 <= i' < |s| && s[i'] == r[i];
      var j' :| 0 <= j' < |s| && s[j'] == r[j];
      DistinctOnce(s, i');
      AtMostOnce(r, i, j);
    }
  }

  lemma AtMostOnce(r: seq<Entry>, i: nat, j: nat)
    requires i < j < |r| && multiset(r)[r[i]] <= 1
    ensures r[i] != r[j]
  {
    assert r == r[..i] + [r[i]] + r[i + 1..j] + [r[j]] + r[j + 1..];
  }

  lemma DistinctOnce(s: seq<Entry>, i: nat)
    requires DistinctPaths(s) && i < |s|
    ensures multiset(s)[s[i]] == 1
  {
    assert s == s[..i] + [s[i]] + s[i + 1..];
    assert s[i] !in s[..i] && s[i] !in s[i + 1..];
  }

  /** Two files with three commits each and churn 10 and 50: the one with
      more churn comes first. */
  lemma ScenarioChurnTieBreak(a: Entry, b: Entry)
    requires a.stat.commitCount == 3 && ChurnOf(a.stat) == 10
    requires b.stat.commitCount == 3 && ChurnOf(b.stat) == 50
    ensures Ranked([a, b]) == [b, a]
  {
    assert [a, b][..1] == [a];
    assert [a][..0] == [];
    assert Ranked([a]) == [a];
    assert Before(b, a);
    assert Insert([a], b) == Insert([], b) + [a];
  }

  /** Shifting `x` one place left past an entry it ranks before. */
  lemma InsertStep(p: seq<Entry>, x: Entry, j: nat)
    requires 0 < j <= |p| && Before(x, p[j - 1])
    ensures Insert(p[..j], x) == Insert(p[..j - 1], x) + [p[j - 1]]
  {
    assert p[..j][..j - 1] == p[..j - 1];
  }

  /** Stopping once `x` does not rank before its left neighbour. */
  lemma InsertStop(p: seq<Entry>, x: Entry, j: nat)
    requires j <= |p| && (j == 0 || !Before(x, p[j - 1]))
    ensures Insert(p[..j], x) == p[..j] + [x]
  {
  }

  /** One pass of insertion sort: `a[i]` is moved into the sorted prefix
      `a[..i]`, shifting the entries it ranks before one place right. */
  method InsertAt(a: array<Entry>, i: nat)
    requires i < a.Length
    modifies a
    ensures a[..i + 1] == Insert(old(a[..i]), old(a[i]))
    ensures a[i + 1..] == old(a[i + 1..])
  {
    ghost var prefix := a[..i];
    var x := a[i];
    var j := i;
    assert prefix[..j] == prefix && prefix[j..] == [];
    while j > 0 && Before(x, a[j - 1])
      invariant 0 <= j <= i
      invariant forall k :: 0 <= k < j ==> a[k] == prefix[k]
      invariant forall k :: j < k <= i ==> a[k] == prefix[k - 1]
      invariant forall k :: i < k < a.Length ==> a[k] == old(a[k])
      invariant Insert(prefix, x) == Insert(prefix[..j], x) + prefix[j..]
    {
      InsertShift(prefix, x, j);
      a[j] := a[j - 1];
      j := j - 1;
    }
    InsertStop(prefix, x, j);
    a[j] := x;
    assert a[..i + 1] == prefix[..j] + [x] + prefix[j..];
    assert a[i + 1..] == old(a[i + 1..]);
  }

  /** The loop invariant of `InsertAt` survives one shift. */
  lemma InsertShift(p: seq<Entry>, x: Entry, j: nat)
    requires 0 < j <= |p| && Before(x, p[j - 1])
    requires Insert(p, x) == Insert(p[..j], x) + p[j..]
    ensures Insert(p, x) == Insert(p[..j - 1], x) + p[j - 1..]
  {
    InsertStep(p, x, j);
    assert p[j - 1..] == [p[j - 1]] + p[j..];
  }

  /** `[...data.entries()].sort(...)`: a stable insertion sort in place. */
  method Rank(a: array<Entry>)
    modifies a
    ensures a[..] == Ranked(old(a[..]))
  {
    ghost var s := a[..];
    for i := 0 to a.Length
      invariant a[..i] == Ranked(s[..i])
      invariant a[i..] == s[i..]
    {
      assert a[i] == s[i];
      InsertAt(a, i);
      assert s[..i + 1][..i] == s[..i];
    }
    assert a[..] == a[..a.Length];
    assert s[..a.Length] == s;
  }
}
