/**
 * The gallery selection done by the `index` handler: the names of the media
 * directory's entries are sorted in descending order (`b.cmp(a)`) and the
 * first `min(display_count, len)` of them are shown.
 */
module Gallery {
  import opened Common
  import opened LexOrder

  /** Every later element sorts before or equals every earlier one. */
  predicate NonIncreasing(s: seq<string>)
  {
    forall i, j :: 0 <= i < j < |s| ==> LexLeq(s[j], s[i])
  }

  /** Putting a new head that bounds every element keeps a sequence non-increasing. */
  lemma ConsNonIncreasing(h: string, t: seq<string>)
    requires NonIncreasing(t)
    requires forall y :: y in t ==> LexLeq(y, h)
    ensures NonIncreasing([h] + t)
  {
    var s := [h] + t;
    forall i, j | 0 <= i < j < |s|
      ensures LexLeq(s[j], s[i])
    {
      if i > 0 {
        assert s[i] == t[i - 1] && s[j] == t[j - 1];
      } else {
        assert s[j] in t;
      }
    }
  }

  /** Inserts `x` into a non-increasing sequence, before the first element it is not below. */
  function Insert(x: string, s: seq<string>): (r: seq<string>)
    requires NonIncreasing(s)
    ensures NonIncreasing(r)
    ensures multiset(r) == multiset(s) + multiset{x}
    ensures |r| == |s| + 1
  {
    if |s| == 0 then [x]
    else if LexLeq(s[0], x) then
      (forall y | y in s ensures LexLeq(y, x) {
         LexLeqTransitive(y, s[0], x);
       }
       ConsNonIncreasing(x, s);
       [x] + s)
    else
      var rest := Insert(x, s[1..]);
      assert s == [s[0]] + s[1..];
      LexLeqNegation(s[0], x);
      (forall y | y in rest ensures LexLeq(y, s[0]) {
         assert y in multiset(rest);
         if y != x {
           assert y in s[1..];
         }
       }
       ConsNonIncreasing(s[0], rest);
       [s[0]] + rest)
  }

  /** The descending sort of the listing (`sort_by(|a, b| b.cmp(a))`). */
  function SortDescending(s: seq<string>): (r: seq<string>)
    ensures NonIncreasing(r)
    ensures multiset(r) == multiset(s)
    ensures |r| == |s|
  {
    if |s| == 0 then []
    else
      assert s == [s[0]] + s[1..];
      Insert(s[0], SortDescending(s[1..]))
  }

  /** The head of a non-increasing sequence bounds every element of it. */
  lemma HeadBounds(s: seq<string>, x: string)
    requires NonIncreasing(s) && x in multiset(s)
    ensures |s| > 0 && LexLeq(x, s[0])
  {
    var k :| 0 <= k < |s| && s[k] == x;
  }

  /** Two non-increasing arrangements of one multiset start with the same element. */
  lemma SameHead(a: seq<string>, b: seq<string>)
    requires NonIncreasing(a) && NonIncreasing(b)
    requires multiset(a) == multiset(b) && |a| > 0
    ensures |b| > 0 && a[0] == b[0]
  {
    assert a[0] in multiset(a);
    HeadBounds(b, a[0]);
    HeadBounds(a, b[0]);
    LexLeqTotalOrder(a[0], b[0], b[0]);
  }

  /**
   * A non-increasing arrangement of a multiset of strings is unique, so the
   * result of the sort does not depend on the algorithm (nor on stability).
   */
  lemma {:induction false} SortedUnique(a: seq<string>, b: seq<string>)
    requires NonIncreasing(a) && NonIncreasing(b)
    requires multiset(a) == multiset(b)
    ensures a == b
    decreases |a|
  {
    assert |a| == |multiset(a)| == |multiset(b)| == |b|;
    if |a| > 0 {
      SameHead(a, b);
      assert a == [a[0]] + a[1..] && b == [b[0]] + b[1..];
      assert multiset(a[1..]) == multiset(a) - multiset{a[0]};
      assert multiset(b[1..]) == multiset(b) - multiset{b[0]};
      SortedUnique(a[1..], b[1..]);
    }
  }

  /** The images the gallery page lists, most recent (greatest name) first. */
  function Select(entries: seq<string>, displayCount: nat): (r: seq<string>)
    ensures |r| == Min(displayCount, |entries|)
    ensures NonIncreasing(r)
    ensures multiset(r) <= multiset(entries)
  {
    var sorted := SortDescending(entries);
    var n := Min(displayCount, |sorted|);
    assert sorted == sorted[..n] + sorted[n..];
    sorted[..n]
  }

  /** An empty page exactly when nothing may be shown or nothing is there. */
  lemma SelectEmpty(entries: seq<string>, displayCount: nat)
    ensures Select(entries, displayCount) == [] <==> displayCount == 0 || entries == []
  {
  }

  /** Every listed name comes from the directory. */
  lemma SelectFromListing(entries: seq<string>, displayCount: nat)
    ensures forall y :: y in Select(entries, displayCount) ==> y in entries
  {
    var r := Select(entries, displayCount);
    forall y | y in r
      ensures y in entries
    {
      assert y in multiset(r);
    }
  }

  /**
   * The page is a prefix of EVERY descending arrangement of the listing, so
   * which sorting algorithm produced it does not matter.
   */
  lemma SelectIsPrefixOfDescending(entries: seq<string>, displayCount: nat, t: seq<string>)
    requires NonIncreasing(t) && multiset(t) == multiset(entries)
    ensures |t| == |entries| && Select(entries, displayCount) == t[..Min(displayCount, |entries|)]
  {
    SortedUnique(SortDescending(entries), t);
  }

  /** Cutting a non-increasing sequence leaves every element of the tail at or below every element of the head. */
  lemma SplitOrdered(s: seq<string>, n: nat)
    requires NonIncreasing(s) && n <= |s|
    ensures forall x, y :: x in s[n..] && y in s[..n] ==> LexLeq(x, y)
  {
    forall x, y | x in s[n..] && y in s[..n]
      ensures LexLeq(x, y)
    {
      var i :| 0 <= i < |s| - n && s[n..][i] == x;
      var j :| 0 <= j < n && s[..n][j] == y;
      assert s[n + i] == x && s[j] == y;
    }
  }

  /** The page holds the greatest names: each name left out sorts before or equals each name shown. */
  lemma SelectIsTop(entries: seq<string>, displayCount: nat)
    ensures var r := Select(entries, displayCount);
            forall x, y :: x in multiset(entries) - multiset(r) && y in r ==> LexLeq(x, y)
  {
    var sorted := SortDescending(entries);
    var r := Select(entries, displayCount);
    var n := |r|;
    assert r == sorted[..n];
    assert sorted == r + sorted[n..];
    assert multiset(entries) - multiset(r) == multiset(sorted[n..]);
    SplitOrdered(sorted, n);
  }

  /** With room for every entry, the page is a permutation of the whole listing. */
  lemma SelectAll(entries: seq<string>, displayCount: nat)
    requires displayCount >= |entries|
    ensures multiset(Select(entries, displayCount)) == multiset(entries)
  {
    var sorted := SortDescending(entries);
    assert sorted[..|sorted|] == sorted;
  }

  /** The worked example, step one: inserting into a one-name list. */
  lemma InsertExampleFirst()
    ensures Insert("a.jpg", ["c.jpg"]) == ["c.jpg", "a.jpg"]
  {
    assert !LexLeq("c.jpg", "a.jpg");
    assert Insert("a.jpg", []) == ["a.jpg"];
  }

  /** The worked example, step two: a name goes between a greater and a smaller one. */
  lemma InsertExampleSecond()
    ensures Insert("b.jpg", ["c.jpg", "a.jpg"]) == ["c.jpg", "b.jpg", "a.jpg"]
  {
    assert !LexLeq("c.jpg", "b.jpg");
    assert ["c.jpg", "a.jpg"][1..] == ["a.jpg"];
    assert LexLeq("a.jpg", "b.jpg");
    assert Insert("b.jpg", ["a.jpg"]) == ["b.jpg", "a.jpg"];
  }

  /** The worked example: three names, room for two; the page shows the two greatest. */
  lemma SelectExample()
    ensures SortDescending(["b.jpg", "a.jpg", "c.jpg"]) == ["c.jpg", "b.jpg", "a.jpg"]
    ensures Select(["b.jpg", "a.jpg", "c.jpg"], 2) == ["c.jpg", "b.jpg"]
  {
    var s := ["b.jpg", "a.jpg", "c.jpg"];
    assert s[1..] == ["a.jpg", "c.jpg"];
    assert s[1..][1..] == ["c.jpg"];
    assert SortDescending(["c.jpg"]) == ["c.jpg"] by { assert ["c.jpg"][1..] == []; }
    InsertExampleFirst();
    InsertExampleSecond();
  }
}
