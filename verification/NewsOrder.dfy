/** The order of news items, and the insertion sort that puts them into it in place. */
module NewsOrder {
  import opened Bytes

  datatype NewsItem = NewsItem(id: seq<byte>, kind: seq<byte>, date: seq<byte>, title: seq<byte>, summary: seq<byte>,
                       url: seq<byte>, severity: seq<byte>)

  /** `strcmp`: negative, zero or positive. */
  function Compare(a: seq<byte>, b: seq<byte>): int {
    if a == [] && b == [] then 0
    else if a == [] then -1
    else if b == [] then 1
    else if a[0] != b[0] then a[0] - b[0]
    else Compare(a[1..], b[1..])
  }

  lemma {:induction false} CompareReverse(a: seq<byte>, b: seq<byte>)
    ensures Compare(a, b) < 0 <==> Compare(b, a) > 0
    ensures Compare(a, b) == 0 <==> a == b
    decreases |a|
  {
    if a != [] && b != [] && a[0] == b[0] {
      CompareReverse(a[1..], b[1..]);
      assert a == [a[0]] + a[1..] && b == [b[0]] + b[1..];
    }
  }

  lemma {:induction false} CompareTrans(a: seq<byte>, b: seq<byte>, c: seq<byte>)
    requires Compare(a, b) <= 0 && Compare(b, c) <= 0
    ensures Compare(a, c) <= 0
    ensures Compare(a, b) < 0 || Compare(b, c) < 0 ==> Compare(a, c) < 0
    decreases |a|
  {
    if a != [] && b != [] && c != [] && a[0] == b[0] == c[0] {
      CompareTrans(a[1..], b[1..], c[1..]);
    }
  }

  /** `a` comes before `b` in a dictionary over bytes: it is cut short, or smaller where they first differ. */
  ghost predicate Before(a: seq<byte>, b: seq<byte>) {
    || (|a| < |b| && a == b[..|a|])
    || exists k :: 0 <= k < |a| && k < |b| && a[..k] == b[..k] && a[k] < b[k]
  }

  /** What the comparison tells, in terms of the bytes alone. */
  lemma {:induction false} CompareMeans(a: seq<byte>, b: seq<byte>)
    ensures Compare(a, b) < 0 <==> Before(a, b)
    ensures Compare(a, b) > 0 <==> Before(b, a)
    ensures Compare(a, b) == 0 <==> a == b
    decreases |a|
  {
    CompareReverse(a, b);
    if a != [] && b != [] && a[0] == b[0] {
      CompareMeans(a[1..], b[1..]);
      BeforeTail(a, b);
      BeforeTail(b, a);
    } else if a != [] && b != [] {
      assert a[..0] == b[..0];
    }
  }

  lemma BeforeTail(a: seq<byte>, b: seq<byte>)
    requires a != [] && b != [] && a[0] == b[0]
    ensures Before(a, b) <==> Before(a[1..], b[1..])
  {
    var c, d := a[1..], b[1..];
    assert a == [a[0]] + c && b == [b[0]] + d;
    if Before(a, b) {
      if |a| < |b| && a == b[..|a|] {
        assert c == b[..|a|][1..] == d[..|c|];
      } else {
        var k :| 0 <= k < |a| && k < |b| && a[..k] == b[..k] && a[k] < b[k];
        assert c[..k - 1] == a[..k][1..] == b[..k][1..] == d[..k - 1] && c[k - 1] < d[k - 1];
      }
    }
    if Before(c, d) {
      if |c| < |d| && c == d[..|c|] {
        assert b[..|a|] == [b[0]] + d[..|c|];
      } else {
        var k :| 0 <= k < |c| && k < |d| && c[..k] == d[..k] && c[k] < d[k];
        assert a[..k + 1] == [a[0]] + c[..k] && b[..k + 1] == [b[0]] + d[..k] && a[k + 1] < b[k + 1];
      }
    }
  }

  /** Newest first; ties by id. */
  predicate AtMost(x: NewsItem, y: NewsItem) {
    var c := Compare(x.date, y.date);
    c > 0 || (c == 0 && Compare(x.id, y.id) <= 0)
  }

  lemma AtMostTotal(x: NewsItem, y: NewsItem)
    ensures AtMost(x, y) || AtMost(y, x)
  {
    CompareReverse(x.date, y.date);
    CompareReverse(y.date, x.date);
    CompareReverse(x.id, y.id);
    CompareReverse(y.id, x.id);
  }

  lemma AtMostTrans(x: NewsItem, y: NewsItem, z: NewsItem)
    requires AtMost(x, y) && AtMost(y, z)
    ensures AtMost(x, z)
  {
    CompareReverse(z.date, y.date);
    CompareReverse(y.date, x.date);
    CompareReverse(z.date, x.date);
    CompareReverse(x.date, y.date);
    CompareReverse(y.date, z.date);
    CompareTrans(z.date, y.date, x.date);
    if x.date == y.date && y.date == z.date {
      CompareTrans(x.id, y.id, z.id);
      CompareReverse(x.date, z.date);
    }
  }

  predicate Sorted(s: seq<NewsItem>) {
    forall i, j :: 0 <= i < j < |s| ==> AtMost(s[i], s[j])
  }

  /** Where one pass of the inner loop puts `x`. */
  function Insert(s: seq<NewsItem>, x: NewsItem): (t: seq<NewsItem>)
    ensures |t| == |s| + 1
  {
    if s == [] || AtMost(s[|s| - 1], x) then s + [x] else Insert(s[..|s| - 1], x) + [s[|s| - 1]]
  }

  function InsertionSort(s: seq<NewsItem>): (t: seq<NewsItem>)
    ensures |t| == |s|
  {
    if s == [] then [] else Insert(InsertionSort(s[..|s| - 1]), s[|s| - 1])
  }

  lemma {:induction false} InsertKeeps(s: seq<NewsItem>, x: NewsItem)
    ensures multiset(Insert(s, x)) == multiset(s) + multiset{x}
    decreases |s|
  {
    if s != [] && !AtMost(s[|s| - 1], x) {
      InsertKeeps(s[..|s| - 1], x);
      assert s == s[..|s| - 1] + [s[|s| - 1]];
    }
  }

  lemma {:induction false} InsertSorted(s: seq<NewsItem>, x: NewsItem)
    requires Sorted(s)
    ensures Sorted(Insert(s, x))
    decreases |s|
  {
    hide AtMost;
    var n := |s|;
    if n > 0 {
      var last, front := s[n - 1], s[..n - 1];
      if AtMost(last, x) {
        forall i | 0 <= i < n ensures AtMost(s[i], x) {
          if i < n - 1 { AtMostTrans(s[i], last, x); }
        }
      } else {
        AtMostTotal(last, x);
        InsertSorted(front, x);
        InsertKeeps(front, x);
        var t := Insert(front, x);
        forall i | 0 <= i < n ensures AtMost(t[i], last) {
          assert t[i] in multiset(t);
          if t[i] != x {
            assert t[i] in multiset(front);
            assert exists k :: 0 <= k < n - 1 && front[k] == t[i];
          }
        }
      }
    }
  }

  lemma {:induction false} SortCorrect(s: seq<NewsItem>)
    ensures Sorted(InsertionSort(s)) && multiset(InsertionSort(s)) == multiset(s)
    decreases |s|
  {
    if s != [] {
      var front := s[..|s| - 1];
      SortCorrect(front);
      InsertSorted(InsertionSort(front), s[|s| - 1]);
      InsertKeeps(InsertionSort(front), s[|s| - 1]);
      assert s == front + [s[|s| - 1]];
    }
  }

  lemma SortOneMore(s: seq<NewsItem>, i: nat)
    requires i < |s|
    ensures InsertionSort(s[..i + 1]) == Insert(InsertionSort(s[..i]), s[i])
  {
    assert s[..i + 1][..i] == s[..i];
  }

  /** The two loops at the end of `le_news_parse`, on the first `count` elements. */
  method SortItems(items: array<NewsItem>, count: nat)
    requires count <= items.Length
    modifies items
    ensures items[..count] == InsertionSort(old(items[..count]))
    ensures forall k :: count <= k < items.Length ==> items[k] == old(items[k])
    ensures Sorted(items[..count]) && multiset(items[..count]) == multiset(old(items[..count]))
  {
    hide AtMost, Insert, InsertionSort;
    ghost var was := items[..];
    assert old(items[..count]) == was[..count];
    SortCorrect(was[..count]);
    var i := if count == 0 then 0 else 1;
    SortSmall(was);
    while i < count
      invariant i <= count && (count > 0 ==> i >= 1)
      invariant items[..i] == InsertionSort(was[..i])
      invariant forall k :: i <= k < items.Length ==> items[k] == was[k]
    {
      InsertAt(items, i);
      SortOneMore(was, i);
      i := i + 1;
    }
  }

  lemma SortSmall(s: seq<NewsItem>)
    ensures InsertionSort(s[..0]) == s[..0]
    ensures |s| > 0 ==> InsertionSort(s[..1]) == s[..1]
  {
    if |s| > 0 {
      SortOneMore(s, 0);
    }
  }

  /** The inner loop: element `i` swaps down to its place. */
  method InsertAt(items: array<NewsItem>, i: nat)
    requires i < items.Length
    modifies items
    ensures items[..i + 1] == Insert(old(items[..i]), old(items[i]))
    ensures forall k :: i < k < items.Length ==> items[k] == old(items[k])
  {
    hide AtMost, Insert, Placed;
    ghost var s, x := items[..i], items[i];
    var j := i;
    PlacedLast(s, x);
    while j > 0
      invariant j <= i && items[..i + 1] == Placed(s, x, j)
      invariant forall k :: i < k < items.Length ==> items[k] == old(items[k])
      invariant Insert(s, x) == Insert(s[..j], x) + s[j..]
    {
      ghost var t := items[..i + 1];
      PlacedBefore(s, x, j);
      assert items[j - 1] == t[j - 1] && items[j] == t[j];
      InsertStep(s, x, j);
      if AtMost(items[j - 1], items[j]) { return; }
      items[j - 1], items[j] := items[j], items[j - 1];
      assert items[..i + 1] == t[j - 1 := x][j := s[j - 1]];
      j := j - 1;
    }
    InsertFirst(s, x);
  }

  /** The items with `x` in front of element `j`. */
  ghost function Placed(s: seq<NewsItem>, x: NewsItem, j: nat): (t: seq<NewsItem>)
    requires j <= |s|
    ensures |t| == |s| + 1
  {
    (s[..j] + [x]) + s[j..]
  }

  lemma PlacedLast(s: seq<NewsItem>, x: NewsItem)
    ensures Placed(s, x, |s|) == s + [x] && Insert(s[..|s|], x) + s[|s|..] == Insert(s, x)
  {
    hide Insert;
    assert s[..|s|] == s && s[|s|..] == [];
  }

  lemma PlacedBefore(s: seq<NewsItem>, x: NewsItem, j: nat)
    requires 0 < j <= |s|
    ensures var t := Placed(s, x, j);
            t[j - 1] == s[j - 1] && t[j] == x && Placed(s, x, j - 1) == t[j - 1 := x][j := s[j - 1]]
  {
  }

  lemma InsertFirst(s: seq<NewsItem>, x: NewsItem)
    ensures Insert(s[..0], x) + s[0..] == Placed(s, x, 0)
  {
    assert s[..0] == [];
  }

  /** One comparison of the inner loop. */
  lemma InsertStep(s: seq<NewsItem>, x: NewsItem, j: nat)
    requires 0 < j <= |s|
    ensures AtMost(s[j - 1], x) ==> Insert(s[..j], x) + s[j..] == Placed(s, x, j)
    ensures !AtMost(s[j - 1], x) ==> Insert(s[..j], x) + s[j..] == Insert(s[..j - 1], x) + s[j - 1..]
  {
    assert s[..j][..j - 1] == s[..j - 1] && s[j - 1..] == [s[j - 1]] + s[j..];
    if !AtMost(s[j - 1], x) {
      var t := Insert(s[..j - 1], x);
      assert (t + [s[j - 1]]) + s[j..] == t + ([s[j - 1]] + s[j..]);
    }
  }

  /** Sorted items with different ids stand in strictly descending order of date, ascending of id. */
  lemma DistinctIdsSortStrictly(s: seq<NewsItem>, i: nat, j: nat)
    requires Sorted(s) && i < j < |s| && s[i].id != s[j].id
    ensures Compare(s[i].date, s[j].date) > 0 || (s[i].date == s[j].date && Compare(s[i].id, s[j].id) < 0)
  {
    CompareReverse(s[i].date, s[j].date);
    CompareReverse(s[i].id, s[j].id);
  }
}
