/**
 * The dashboard's `[...result].sort((a, b) => key(b) - key(a))`: a stable
 * sort into descending key order. Modelled as insertion sort; the lemma
 * `StableSortIsUnique` shows that every stable sort gives the same list,
 * so the choice of algorithm does not matter.
 */
module ArticleSort {
  import opened Articles
  import opened Dates

  datatype SortOrder = ByViews | ByLikes | ByDate

  /** The number each ordering compares: views, likes, or the date's key. */
  function KeyOf(order: SortOrder): Article -> int
  {
    match order
    case ByViews => (a: Article) => a.views
    case ByLikes => (a: Article) => a.likes
    case ByDate => (a: Article) => DateKey(a.date)
  }

  /** Keys never increase from the front of the list to the back. */
  ghost predicate SortedDesc(key: Article -> int, s: seq<Article>)
  {
    forall i, j :: 0 <= i < j < |s| ==> key(s[i]) >= key(s[j])
  }

  /** The articles of `s` whose key is `k`, in their order in `s`. */
  function WithKey(key: Article -> int, s: seq<Article>, k: int): seq<Article>
  {
    if |s| == 0 then []
    else (if key(s[0]) == k then [s[0]] else []) + WithKey(key, s[1..], k)
  }

  /** The sort keeps ties in their original relative order. */
  ghost predicate StableFor(key: Article -> int, r: seq<Article>, s: seq<Article>)
  {
    forall k :: WithKey(key, r, k) == WithKey(key, s, k)
  }

  /** Places `x` before the first element whose key is not greater than its own. */
  function Insert(key: Article -> int, x: Article, s: seq<Article>): seq<Article>
  {
    if |s| == 0 then [x]
    else if key(s[0]) <= key(x) then [x] + s
    else [s[0]] + Insert(key, x, s[1..])
  }

  lemma {:induction false} InsertPermutes(key: Article -> int, x: Article, s: seq<Article>)
    ensures multiset(Insert(key, x, s)) == multiset(s) + multiset{x}
    decreases |s|
  {
    if |s| > 0 && key(s[0]) > key(x) {
      InsertPermutes(key, x, s[1..]);
      assert s == [s[0]] + s[1..];
    }
  }

  /** Inserting below a bound every element respects keeps every element below it. */
  lemma {:induction false} InsertStaysBelow(key: Article -> int, x: Article, s: seq<Article>, bound: int)
    requires key(x) <= bound
    requires forall j :: 0 <= j < |s| ==> key(s[j]) <= bound
    ensures forall y :: y in Insert(key, x, s) ==> key(y) <= bound
    decreases |s|
  {
    if |s| > 0 && key(s[0]) > key(x) {
      InsertStaysBelow(key, x, s[1..], bound);
      var t := Insert(key, x, s[1..]);
      var r := [s[0]] + t;
      assert Insert(key, x, s) == r;
      assert key(s[0]) <= bound;
    }
  }

  /** A sorted list stays sorted behind a head whose key is at least every key in it. */
  lemma SortedCons(key: Article -> int, h: Article, t: seq<Article>)
    requires SortedDesc(key, t)
    requires forall y :: y in t ==> key(y) <= key(h)
    ensures SortedDesc(key, [h] + t)
  {
    var r := [h] + t;
    forall i, j | 0 <= i < j < |r|
      ensures key(r[i]) >= key(r[j])
    {
      assert r[j] == t[j - 1] && r[j] in t;
      if i > 0 {
        assert r[i] == t[i - 1];
      }
    }
  }

  lemma {:induction false} InsertKeepsSorted(key: Article -> int, x: Article, s: seq<Article>)
    requires SortedDesc(key, s)
    ensures SortedDesc(key, Insert(key, x, s))
    decreases |s|
  {
    if |s| == 0 {
    } else if key(s[0]) <= key(x) {
      forall y | y in s
        ensures key(y) <= key(x)
      {
        var j :| 0 <= j < |s| && s[j] == y;
      }
      SortedCons(key, x, s);
    } else {
      var t := Insert(key, x, s[1..]);
      InsertKeepsSorted(key, x, s[1..]);
      InsertStaysBelow(key, x, s[1..], key(s[0]));
      SortedCons(key, s[0], t);
    }
  }

  lemma WithKeyCons(key: Article -> int, h: Article, t: seq<Article>, k: int)
    ensures WithKey(key, [h] + t, k) == Tie(key, h, k) + WithKey(key, t, k)
  {
    assert ([h] + t)[0] == h && ([h] + t)[1..] == t;
  }

  /** Inserting `x` adds it in front of the elements that share its key. */
  lemma {:induction false} InsertKeepsTies(key: Article -> int, x: Article, s: seq<Article>, k: int)
    ensures WithKey(key, Insert(key, x, s), k) == Tie(key, x, k) + WithKey(key, s, k)
    decreases |s|
  {
    if |s| == 0 || key(s[0]) <= key(x) {
      WithKeyCons(key, x, s, k);
    } else {
      InsertKeepsTies(key, x, s[1..], k);
      TieBehindHead(key, s[0], x, Insert(key, x, s[1..]), s[1..], k);
      assert s == [s[0]] + s[1..];
    }
  }

  /** A head whose key is above `x`'s keeps its tie in front of `x`'s: the two keys differ. */
  lemma TieBehindHead(key: Article -> int, h: Article, x: Article, t: seq<Article>, rest: seq<Article>, k: int)
    requires key(h) > key(x)
    requires WithKey(key, t, k) == Tie(key, x, k) + WithKey(key, rest, k)
    ensures WithKey(key, [h] + t, k) == Tie(key, x, k) + WithKey(key, [h] + rest, k)
  {
    WithKeyCons(key, h, t, k);
    WithKeyCons(key, h, rest, k);
    if key(h) != k {
      assert WithKey(key, [h] + t, k) == WithKey(key, t, k);
      assert WithKey(key, [h] + rest, k) == WithKey(key, rest, k);
    } else {
      assert Tie(key, x, k) == [];
      assert WithKey(key, t, k) == WithKey(key, rest, k);
    }
  }

  /** Stable descending sort: a sorted permutation that keeps ties in order. */
  function Sort(key: Article -> int, s: seq<Article>): (r: seq<Article>)
    ensures multiset(r) == multiset(s)
    ensures SortedDesc(key, r)
    ensures StableFor(key, r, s)
  {
    if |s| == 0 then []
    else
      var t := Sort(key, s[1..]);
      InsertHead(key, s, t);
      Insert(key, s[0], t)
  }

  /** Inserting the head of `s` into a stable sort of its tail gives a stable sort of `s`. */
  lemma InsertHead(key: Article -> int, s: seq<Article>, t: seq<Article>)
    requires |s| > 0
    requires multiset(t) == multiset(s[1..]) && SortedDesc(key, t) && StableFor(key, t, s[1..])
    ensures multiset(Insert(key, s[0], t)) == multiset(s)
    ensures SortedDesc(key, Insert(key, s[0], t))
    ensures StableFor(key, Insert(key, s[0], t), s)
  {
    InsertPermutes(key, s[0], t);
    InsertKeepsSorted(key, s[0], t);
    assert s == [s[0]] + s[1..];
    forall k
      ensures WithKey(key, Insert(key, s[0], t), k) == WithKey(key, s, k)
    {
      InsertKeepsTies(key, s[0], t, k);
      WithKeyCons(key, s[0], s[1..], k);
    }
  }

  /** Picking out the ties of a concatenation picks them out of each part. */
  lemma {:induction false} WithKeyAppend(key: Article -> int, a: seq<Article>, b: seq<Article>, k: int)
    ensures WithKey(key, a + b, k) == WithKey(key, a, k) + WithKey(key, b, k)
    decreases |a|
  {
    if |a| == 0 {
      assert a + b == b;
    } else {
      var head := if key(a[0]) == k then [a[0]] else [];
      WithKeyAppend(key, a[1..], b, k);
      assert (a + b)[0] == a[0] && (a + b)[1..] == a[1..] + b;
      assert WithKey(key, a + b, k) == head + WithKey(key, a[1..] + b, k);
      assert WithKey(key, a, k) == head + WithKey(key, a[1..], k);
    }
  }

  /** Two articles with different keys can trade places without disturbing any ties. */
  lemma SwapDistinctKeys(key: Article -> int, x: Article, y: Article, k: int)
    requires key(x) != key(y)
    ensures WithKey(key, [x, y], k) == WithKey(key, [y, x], k)
  {
    var hx := if key(x) == k then [x] else [];
    var hy := if key(y) == k then [y] else [];
    assert [x, y][1..] == [y] && [y, x][1..] == [x];
    assert [y][1..] == [] && [x][1..] == [];
    assert WithKey(key, [x], k) == hx;
    assert WithKey(key, [y], k) == hy;
    assert WithKey(key, [x, y], k) == hx + hy;
    assert WithKey(key, [y, x], k) == hy + hx;
    assert hx == [] || hy == [];
  }

  lemma WithKeyMembers(key: Article -> int, s: seq<Article>, k: int, x: Article)
    requires x in WithKey(key, s, k)
    ensures x in s && key(x) == k
  {
  }

  /** If a sorted list has an element with key `k`, its head's key is at least `k`. */
  lemma HeadKeyIsLargest(key: Article -> int, s: seq<Article>, k: int)
    requires SortedDesc(key, s)
    requires |WithKey(key, s, k)| > 0
    ensures |s| > 0 && key(s[0]) >= k
  {
    var x := WithKey(key, s, k)[0];
    WithKeyMembers(key, s, k, x);
    var j :| 0 <= j < |s| && s[j] == x;
  }

  lemma NoTiesMeansEmpty(key: Article -> int, s: seq<Article>)
    requires forall k :: WithKey(key, s, k) == []
    ensures s == []
  {
    if |s| > 0 {
      var k := key(s[0]);
      assert WithKey(key, s, k) == [s[0]] + WithKey(key, s[1..], k);
    }
  }

  /** Sorted lists with the same ties start with the same element. */
  lemma SameHead(key: Article -> int, r1: seq<Article>, r2: seq<Article>)
    requires SortedDesc(key, r1) && SortedDesc(key, r2)
    requires forall k :: WithKey(key, r1, k) == WithKey(key, r2, k)
    requires |r1| > 0
    ensures |r2| > 0 && r1[0] == r2[0]
  {
    var k1 := key(r1[0]);
    assert WithKey(key, r1, k1)[0] == r1[0];
    HeadKeyIsLargest(key, r2, k1);
    var k2 := key(r2[0]);
    assert WithKey(key, r2, k2)[0] == r2[0];
    HeadKeyIsLargest(key, r1, k2);
    assert WithKey(key, r1, k1) == WithKey(key, r2, k1);
  }

  /** Removing the same head from both lists keeps their ties equal. */
  lemma SameTies(key: Article -> int, r1: seq<Article>, r2: seq<Article>, k: int)
    requires |r1| > 0 && |r2| > 0 && r1[0] == r2[0]
    requires WithKey(key, r1, k) == WithKey(key, r2, k)
    ensures WithKey(key, r1[1..], k) == WithKey(key, r2[1..], k)
  {
    var head := if key(r1[0]) == k then [r1[0]] else [];
    assert WithKey(key, r1, k) == head + WithKey(key, r1[1..], k);
    assert WithKey(key, r2, k) == head + WithKey(key, r2[1..], k);
    assert WithKey(key, r1[1..], k) == WithKey(key, r1, k)[|head|..];
    assert WithKey(key, r2[1..], k) == WithKey(key, r2, k)[|head|..];
  }

  /** The tail of a descending list is descending. */
  lemma SortedTail(key: Article -> int, s: seq<Article>)
    requires SortedDesc(key, s) && |s| > 0
    ensures SortedDesc(key, s[1..])
  {
    forall i, j | 0 <= i < j < |s| - 1
      ensures key(s[1..][i]) >= key(s[1..][j])
    {
      assert s[1..][i] == s[i + 1] && s[1..][j] == s[j + 1];
    }
  }

  /** Lists with the same head and the same ties have tails with the same ties. */
  lemma SameTiesInTails(key: Article -> int, r1: seq<Article>, r2: seq<Article>)
    requires |r1| > 0 && |r2| > 0 && r1[0] == r2[0]
    requires forall k :: WithKey(key, r1, k) == WithKey(key, r2, k)
    ensures forall k :: WithKey(key, r1[1..], k) == WithKey(key, r2[1..], k)
  {
    forall k
      ensures WithKey(key, r1[1..], k) == WithKey(key, r2[1..], k)
    {
      SameTies(key, r1, r2, k);
    }
  }

  /**
   * Two lists sorted by descending key with the same ties in the same order
   * are equal: the sorted, stable arrangement of a list is unique.
   */
  lemma {:induction false} StableSortIsUnique(key: Article -> int, r1: seq<Article>, r2: seq<Article>)
    requires SortedDesc(key, r1) && SortedDesc(key, r2)
    requires forall k :: WithKey(key, r1, k) == WithKey(key, r2, k)
    ensures r1 == r2
    decreases |r1|
  {
    if |r1| == 0 {
      NoTiesMeansEmpty(key, r2);
    } else {
      SameHead(key, r1, r2);
      SameTiesInTails(key, r1, r2);
      SortedTail(key, r1);
      SortedTail(key, r2);
      StableSortIsUnique(key, r1[1..], r2[1..]);
      assert r1 == [r1[0]] + r1[1..];
      assert r2 == [r2[0]] + r2[1..];
    }
  }

  /** The one-element contribution of `x` to the ties with key `k`. */
  function Tie(key: Article -> int, x: Article, k: int): seq<Article>
  {
    if key(x) == k then [x] else []
  }

  /** The ties of a three-element list, element by element. */
  lemma WithKeyOfThree(key: Article -> int, x: Article, y: Article, z: Article, k: int)
    ensures WithKey(key, [x, y, z], k) == Tie(key, x, k) + Tie(key, y, k) + Tie(key, z, k)
  {
    assert [x, y, z] == [x] + [y] + [z];
    WithKeyAppend(key, [x], [y], k);
    WithKeyAppend(key, [x] + [y], [z], k);
    assert [x][1..] == [] && [y][1..] == [] && [z][1..] == [];
    assert WithKey(key, [x], k) == Tie(key, x, k);
    assert WithKey(key, [y], k) == Tie(key, y, k);
    assert WithKey(key, [z], k) == Tie(key, z, k);
  }

  /** Any arrangement of three articles with distinct keys has the ties of any other. */
  lemma ThreeDistinctKeysTies(key: Article -> int, x: Article, y: Article, z: Article, s: seq<Article>, k: int)
    requires key(x) != key(y) && key(y) != key(z) && key(x) != key(z)
    requires s in {[x, y, z], [x, z, y], [y, x, z], [y, z, x], [z, x, y], [z, y, x]}
    ensures WithKey(key, s, k) == WithKey(key, [x, y, z], k)
  {
    WithKeyOfThree(key, x, y, z, k);
    if s == [x, z, y] {
      WithKeyOfThree(key, x, z, y, k);
    } else if s == [y, x, z] {
      WithKeyOfThree(key, y, x, z, k);
    } else if s == [y, z, x] {
      WithKeyOfThree(key, y, z, x, k);
    } else if s == [z, x, y] {
      WithKeyOfThree(key, z, x, y, k);
    } else if s == [z, y, x] {
      WithKeyOfThree(key, z, y, x, k);
    }
  }

  /** Any stable descending sort of `s` (the engine's included) returns `Sort(key, s)`. */
  lemma AnyStableSortAgrees(key: Article -> int, s: seq<Article>, r: seq<Article>)
    requires SortedDesc(key, r) && StableFor(key, r, s)
    ensures r == Sort(key, s)
  {
    var t := Sort(key, s);
    forall k
      ensures WithKey(key, r, k) == WithKey(key, t, k)
    {
      assert WithKey(key, r, k) == WithKey(key, s, k);
    }
    StableSortIsUnique(key, r, t);
  }

  /** Sorting a list that is already in order leaves it unchanged. */
  lemma SortOfSorted(key: Article -> int, s: seq<Article>)
    requires SortedDesc(key, s)
    ensures Sort(key, s) == s
  {
    AnyStableSortAgrees(key, s, s);
  }
}
