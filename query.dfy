/**
 * The parts of SQL query evaluation the repositories rely on: `WHERE key = ?`
 * with `.first()`, `DELETE ... WHERE`, primary and unique keys, and
 * `ORDER BY` over a column's comparison.
 */
module Query {
  import opened Wrappers

  /** The set of values a column takes over a table. */
  function Keys<T(==), K>(s: seq<T>, key: T -> K): set<K> {
    set x | x in s :: key(x)
  }

  /** A primary-key or unique index on the column `key`: no two rows share a value. */
  predicate UniqueKeys<T, K(==)>(s: seq<T>, key: T -> K) {
    forall i, j :: 0 <= i < j < |s| ==> key(s[i]) != key(s[j])
  }

  /** `SELECT ... WHERE key = k` followed by `.first()`: the first matching row, if any. */
  function FirstWithKey<T(==), K(==)>(s: seq<T>, key: T -> K, k: K): (r: Option<T>)
    ensures r.Some? ==> r.value in s && key(r.value) == k
    ensures r.Some? <==> k in Keys(s, key)
  {
    if s == [] then None
    else if key(s[0]) == k then Some(s[0])
    else FirstWithKey(s[1..], key, k)
  }

  /** Under a unique index, the row found for a value is the one row holding it. */
  lemma FirstWithUniqueKey<T, K>(s: seq<T>, key: T -> K, x: T)
    requires UniqueKeys(s, key) && x in s
    ensures FirstWithKey(s, key, key(x)) == Some(x)
  {
    var r := FirstWithKey(s, key, key(x));
    var i :| 0 <= i < |s| && s[i] == r.value;
    var j :| 0 <= j < |s| && s[j] == x;
    if i < j {
      assert key(s[i]) != key(s[j]);
    } else if j < i {
      assert key(s[j]) != key(s[i]);
    }
  }

  /** Appending a row adds its value to the column's values. */
  lemma AppendKeys<T, K>(s: seq<T>, key: T -> K, x: T)
    ensures Keys(s + [x], key) == Keys(s, key) + {key(x)}
  {
    forall k | k in Keys(s + [x], key)
      ensures k in Keys(s, key) + {key(x)}
    {
      var y :| y in s + [x] && key(y) == k;
      if y != x {
        assert y in s;
      }
    }
    forall k | k in Keys(s, key)
      ensures k in Keys(s + [x], key)
    {
      var y :| y in s && key(y) == k;
      assert y in s + [x];
    }
    assert x in s + [x];
  }

  /** `INSERT` of a row whose value is new keeps a unique index unique. */
  lemma AppendKeepsUniqueKeys<T, K>(s: seq<T>, key: T -> K, x: T)
    requires UniqueKeys(s, key) && key(x) !in Keys(s, key)
    ensures UniqueKeys(s + [x], key)
  {
    var r := s + [x];
    forall i, j | 0 <= i < j < |r|
      ensures key(r[i]) != key(r[j])
    {
      if j == |s| {
        assert r[i] == s[i] && s[i] in s;
      } else {
        assert r[i] == s[i] && r[j] == s[j];
      }
    }
  }

  /** `UPDATE ... WHERE key = key(row)`: every row with that key becomes `row`. */
  function ReplaceWhere<T, K(==)>(s: seq<T>, key: T -> K, row: T): (r: seq<T>)
    ensures |r| == |s|
    ensures forall i :: 0 <= i < |s| ==> r[i] == (if key(s[i]) == key(row) then row else s[i])
    ensures forall i :: 0 <= i < |s| ==> key(r[i]) == key(s[i])
  {
    seq(|s|, i requires 0 <= i < |s| => if key(s[i]) == key(row) then row else s[i])
  }

  /** An update in place of the key's own rows leaves the key column as it was. */
  lemma ReplaceKeepsKeys<T, K>(s: seq<T>, key: T -> K, row: T)
    ensures Keys(ReplaceWhere(s, key, row), key) == Keys(s, key)
    ensures UniqueKeys(s, key) ==> UniqueKeys(ReplaceWhere(s, key, row), key)
  {
    var r := ReplaceWhere(s, key, row);
    forall k | k in Keys(r, key)
      ensures k in Keys(s, key)
    {
      var y :| y in r && key(y) == k;
      var i :| 0 <= i < |r| && r[i] == y;
      assert s[i] in s;
    }
    forall k | k in Keys(s, key)
      ensures k in Keys(r, key)
    {
      var y :| y in s && key(y) == k;
      var i :| 0 <= i < |s| && s[i] == y;
      assert r[i] in r;
    }
  }

  /** The rows a `DELETE ... WHERE` leaves: those for which `keep` holds, in their order. */
  function Where<T(!new)>(s: seq<T>, keep: T -> bool): (r: seq<T>)
    ensures forall x :: x in r <==> x in s && keep(x)
    ensures |r| <= |s|
    ensures |r| < |s| <==> exists x :: x in s && !keep(x)
  {
    if s == [] then []
    else
      assert s == [s[0]] + s[1..];
      if keep(s[0]) then [s[0]] + Where(s[1..], keep)
      else Where(s[1..], keep)
  }

  /** A row whose key no other row has can be put in front of a uniquely keyed sequence. */
  lemma ConsKeepsUniqueKeys<T, K>(h: T, s: seq<T>, key: T -> K)
    requires UniqueKeys(s, key)
    requires forall y :: y in s ==> key(y) != key(h)
    ensures UniqueKeys([h] + s, key)
  {
    var r := [h] + s;
    forall i, j | 0 <= i < j < |r|
      ensures key(r[i]) != key(r[j])
    {
      assert r[j] == s[j - 1] && r[j] in s;
      if i > 0 {
        assert r[i] == s[i - 1];
      }
    }
  }

  /** Removing rows never creates a duplicate in a unique index. */
  lemma {:induction false} WhereKeepsUniqueKeys<T(!new), K>(s: seq<T>, keep: T -> bool, key: T -> K)
    requires UniqueKeys(s, key)
    ensures UniqueKeys(Where(s, keep), key)
  {
    if s != [] {
      assert s == [s[0]] + s[1..];
      WhereKeepsUniqueKeys(s[1..], keep, key);
      var rest := Where(s[1..], keep);
      if keep(s[0]) {
        forall y | y in rest
          ensures key(y) != key(s[0])
        {
          var k :| 0 <= k < |s[1..]| && s[1..][k] == y;
          assert s[k + 1] == y;
        }
        ConsKeepsUniqueKeys(s[0], rest, key);
      }
    }
  }

  /** A comparison `ORDER BY` can use: total and transitive. */
  ghost predicate TotalPreorder<T(!new)>(le: (T, T) -> bool) {
    && (forall a, b :: le(a, b) || le(b, a))
    && (forall a, b, c :: le(a, b) && le(b, c) ==> le(a, c))
  }

  predicate Sorted<T>(s: seq<T>, le: (T, T) -> bool) {
    forall i, j :: 0 <= i < j < |s| ==> le(s[i], s[j])
  }

  /** Dropping the first element keeps a sequence sorted. */
  lemma TailKeepsOrder<T>(s: seq<T>, le: (T, T) -> bool)
    requires s != [] && Sorted(s, le)
    ensures Sorted(s[1..], le)
  {
    forall i, j | 0 <= i < j < |s[1..]|
      ensures le(s[1..][i], s[1..][j])
    {
      assert s[1..][i] == s[i + 1] && s[1..][j] == s[j + 1];
    }
  }

  /** Two rearrangements of the same elements with the same first element agree after it too. */
  lemma TailsArePermutations<T>(a: seq<T>, b: seq<T>)
    requires a != [] && b != [] && a[0] == b[0]
    requires multiset(a) == multiset(b)
    ensures multiset(a[1..]) == multiset(b[1..])
  {
    assert a == [a[0]] + a[1..] && b == [b[0]] + b[1..];
    assert multiset(a) == multiset{a[0]} + multiset(a[1..]);
    assert multiset(b) == multiset{b[0]} + multiset(b[1..]);
    assert multiset(a[1..]) == multiset(a) - multiset{a[0]} == multiset(b) - multiset{b[0]} == multiset(b[1..]);
  }

  /** Places `x` before the first element it does not come after. */
  function InsertSorted<T>(x: T, s: seq<T>, le: (T, T) -> bool): (r: seq<T>)
    ensures multiset(r) == multiset(s) + multiset{x}
  {
    if s == [] || le(x, s[0]) then [x] + s
    else
      assert s == [s[0]] + s[1..];
      [s[0]] + InsertSorted(x, s[1..], le)
  }

  /**
   * `ORDER BY`: the rows in ascending order of `le`. Rows that compare equal
   * keep their order in the table, one of the orders SQL allows.
   */
  function SortBy<T>(s: seq<T>, le: (T, T) -> bool): (r: seq<T>)
    ensures multiset(r) == multiset(s)
    ensures |r| == |s|
  {
    if s == [] then []
    else
      assert s == [s[0]] + s[1..];
      InsertSorted(s[0], SortBy(s[1..], le), le)
  }

  /** An element that comes before every element of a sorted sequence can be put in front of it. */
  lemma ConsKeepsOrder<T>(h: T, s: seq<T>, le: (T, T) -> bool)
    requires Sorted(s, le)
    requires forall y :: y in s ==> le(h, y)
    ensures Sorted([h] + s, le)
  {
    var r := [h] + s;
    forall i, j | 0 <= i < j < |r|
      ensures le(r[i], r[j])
    {
      assert r[j] == s[j - 1] && r[j] in s;
      if i > 0 {
        assert r[i] == s[i - 1];
      }
    }
  }

  lemma {:induction false} InsertSortedKeepsOrder<T(!new)>(x: T, s: seq<T>, le: (T, T) -> bool)
    requires TotalPreorder(le) && Sorted(s, le)
    ensures Sorted(InsertSorted(x, s, le), le)
  {
    if s == [] || le(x, s[0]) {
      forall y | y in s
        ensures le(x, y)
      {
        var k :| 0 <= k < |s| && s[k] == y;
        if k > 0 {
          assert le(s[0], s[k]);
        }
      }
      ConsKeepsOrder(x, s, le);
    } else {
      assert s == [s[0]] + s[1..];
      InsertSortedKeepsOrder(x, s[1..], le);
      var tail := InsertSorted(x, s[1..], le);
      forall y | y in tail
        ensures le(s[0], y)
      {
        assert y in multiset(tail);
        if y != x {
          assert y in multiset(s[1..]);
          var k :| 0 <= k < |s[1..]| && s[1..][k] == y;
          assert s[k + 1] == y;
        }
      }
      ConsKeepsOrder(s[0], tail, le);
    }
  }

  /** `ORDER BY` yields an ascending permutation of the rows. */
  lemma {:induction false} SortBySorts<T(!new)>(s: seq<T>, le: (T, T) -> bool)
    requires TotalPreorder(le)
    ensures Sorted(SortBy(s, le), le)
    ensures multiset(SortBy(s, le)) == multiset(s)
  {
    if s != [] {
      SortBySorts(s[1..], le);
      InsertSortedKeepsOrder(s[0], SortBy(s[1..], le), le);
    }
  }

  /** Ordinal, character-by-character comparison of strings. */
  predicate StrLe(a: string, b: string) {
    if a == [] then true
    else if b == [] then false
    else if a[0] != b[0] then a[0] < b[0]
    else StrLe(a[1..], b[1..])
  }

  lemma {:induction false} StrLeTotal(a: string, b: string)
    ensures StrLe(a, b) || StrLe(b, a)
  {
    if a != [] && b != [] && a[0] == b[0] {
      StrLeTotal(a[1..], b[1..]);
    }
  }

  lemma {:induction false} StrLeTransitive(a: string, b: string, c: string)
    requires StrLe(a, b) && StrLe(b, c)
    ensures StrLe(a, c)
  {
    if a != [] && b != [] && c != [] && a[0] == b[0] && b[0] == c[0] {
      StrLeTransitive(a[1..], b[1..], c[1..]);
    }
  }

  lemma {:induction false} StrLeAntisymmetric(a: string, b: string)
    requires StrLe(a, b) && StrLe(b, a)
    ensures a == b
  {
    if a != [] && b != [] {
      StrLeAntisymmetric(a[1..], b[1..]);
      assert a == [a[0]] + a[1..] && b == [b[0]] + b[1..];
    }
  }
}
