/**
 * The product repository: products listed by name one page at a time,
 * looked up by id or by name, counted, and written through the store.
 */
module ProductRepository {
  import opened Wrappers
  import opened Query
  import opened Paging
  import opened Schema
  import opened Store

  /** `ORDER BY name ASC`, in ordinal character order. */
  predicate ByName(a: ProductRow, b: ProductRow) {
    StrLe(a.name, b.name)
  }

  lemma ByNameIsTotalPreorder()
    ensures TotalPreorder(ByName)
  {
    forall a: ProductRow, b: ProductRow
      ensures ByName(a, b) || ByName(b, a)
    {
      StrLeTotal(a.name, b.name);
    }
    forall a: ProductRow, b: ProductRow, c: ProductRow | ByName(a, b) && ByName(b, c)
      ensures ByName(a, c)
    {
      StrLeTransitive(a.name, b.name, c.name);
    }
  }

  /** The product table in ascending name order. */
  function OrderedProducts(t: Tables): (r: seq<ProductRow>)
    ensures Sorted(r, ByName)
    ensures multiset(r) == multiset(t.products)
    ensures forall p :: p in r <==> p in t.products
  {
    ByNameIsTotalPreorder();
    SortBySorts(t.products, ByName);
    var r := SortBy(t.products, ByName);
    assert forall p :: p in r <==> p in multiset(t.products);
    r
  }

  /** `findAll({limit, offset})`: one page of the products in ascending name order. */
  function FindAll(t: Tables, limit: nat, offset: nat): (r: seq<ProductRow>)
    ensures |r| == PageSize(|t.products|, limit, offset) && |r| <= limit
    ensures forall i, j :: 0 <= i < j < |r| ==> StrLe(r[i].name, r[j].name)
    ensures forall i :: 0 <= i < |r| ==> r[i] in t.products
  {
    var ordered := OrderedProducts(t);
    WindowKeepsOrder(ordered, ByName, limit, offset);
    var r := Window(ordered, limit, offset);
    assert forall i :: 0 <= i < |r| ==> r[i] in ordered;
    r
  }

  /** The first rows of two ascending rearrangements of the same uniquely named rows are the same row. */
  lemma SortedHeadsAgree(a: seq<ProductRow>, b: seq<ProductRow>)
    requires Sorted(a, ByName) && Sorted(b, ByName)
    requires multiset(a) == multiset(b)
    requires UniqueKeys(a, ProductNameKey)
    requires a != []
    ensures b != [] && a[0] == b[0]
  {
    assert |b| == |multiset(b)| == |multiset(a)| == |a|;
    assert a[0] in multiset(b) && b[0] in multiset(a);
    var i :| 0 <= i < |a| && a[i] == b[0];
    var k :| 0 <= k < |b| && b[k] == a[0];
    StrLeTotal(a[0].name, a[0].name);
    assert StrLe(a[0].name, b[0].name) by {
      if i > 0 { assert ByName(a[0], a[i]); }
    }
    assert StrLe(b[0].name, a[0].name) by {
      if k > 0 { assert ByName(b[0], b[k]); }
    }
    StrLeAntisymmetric(a[0].name, b[0].name);
    assert ProductNameKey(a[0]) != ProductNameKey(a[i]) || i == 0;
    assert a[0] == b[0];
  }

  /** Dropping the first row keeps a table sorted and its names unique. */
  lemma TailKeepsOrderAndNames(a: seq<ProductRow>)
    requires a != [] && Sorted(a, ByName) && UniqueKeys(a, ProductNameKey)
    ensures Sorted(a[1..], ByName) && UniqueKeys(a[1..], ProductNameKey)
  {
    forall i, j | 0 <= i < j < |a[1..]|
      ensures ByName(a[1..][i], a[1..][j]) && ProductNameKey(a[1..][i]) != ProductNameKey(a[1..][j])
    {
      assert a[1..][i] == a[i + 1] && a[1..][j] == a[j + 1];
    }
  }

  /**
   * Under the unique index on the name there is only one ascending order of
   * the products: any two sorted rearrangements of the same rows are equal.
   */
  lemma {:induction false} SortedByUniqueNameIsUnique(a: seq<ProductRow>, b: seq<ProductRow>)
    requires Sorted(a, ByName) && Sorted(b, ByName)
    requires multiset(a) == multiset(b)
    requires UniqueKeys(a, ProductNameKey)
    ensures a == b
  {
    if a == [] {
      assert |b| == |multiset(b)| == 0;
    } else {
      SortedHeadsAgree(a, b);
      TailKeepsOrderAndNames(a);
      forall i, j | 0 <= i < j < |b[1..]|
        ensures ByName(b[1..][i], b[1..][j])
      {
        assert b[1..][i] == b[i + 1] && b[1..][j] == b[j + 1];
      }
      assert a == [a[0]] + a[1..] && b == [b[0]] + b[1..];
      assert multiset(a) == multiset{a[0]} + multiset(a[1..]);
      assert multiset(b) == multiset{b[0]} + multiset(b[1..]);
      assert multiset(a[1..]) == multiset(a) - multiset{a[0]} == multiset(b) - multiset{b[0]} == multiset(b[1..]);
      SortedByUniqueNameIsUnique(a[1..], b[1..]);
    }
  }

  /**
   * `findAll` is exactly the SQL page: with unique names the order is
   * fully determined, so every ascending ordering of the table yields the
   * same page.
   */
  lemma FindAllIsPageOfOrderedTable(t: Tables, ordered: seq<ProductRow>, limit: nat, offset: nat)
    requires Consistent(t)
    requires Sorted(ordered, ByName) && multiset(ordered) == multiset(t.products)
    ensures FindAll(t, limit, offset) == Window(ordered, limit, offset)
  {
    OnlyNameOrdering(t, ordered);
  }

  /** `o` is an order `ORDER BY name ASC` may return for the product table: ascending by name, and the same rows. */
  predicate IsNameOrderingOf(o: seq<ProductRow>, t: Tables) {
    Sorted(o, ByName) && multiset(o) == multiset(t.products)
  }

  /** Under the unique name index the table has exactly one ascending-by-name ordering. */
  lemma OnlyNameOrdering(t: Tables, o: seq<ProductRow>)
    requires Consistent(t)
    requires IsNameOrderingOf(o, t)
    ensures o == OrderedProducts(t)
  {
    var mine := OrderedProducts(t);
    forall i, j | 0 <= i < j < |mine|
      ensures ProductNameKey(mine[i]) != ProductNameKey(mine[j])
    {
      NoTwoRowsShareAName(t, mine, i, j);
    }
    SortedByUniqueNameIsUnique(mine, o);
  }

  /** Distinct positions of a rearrangement of a uniquely named table hold distinct names. */
  lemma NoTwoRowsShareAName(t: Tables, s: seq<ProductRow>, i: nat, j: nat)
    requires Consistent(t) && multiset(s) == multiset(t.products)
    requires i < j < |s|
    ensures s[i].name != s[j].name
  {
    var ps := t.products;
    assert s[i] in multiset(ps) && s[j] in multiset(ps);
    var a :| 0 <= a < |ps| && ps[a] == s[i];
    var b :| 0 <= b < |ps| && ps[b] == s[j];
    UniqueRowOccursOnce(ps, a);
    assert s == s[..j] + s[j..];
    assert s[..j][i] == s[i] && s[j..][0] == s[j];
    assert multiset(s) == multiset(s[..j]) + multiset(s[j..]);
    assert s[i] != s[j];
    if a < b {
      assert ProductNameKey(ps[a]) != ProductNameKey(ps[b]);
    } else {
      assert ProductNameKey(ps[b]) != ProductNameKey(ps[a]);
    }
  }

  /** A row of a table with a unique name index occurs in it exactly once. */
  lemma {:induction false} UniqueRowOccursOnce(ps: seq<ProductRow>, a: nat)
    requires UniqueKeys(ps, ProductNameKey) && a < |ps|
    ensures multiset(ps)[ps[a]] == 1
  {
    assert ps == [ps[0]] + ps[1..];
    if a == 0 {
      forall k | 0 <= k < |ps[1..]|
        ensures ps[1..][k] != ps[0]
      {
        assert ProductNameKey(ps[0]) != ProductNameKey(ps[k + 1]);
      }
      assert ps[0] !in ps[1..];
    } else {
      assert ProductNameKey(ps[0]) != ProductNameKey(ps[a]);
      assert UniqueKeys(ps[1..], ProductNameKey) by {
        forall i, j | 0 <= i < j < |ps[1..]|
          ensures ProductNameKey(ps[1..][i]) != ProductNameKey(ps[1..][j])
        {
          assert ps[1..][i] == ps[i + 1] && ps[1..][j] == ps[j + 1];
        }
      }
      UniqueRowOccursOnce(ps[1..], a - 1);
    }
  }

  /** `findByName(name)`: the product with exactly that name, or nothing. */
  function FindByName(t: Tables, name: string): (r: Option<ProductRow>)
    ensures r.Some? <==> name in ProductNames(t.products)
    ensures r.Some? ==> r.value in t.products && r.value.name == name
  {
    ProductByName(t.products, name)
  }

  /** `findById(id)`: the product with that id, or nothing; a miss is not a failure. */
  function FindById(t: Tables, id: Id): (r: Option<ProductRow>)
    ensures r.Some? <==> id in ProductIds(t.products)
    ensures r.Some? ==> r.value in t.products && r.value.id == id
  {
    ProductById(t.products, id)
  }

  /** In a consistent store each stored product is what both lookups return for its id and its name. */
  lemma FindStored(t: Tables, p: ProductRow)
    requires Consistent(t) && p in t.products
    ensures FindById(t, p.id) == Some(p)
    ensures FindByName(t, p.name) == Some(p)
  {
    FirstWithUniqueKey(t.products, ProductKey, p);
    FirstWithUniqueKey(t.products, ProductNameKey, p);
  }

  /** `findCount()`: the number of products. */
  function FindCount(t: Tables): nat {
    |t.products|
  }

  /** The count ignores pagination: a page as large as the count, from offset 0, is every product in name order. */
  lemma FindCountCoversAll(t: Tables)
    ensures FindAll(t, FindCount(t), 0) == OrderedProducts(t)
    ensures multiset(FindAll(t, FindCount(t), 0)) == multiset(t.products)
  {
    WholeWindow(OrderedProducts(t));
  }

  /**
   * `create`: inserts a row under the fresh id `newId` and reads it back.
   * A store failure (a missing column, a name already taken) is rethrown
   * and changes nothing.
   */
  method Create(db: Database, newId: Id, f: ProductFields) returns (r: Result<Option<ProductRow>, StoreError>)
    requires db.Valid()
    modifies db
    ensures db.Valid()
    ensures Applied(InsertProductRow(old(db.State()), newId, f), r, old(db.State()), db.State())
    ensures r.Success? ==> r.value == FindById(db.State(), newId)
    ensures r.Success? ==> r.value == Some(ProductRow(newId, f.name.value, f.price.value))
  {
    var s := db.InsertProduct(newId, f);
    if s.Failure? {
      return Failure(s.error);
    }
    FindStored(db.State(), ProductRow(newId, f.name.value, f.price.value));
    r := Success(FindById(db.State(), newId));
  }

  /**
   * `updateById`: writes the given fields over the product with that id and
   * reads it back; nothing is found when no product has that id.
   */
  method UpdateById(db: Database, id: Id, f: ProductFields) returns (r: Result<Option<ProductRow>, StoreError>)
    requires db.Valid()
    modifies db
    ensures db.Valid()
    ensures Applied(UpdateProductRow(old(db.State()), id, f), r, old(db.State()), db.State())
    ensures r.Success? ==> r.value == FindById(db.State(), id)
    ensures r.Success? ==> (r.value.Some? <==> id in ProductIds(old(db.products)))
    ensures r.Success? && r.value.Some? ==>
      var current := ProductById(old(db.products), id).value;
      r.value.value == ProductRow(id, f.name.GetOr(current.name), f.price.GetOr(current.price))
  {
    ghost var before := db.State();
    var s := db.UpdateProduct(id, f);
    if s.Failure? {
      return Failure(s.error);
    }
    if id in ProductIds(before.products) {
      var current := ProductById(before.products, id).value;
      var row := ProductRow(id, f.name.GetOr(current.name), f.price.GetOr(current.price));
      var k :| 0 <= k < |before.products| && before.products[k].id == id;
      assert db.products[k] == row;
      FindStored(db.State(), row);
    }
    r := Success(FindById(db.State(), id));
  }

  /**
   * `deleteById`: removes the product with that id, and with it the
   * transactions that reference it, and says whether there was one.
   */
  method DeleteById(db: Database, id: Id) returns (deleted: bool)
    requires db.Valid()
    modifies db
    ensures db.Valid()
    ensures db.State() == DeleteProductRows(old(db.State()), id)
    ensures deleted <==> id in ProductIds(old(db.products))
    ensures id !in ProductIds(db.products)
  {
    var affected := db.DeleteProduct(id);
    deleted := affected > 0;
  }
}
