/**
 * The product service: pagination defaults and the list envelope, lookups
 * returned as they are, and writes passed through to the repository with
 * only `name` and `price`.
 */
module ProductService {
  import opened Wrappers
  import opened Query
  import opened Paging
  import opened Schema
  import opened Store
  import opened Errors
  import PR = ProductRepository

  /** A request body: the two fields the service reads, and whatever else the client sent. */
  datatype ProductBody = ProductBody(name: Option<string>, price: Option<int>, others: map<string, string>)

  /** The fields passed on to the repository: exactly `name` and `price`. */
  function Forwarded(b: ProductBody): (f: ProductFields)
    ensures f.name == b.name && f.price == b.price
  {
    ProductFields(b.name, b.price)
  }

  /**
   * `getAll(limit, offset)`: an omitted limit or offset takes its configured
   * default; the envelope echoes the limit and offset used, with that page
   * and the total count.
   */
  function GetAll(t: Tables, limit: Option<nat>, offset: Option<nat>): (r: Page<ProductRow>)
    ensures r.limit == limit.GetOr(DEFAULT_PAGINATION_LIMIT) && r.offset == offset.GetOr(DEFAULT_PAGINATION_OFFSET)
    ensures r.data == PR.FindAll(t, r.limit, r.offset) && r.count == PR.FindCount(t)
  {
    var l := limit.GetOr(DEFAULT_PAGINATION_LIMIT);
    var o := offset.GetOr(DEFAULT_PAGINATION_OFFSET);
    Page(PR.FindAll(t, l, o), PR.FindCount(t), l, o)
  }

  /**
   * The envelope is coherent: the page holds as many products as the count
   * allows from the offset, all stored, in ascending name order; without a
   * limit or offset it is the first 100.
   */
  lemma GetAllEnvelope(t: Tables, limit: Option<nat>, offset: Option<nat>)
    ensures var r := GetAll(t, limit, offset);
      && |r.data| == PageSize(r.count, r.limit, r.offset)
      && (forall i, j :: 0 <= i < j < |r.data| ==> StrLe(r.data[i].name, r.data[j].name))
      && (forall i :: 0 <= i < |r.data| ==> r.data[i] in t.products)
      && (limit.None? && offset.None? ==> r.limit == 100 && r.offset == 0)
  {
  }

  /**
   * Consecutive envelopes read without a write in between cover the ordered
   * table without gaps or overlaps. Each of the three queries may pick its
   * own ascending-by-name arrangement of the table; the unique name index
   * leaves it only one, so the pages agree whichever one it picks.
   */
  lemma GetAllConsecutivePages(t: Tables, first: nat, second: nat, offset: nat,
                               earlier: seq<ProductRow>, later: seq<ProductRow>, whole: seq<ProductRow>)
    requires Consistent(t)
    requires PR.IsNameOrderingOf(earlier, t) && PR.IsNameOrderingOf(later, t) && PR.IsNameOrderingOf(whole, t)
    ensures Window(earlier, first, offset) + Window(later, second, offset + first)
         == Window(whole, first + second, offset)
    ensures GetAll(t, Some(first), Some(offset)).data + GetAll(t, Some(second), Some(offset + first)).data
         == GetAll(t, Some(first + second), Some(offset)).data
  {
    var mine := PR.OrderedProducts(t);
    PR.OnlyNameOrdering(t, earlier);
    PR.OnlyNameOrdering(t, later);
    PR.OnlyNameOrdering(t, whole);
    assert earlier == mine && later == mine && whole == mine;
    ConsecutivePages(mine, first, second, offset);
    assert GetAll(t, Some(first), Some(offset)).data == Window(mine, first, offset);
    assert GetAll(t, Some(second), Some(offset + first)).data == Window(mine, second, offset + first);
    assert GetAll(t, Some(first + second), Some(offset)).data == Window(mine, first + second, offset);
  }

  /** `getById(id)`: the repository's answer as it is; an unknown id yields nothing, not an error. */
  function GetById(t: Tables, id: Id): (r: Option<ProductRow>)
    ensures r.Some? <==> id in ProductIds(t.products)
    ensures r.Some? ==> r.value in t.products && r.value.id == id
  {
    PR.FindById(t, id)
  }

  /** `create(body)`: passes `name` and `price` to the repository and returns its result; its failure is rethrown. */
  method Create(db: Database, newId: Id, body: ProductBody) returns (r: Result<Option<ProductRow>, ThrownError>)
    requires db.Valid()
    modifies db
    ensures db.Valid()
    ensures InsertProductRow(old(db.State()), newId, Forwarded(body)).Success? ==>
      r.Success? && db.State() == InsertProductRow(old(db.State()), newId, Forwarded(body)).value
      && r.value == Some(ProductRow(newId, body.name.value, body.price.value))
    ensures InsertProductRow(old(db.State()), newId, Forwarded(body)).Failure? ==>
      r == Failure(StoreFailure(InsertProductRow(old(db.State()), newId, Forwarded(body)).error))
      && db.State() == old(db.State())
  {
    var s := PR.Create(db, newId, Forwarded(body));
    match s
    case Success(v) => r := Success(v);
    case Failure(e) => r := Failure(StoreFailure(e));
  }

  /** `updateById(id, body)`: passes `name` and `price` to the repository and returns its result; its failure is rethrown. */
  method UpdateById(db: Database, id: Id, body: ProductBody) returns (r: Result<Option<ProductRow>, ThrownError>)
    requires db.Valid()
    modifies db
    ensures db.Valid()
    ensures UpdateProductRow(old(db.State()), id, Forwarded(body)).Success? ==>
      r.Success? && db.State() == UpdateProductRow(old(db.State()), id, Forwarded(body)).value
      && r.value == PR.FindById(db.State(), id)
      && (r.value.Some? <==> id in ProductIds(old(db.products)))
    ensures UpdateProductRow(old(db.State()), id, Forwarded(body)).Failure? ==>
      r == Failure(StoreFailure(UpdateProductRow(old(db.State()), id, Forwarded(body)).error))
      && db.State() == old(db.State())
  {
    var s := PR.UpdateById(db, id, Forwarded(body));
    match s
    case Success(v) => r := Success(v);
    case Failure(e) => r := Failure(StoreFailure(e));
  }

  /** `deleteById(id)`: deletes the product and its transactions, if any, and returns nothing either way. */
  method DeleteById(db: Database, id: Id)
    requires db.Valid()
    modifies db
    ensures db.Valid()
    ensures db.State() == DeleteProductRows(old(db.State()), id)
  {
    var _ := PR.DeleteById(db, id);
  }
}
