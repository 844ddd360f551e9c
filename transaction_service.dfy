/**
 * The transaction service: pagination defaults and the list envelope, an
 * absent transaction turned into a thrown error, and writes passed through
 * to the repository with only the four transaction fields.
 */
module TransactionService {
  import opened Wrappers
  import opened Paging
  import opened Schema
  import opened Store
  import opened Errors
  import TR = TransactionRepository

  /** A request body: the four fields the service reads, and whatever else the client sent. */
  datatype TransactionBody = TransactionBody(
    amount: Option<int>, date: Option<int>, productId: Option<Id>, userId: Option<Id>,
    others: map<string, string>)

  /** The fields passed on to the repository: exactly `amount`, `date`, `productId` and `userId`. */
  function Forwarded(b: TransactionBody): (f: TransactionFields)
    ensures f.amount == b.amount && f.date == b.date
    ensures f.productId == b.productId && f.userId == b.userId
  {
    TransactionFields(b.amount, b.date, b.productId, b.userId)
  }

  /**
   * `getAll(limit, offset)`: an omitted limit or offset takes its configured
   * default; the envelope echoes the limit and offset used, with that page
   * and the total count.
   */
  function GetAll(t: Tables, limit: Option<nat>, offset: Option<nat>): (r: Page<TR.TransactionView>)
    ensures r.limit == limit.GetOr(DEFAULT_PAGINATION_LIMIT) && r.offset == offset.GetOr(DEFAULT_PAGINATION_OFFSET)
    ensures r.data == TR.FindAll(t, r.limit, r.offset) && r.count == TR.FindCount(t)
  {
    var l := limit.GetOr(DEFAULT_PAGINATION_LIMIT);
    var o := offset.GetOr(DEFAULT_PAGINATION_OFFSET);
    Page(TR.FindAll(t, l, o), TR.FindCount(t), l, o)
  }

  /**
   * In a consistent store the envelope is coherent: the page holds as many
   * transactions as the count allows from the offset, in ascending date
   * order, each with the names stored for its product and user; without a
   * limit or offset it is the first 100.
   */
  lemma GetAllEnvelope(t: Tables, limit: Option<nat>, offset: Option<nat>)
    requires Consistent(t)
    ensures var r := GetAll(t, limit, offset);
      && |r.data| == PageSize(r.count, r.limit, r.offset)
      && (forall i, j :: 0 <= i < j < |r.data| ==> r.data[i].date <= r.data[j].date)
      && (forall i :: 0 <= i < |r.data| ==> TR.Matches(t, TR.Flatten(r.data[i])))
      && (limit.None? && offset.None? ==> r.limit == 100 && r.offset == 0 && |r.data| == PageSize(r.count, 100, 0))
  {
    var r := GetAll(t, limit, offset);
    TR.FindCountIsJoinSize(t, r.limit, r.offset);
  }

  /** `getById(id)`: the transaction with that id, or a plain `Error` naming the id when there is none. */
  function GetById(t: Tables, id: Id): (r: Result<TR.TransactionView, ThrownError>)
    ensures r.Success? <==> TR.FindById(t, id).Some?
    ensures r.Success? ==> Some(r.value) == TR.FindById(t, id)
    ensures r.Failure? ==> r.error == NewError("There is no transaction with id " + id)
  {
    match TR.FindById(t, id)
    case None => Failure(NewError("There is no transaction with id " + id))
    case Some(v) => Success(v)
  }

  /** In a consistent store `getById` succeeds exactly for the stored ids, with the stored row. */
  lemma GetByIdSucceedsForStoredIds(t: Tables, id: Id)
    requires Consistent(t)
    ensures GetById(t, id).Success? <==> id in TransactionIds(t.transactions)
    ensures GetById(t, id).Success? ==> TR.Unjoin(TR.Flatten(GetById(t, id).value)) == TransactionById(t.transactions, id).value
  {
    if id in TransactionIds(t.transactions) {
      var x := TransactionById(t.transactions, id).value;
      TR.FindByIdOfStored(t, x);
    } else {
      TR.FindByIdOfMissing(t, id);
    }
  }

  /** `create(body)`: passes the four fields to the repository and returns its result; its failure is rethrown. */
  method Create(db: Database, newId: Id, body: TransactionBody) returns (r: Result<Option<TR.TransactionView>, ThrownError>)
    requires db.Valid()
    modifies db
    ensures db.Valid()
    ensures InsertTransactionRow(old(db.State()), newId, Forwarded(body)).Success? ==>
      r.Success? && db.State() == InsertTransactionRow(old(db.State()), newId, Forwarded(body)).value
      && r.value == TR.FindById(db.State(), newId) && r.value.Some?
    ensures InsertTransactionRow(old(db.State()), newId, Forwarded(body)).Failure? ==>
      r == Failure(StoreFailure(InsertTransactionRow(old(db.State()), newId, Forwarded(body)).error))
      && db.State() == old(db.State())
  {
    var s := TR.Create(db, newId, Forwarded(body));
    match s
    case Success(v) => r := Success(v);
    case Failure(e) => r := Failure(StoreFailure(e));
  }

  /** `updateById(id, body)`: passes the four fields to the repository and returns its result; its failure is rethrown. */
  method UpdateById(db: Database, id: Id, body: TransactionBody) returns (r: Result<Option<TR.TransactionView>, ThrownError>)
    requires db.Valid()
    modifies db
    ensures db.Valid()
    ensures UpdateTransactionRow(old(db.State()), id, Forwarded(body)).Success? ==>
      r.Success? && db.State() == UpdateTransactionRow(old(db.State()), id, Forwarded(body)).value
      && r.value == TR.FindById(db.State(), id)
      && (r.value.Some? <==> id in TransactionIds(old(db.transactions)))
    ensures UpdateTransactionRow(old(db.State()), id, Forwarded(body)).Failure? ==>
      r == Failure(StoreFailure(UpdateTransactionRow(old(db.State()), id, Forwarded(body)).error))
      && db.State() == old(db.State())
  {
    var s := TR.UpdateById(db, id, Forwarded(body));
    match s
    case Success(v) => r := Success(v);
    case Failure(e) => r := Failure(StoreFailure(e));
  }

  /** `deleteById(id)`: deletes the transaction, if any, and returns nothing either way. */
  method DeleteById(db: Database, id: Id)
    requires db.Valid()
    modifies db
    ensures db.Valid()
    ensures db.State() == DeleteTransactionRows(old(db.State()), id)
  {
    var _ := TR.DeleteById(db, id);
  }
}
