/**
 * What a client sees: service results carried through the error-handling
 * middleware, and the listing scenario the REST tests describe.
 */
module EndToEnd {
  import opened Wrappers
  import opened Schema
  import opened Store
  import opened Errors
  import opened Server
  import opened Paging
  import TR = TransactionRepository
  import TS = TransactionService
  import Query

  /**
   * Asking for a transaction that does not exist is answered with 500 and
   * `INTERNAL_SERVER_ERROR`, not 404: the service throws a plain `Error`,
   * which carries no status and no code.
   */
  lemma MissingTransactionIsInternalError(t: Tables, id: Id, env: string)
    requires Consistent(t) && id !in TransactionIds(t.transactions)
    ensures TS.GetById(t, id).Failure?
    ensures ExpectedStatus(TS.GetById(t, id).error) == 500
    ensures ErrorBodyOf(TS.GetById(t, id).error, env)
         == ErrorBody(INTERNAL_SERVER_ERROR, "There is no transaction with id " + id, map[],
                      if env == PRODUCTION then None else Some("Error: " + ("There is no transaction with id " + id)))
  {
    TS.GetByIdSucceedsForStoredIds(t, id);
  }

  /**
   * Every failure of the store reaches the client as a 500 whose code is the
   * driver's (`ER_DUP_ENTRY` for a name already taken), or
   * `INTERNAL_SERVER_ERROR` for the refused empty update.
   */
  lemma StoreFailureIsInternalError(e: StoreError, env: string)
    ensures ExpectedStatus(StoreFailure(e)) == 500
    ensures ErrorBodyOf(StoreFailure(e), env).code == DriverCode(e).GetOr(INTERNAL_SERVER_ERROR)
    ensures e.DuplicateEntry? ==> ErrorBodyOf(StoreFailure(e), env).code == "ER_DUP_ENTRY"
  {
  }

  /** Creating a product under a name another product has is refused by the unique index, and changes nothing. */
  lemma DuplicateProductNameIsRefused(t: Tables, newId: Id, name: string, price: int)
    requires Consistent(t) && newId !in ProductIds(t.products)
    requires name in ProductNames(t.products) && FitsInt(price)
    ensures InsertProductRow(t, newId, ProductFields(Some(name), Some(price))) == Failure(DuplicateEntry(PRODUCT_NAME_INDEX))
  {
    var p :| p in t.products && p.name == name;
    assert ProductColumnsOk(p);
  }

  /**
   * A transaction body naming its user by `user` instead of `userId` leaves
   * the NOT NULL `user_id` column undefined: the insert is refused and the
   * client gets a 500 with `ER_NO_DEFAULT_FOR_FIELD`.
   */
  lemma PostWithoutUserIdIsRefused(t: Tables, newId: Id, date: int)
    ensures var body := TS.TransactionBody(Some(102), Some(date), Some(PRODUCT_ID), None, map["user" := "Test User"]);
      && InsertTransactionRow(t, newId, TS.Forwarded(body)) == Failure(NoDefaultValue("user_id"))
      && ExpectedStatus(StoreFailure(NoDefaultValue("user_id"))) == 500
      && ErrorBodyOf(StoreFailure(NoDefaultValue("user_id")), PRODUCTION).code == "ER_NO_DEFAULT_FOR_FIELD"
  {
  }

  /**
   * A transaction naming a product that does not exist is refused by the
   * foreign key, on create and on update alike: no product is created, and
   * the client gets a 500 with `ER_NO_REFERENCED_ROW_2`.
   */
  lemma UnknownProductIsRefused(t: Tables, newId: Id, id: Id, amount: int, date: int, userId: Id, productId: Id,
                                patch: TS.TransactionBody, env: string)
    requires Consistent(t)
    requires newId !in TransactionIds(t.transactions) && FitsInt(amount)
    requires userId in UserIds(t.users) && productId !in ProductIds(t.products)
    requires id in TransactionIds(t.transactions) && patch.productId == Some(productId)
    requires patch.amount.Some? ==> FitsInt(patch.amount.value)
    requires patch.userId.Some? ==> patch.userId.value in UserIds(t.users)
    ensures var body := TS.TransactionBody(Some(amount), Some(date), Some(productId), Some(userId), map[]);
      InsertTransactionRow(t, newId, TS.Forwarded(body)) == Failure(NoReferencedRow(PRODUCT_FOREIGN_KEY))
    ensures UpdateTransactionRow(t, id, TS.Forwarded(patch)) == Failure(NoReferencedRow(PRODUCT_FOREIGN_KEY))
    ensures ExpectedStatus(StoreFailure(NoReferencedRow(PRODUCT_FOREIGN_KEY))) == 500
    ensures ErrorBodyOf(StoreFailure(NoReferencedRow(PRODUCT_FOREIGN_KEY)), env).code == "ER_NO_REFERENCED_ROW_2"
  {
    var current := TransactionById(t.transactions, id).value;
    assert current in t.transactions;
    assert TransactionColumnsOk(current) && References(t, current);
  }

  // The fixture of the transaction listing tests: one user, one product and
  // three transactions; a date is written as the number yyyymmddhhmm.

  const USER_ID := "7f28c5f9-d711-4cd6-ac15-d13d71abff80"
  const PRODUCT_ID := "7f28c5f9-d711-4cd6-ac15-d13d71abff90"

  function Fixture(): Tables {
    Tables(
      [UserRow(USER_ID, "Test User")],
      [ProductRow(PRODUCT_ID, "Test product", 3)],
      [TransactionRow("7f28c5f9-d711-4cd6-ac15-d13d71abff86", 3500, 202105251940, USER_ID, PRODUCT_ID),
       TransactionRow("7f28c5f9-d711-4cd6-ac15-d13d71abff87", -220, 202105082000, USER_ID, PRODUCT_ID),
       TransactionRow("7f28c5f9-d711-4cd6-ac15-d13d71abff88", -74, 202105211430, USER_ID, PRODUCT_ID)])
  }

  function View(id: Id, amount: int, date: int): TR.TransactionView {
    TR.TransactionView(id, amount, date, TR.Ref(PRODUCT_ID, "Test product"), TR.Ref(USER_ID, "Test User"))
  }

  /** The joined rows of the fixture, in table order. */
  function Joined(k: nat): TR.JoinedRow
    requires k < 3
  {
    var x := Fixture().transactions[k];
    TR.JoinedRow(x.id, x.amount, x.date, PRODUCT_ID, "Test product", USER_ID, "Test User")
  }

  lemma FixtureIsConsistent()
    ensures Consistent(Fixture())
  {
    var t := Fixture();
    assert t.users[0] in t.users && t.products[0] in t.products;
    assert UserKey(t.users[0]) in UserIds(t.users) && ProductKey(t.products[0]) in ProductIds(t.products);
  }

  lemma FixtureJoin()
    ensures TR.Join(Fixture()) == [Joined(0), Joined(1), Joined(2)]
  {
    var t := Fixture();
    FixtureIsConsistent();
    TR.JoinCoversAll(t);
    assert ProductById(t.products, PRODUCT_ID) == Some(t.products[0]);
    assert UserById(t.users, USER_ID) == Some(t.users[0]);
  }

  /** `ORDER BY` of two rows already in order keeps them. */
  lemma SortTwo<T>(a: T, b: T, le: (T, T) -> bool)
    requires le(a, b)
    ensures Query.SortBy([a, b], le) == [a, b]
  {
    assert [a, b][1..] == [b] && [b][1..] == [];
    assert Query.SortBy([b], le) == [b];
  }

  /** A row that comes after two others is placed behind both. */
  lemma InsertBehindTwo<T>(x: T, a: T, b: T, le: (T, T) -> bool)
    requires !le(x, a) && !le(x, b)
    ensures Query.InsertSorted(x, [a, b], le) == [a, b, x]
  {
    assert [a, b][1..] == [b] && [b][1..] == [];
    assert Query.InsertSorted(x, [b], le) == [b, x];
  }

  /** `ORDER BY date` of three rows whose dates are in the order second, third, first. */
  lemma SortThree(j0: TR.JoinedRow, j1: TR.JoinedRow, j2: TR.JoinedRow)
    requires j1.date <= j2.date < j0.date
    ensures Query.SortBy([j0, j1, j2], TR.ByDate) == [j1, j2, j0]
  {
    assert [j0, j1, j2][1..] == [j1, j2];
    SortTwo(j1, j2, TR.ByDate);
    InsertBehindTwo(j0, j1, j2, TR.ByDate);
  }

  lemma FixtureOrder()
    ensures TR.OrderedJoin(Fixture()) == [Joined(1), Joined(2), Joined(0)]
  {
    FixtureJoin();
    assert TR.OrderedJoin(Fixture()) == Query.SortBy(TR.Join(Fixture()), TR.ByDate);
    SortThree(Joined(0), Joined(1), Joined(2));
  }

  /**
   * `GET /api/transactions` answers with all three and the default window;
   * `?limit=2&offset=1` skips the earliest and returns the next two by date.
   */
  lemma ListingScenario()
    ensures var all := TS.GetAll(Fixture(), None, None);
      all.limit == 100 && all.offset == 0 && all.count == 3 && |all.data| == 3
    ensures TS.GetAll(Fixture(), Some(2), Some(1))
         == Page([View("7f28c5f9-d711-4cd6-ac15-d13d71abff88", -74, 202105211430),
                  View("7f28c5f9-d711-4cd6-ac15-d13d71abff86", 3500, 202105251940)], 3, 2, 1)
  {
    DefaultListing();
    PagedListing();
  }

  lemma DefaultListing()
    ensures var all := TS.GetAll(Fixture(), None, None);
      all.limit == 100 && all.offset == 0 && all.count == 3 && |all.data| == 3
  {
    FixtureIsConsistent();
    TS.GetAllEnvelope(Fixture(), None, None);
  }

  lemma PagedListing()
    ensures TS.GetAll(Fixture(), Some(2), Some(1))
         == Page([View("7f28c5f9-d711-4cd6-ac15-d13d71abff88", -74, 202105211430),
                  View("7f28c5f9-d711-4cd6-ac15-d13d71abff86", 3500, 202105251940)], 3, 2, 1)
  {
    var t := Fixture();
    FixtureSecondPage();
    assert TR.FindCount(t) == 3;
    assert TS.GetAll(t, Some(2), Some(1)) == Page(TR.FindAll(t, 2, 1), 3, 2, 1);
  }

  lemma FixtureSecondPage()
    ensures TR.FindAll(Fixture(), 2, 1)
         == [View("7f28c5f9-d711-4cd6-ac15-d13d71abff88", -74, 202105211430),
             View("7f28c5f9-d711-4cd6-ac15-d13d71abff86", 3500, 202105251940)]
  {
    FixtureOrder();
    var ordered := TR.OrderedJoin(Fixture());
    PageIsWindow(Fixture(), 2, 1);
    WindowOfThree(Joined(1), Joined(2), Joined(0));
    FormatTwo(Joined(2), Joined(0));
  }

  lemma WindowOfThree<T>(a: T, b: T, c: T)
    ensures Window([a, b, c], 2, 1) == [b, c]
  {
  }

  lemma PageIsWindow(t: Tables, limit: nat, offset: nat)
    ensures TR.FindAll(t, limit, offset) == TR.FormatAll(Window(TR.OrderedJoin(t), limit, offset))
  {
  }

  lemma FormatTwo(a: TR.JoinedRow, b: TR.JoinedRow)
    ensures TR.FormatAll([a, b]) == [TR.FormatTransaction(a), TR.FormatTransaction(b)]
  {
  }
}
