/**
 * The transaction repository: transactions read through an inner join with
 * their product and user, reshaped into `{id, amount, date, product, user}`,
 * listed by date one page at a time, and written through the store.
 */
module TransactionRepository {
  import opened Wrappers
  import opened Query
  import opened Paging
  import opened Schema
  import opened Store

  /** A row of the join, with the selected columns: the transaction's own and the product's and user's id and name. */
  datatype JoinedRow = JoinedRow(
    id: Id, amount: int, date: int,
    productId: Id, productName: string,
    userId: Id, userName: string)

  /** The `{id, name}` of a referenced product or user. */
  datatype Ref = Ref(id: Id, name: string)

  /** A transaction as the repository returns it. */
  datatype TransactionView = TransactionView(id: Id, amount: int, date: int, product: Ref, user: Ref)

  /**
   * `formatTransaction`: keeps `id`, `amount` and `date`, and gathers the
   * product's and the user's id and name into nested `product` and `user`.
   */
  function FormatTransaction(j: JoinedRow): (v: TransactionView)
    ensures v.id == j.id && v.amount == j.amount && v.date == j.date
    ensures v.product == Ref(j.productId, j.productName)
    ensures v.user == Ref(j.userId, j.userName)
  {
    TransactionView(j.id, j.amount, j.date, Ref(j.productId, j.productName), Ref(j.userId, j.userName))
  }

  /** The selected columns a view was made from. */
  function Flatten(v: TransactionView): JoinedRow {
    JoinedRow(v.id, v.amount, v.date, v.product.id, v.product.name, v.user.id, v.user.name)
  }

  /** The reshape loses nothing and invents nothing: it is a bijection onto the views. */
  lemma FormatRoundTrip(j: JoinedRow, v: TransactionView)
    ensures Flatten(FormatTransaction(j)) == j
    ensures FormatTransaction(Flatten(v)) == v
  {
  }

  /** The transaction row a joined row was read from. */
  function Unjoin(j: JoinedRow): TransactionRow {
    TransactionRow(j.id, j.amount, j.date, j.userId, j.productId)
  }

  /** The product and user columns of `j` are those stored for its `product_id` and `user_id`. */
  predicate Matches(t: Tables, j: JoinedRow) {
    && UserById(t.users, j.userId) == Some(UserRow(j.userId, j.userName))
    && ProductById(t.products, j.productId).Some?
    && ProductById(t.products, j.productId).value.name == j.productName
  }

  /** A transaction row joined with the product and user it references. */
  function JoinOf(t: Tables, x: TransactionRow): (j: JoinedRow)
    requires References(t, x)
    ensures Unjoin(j) == x && Matches(t, j)
  {
    JoinedRow(x.id, x.amount, x.date,
              x.productId, ProductById(t.products, x.productId).value.name,
              x.userId, UserById(t.users, x.userId).value.name)
  }

  /** The inner join of `xs` with the products and users: rows without a match on both sides are dropped. */
  function JoinRows(t: Tables, xs: seq<TransactionRow>): (r: seq<JoinedRow>)
    ensures |r| <= |xs|
    ensures forall j :: j in r ==> Unjoin(j) in xs && Matches(t, j)
    ensures forall x :: x in xs && References(t, x) ==> JoinOf(t, x) in r
  {
    if xs == [] then []
    else
      assert xs == [xs[0]] + xs[1..];
      var rest := JoinRows(t, xs[1..]);
      if References(t, xs[0]) then [JoinOf(t, xs[0])] + rest else rest
  }

  /** `transactions JOIN products ... JOIN users ...`, with the selected columns. */
  function Join(t: Tables): (r: seq<JoinedRow>)
    ensures forall j :: j in r ==> Unjoin(j) in t.transactions && Matches(t, j)
  {
    JoinRows(t, t.transactions)
  }

  /**
   * In a consistent store the join drops no transaction: it has one row per
   * transaction, in the table's order, each joined with its own product and user.
   */
  lemma {:induction false} JoinRowsCoversAll(t: Tables, xs: seq<TransactionRow>)
    requires forall x :: x in xs ==> References(t, x)
    ensures |JoinRows(t, xs)| == |xs|
    ensures forall i :: 0 <= i < |xs| ==> JoinRows(t, xs)[i] == JoinOf(t, xs[i])
  {
    if xs != [] {
      assert xs == [xs[0]] + xs[1..];
      JoinRowsCoversAll(t, xs[1..]);
      var r := JoinRows(t, xs);
      forall i | 0 <= i < |xs|
        ensures r[i] == JoinOf(t, xs[i])
      {
        if i > 0 {
          assert r[i] == JoinRows(t, xs[1..])[i - 1];
        }
      }
    }
  }

  lemma JoinCoversAll(t: Tables)
    requires Consistent(t)
    ensures |Join(t)| == |t.transactions|
    ensures forall i :: 0 <= i < |t.transactions| ==> Join(t)[i] == JoinOf(t, t.transactions[i])
  {
    JoinRowsCoversAll(t, t.transactions);
  }

  /** `ORDER BY date ASC`. */
  predicate ByDate(a: JoinedRow, b: JoinedRow) {
    a.date <= b.date
  }

  lemma ByDateIsTotalPreorder()
    ensures TotalPreorder(ByDate)
  {
  }

  /** The reshape applied to every row of a result. */
  function FormatAll(js: seq<JoinedRow>): (r: seq<TransactionView>)
    ensures |r| == |js|
    ensures forall i :: 0 <= i < |js| ==> r[i] == FormatTransaction(js[i])
  {
    seq(|js|, i requires 0 <= i < |js| => FormatTransaction(js[i]))
  }

  /** The joined rows in ascending date order (`ORDER BY date ASC`). */
  function OrderedJoin(t: Tables): (r: seq<JoinedRow>)
    ensures Sorted(r, ByDate)
    ensures multiset(r) == multiset(Join(t))
    ensures forall j :: j in r ==> Unjoin(j) in t.transactions && Matches(t, j)
  {
    ByDateIsTotalPreorder();
    SortBySorts(Join(t), ByDate);
    var r := SortBy(Join(t), ByDate);
    assert forall j :: j in r ==> j in multiset(Join(t));
    r
  }

  /** `findAll({limit, offset})`: one page of the joined transactions in ascending date order, reshaped. */
  function FindAll(t: Tables, limit: nat, offset: nat): (r: seq<TransactionView>)
    ensures |r| == PageSize(|Join(t)|, limit, offset) && |r| <= limit
    ensures forall i, j :: 0 <= i < j < |r| ==> r[i].date <= r[j].date
    ensures forall i :: 0 <= i < |r| ==> Unjoin(Flatten(r[i])) in t.transactions && Matches(t, Flatten(r[i]))
  {
    var page := Window(OrderedJoin(t), limit, offset);
    WindowKeepsOrder(OrderedJoin(t), ByDate, limit, offset);
    assert forall i :: 0 <= i < |page| ==> page[i] in OrderedJoin(t);
    FormatAll(page)
  }

  /**
   * The page `findAll` returns is the window of an ascending-by-date ordering
   * of the join; which of the orderings SQL allows for equal dates is left open.
   */
  lemma FindAllIsPageOfOrderedJoin(t: Tables, limit: nat, offset: nat)
    ensures exists ordered ::
      && Sorted(ordered, ByDate)
      && multiset(ordered) == multiset(Join(t))
      && FindAll(t, limit, offset) == FormatAll(Window(ordered, limit, offset))
  {
    var ordered := OrderedJoin(t);
    assert FindAll(t, limit, offset) == FormatAll(Window(ordered, limit, offset));
  }

  /** No two different joined rows share a date, so `ORDER BY date` leaves no tie to break. */
  predicate DistinctDates(js: seq<JoinedRow>) {
    forall x, y :: x in js && y in js && x.date == y.date ==> x == y
  }

  /** The first rows of two ascending-by-date rearrangements of the same rows without ties are the same row. */
  lemma {:induction false} DatedHeadsAgree(a: seq<JoinedRow>, b: seq<JoinedRow>)
    requires Sorted(a, ByDate) && Sorted(b, ByDate)
    requires multiset(a) == multiset(b)
    requires DistinctDates(a) && a != []
    ensures b != [] && a[0] == b[0]
  {
    assert |b| == |multiset(b)| == |multiset(a)| == |a|;
    assert a[0] in multiset(b) && b[0] in multiset(a);
    var i :| 0 <= i < |a| && a[i] == b[0];
    var k :| 0 <= k < |b| && b[k] == a[0];
    assert a[0].date <= b[0].date by {
      if i > 0 { assert ByDate(a[0], a[i]); }
    }
    assert b[0].date <= a[0].date by {
      if k > 0 { assert ByDate(b[0], b[k]); }
    }
    assert a[0] in a && a[i] in a;
  }

  /** Dropping the first row keeps rows sorted by date and without ties. */
  lemma {:induction false} DatedTail(a: seq<JoinedRow>)
    requires a != [] && Sorted(a, ByDate) && DistinctDates(a)
    ensures Sorted(a[1..], ByDate) && DistinctDates(a[1..])
  {
    TailKeepsOrder(a, ByDate);
    forall x, y | x in a[1..] && y in a[1..] && x.date == y.date
      ensures x == y
    {
      assert x in a && y in a;
    }
  }


  /** Without ties there is only one ascending order by date: any two sorted rearrangements of the same rows are equal. */
  lemma {:induction false} SortedByDistinctDatesIsUnique(a: seq<JoinedRow>, b: seq<JoinedRow>)
    requires Sorted(a, ByDate) && Sorted(b, ByDate)
    requires multiset(a) == multiset(b)
    requires DistinctDates(a)
    ensures a == b
    decreases |a|
  {
    if a == [] {
      assert |b| == |multiset(b)| == 0;
    } else {
      DatedHeadsAgree(a, b);
      DatedTail(a);
      TailKeepsOrder(b, ByDate);
      TailsArePermutations(a, b);
      SortedByDistinctDatesIsUnique(a[1..], b[1..]);
    }
  }

  /** `o` is an order `ORDER BY date ASC` may return for the rows `js`: ascending by date, and the same rows. */
  predicate IsDateOrderingOf(o: seq<JoinedRow>, js: seq<JoinedRow>) {
    Sorted(o, ByDate) && multiset(o) == multiset(js)
  }

  /** When no two rows share a date, all ascending-by-date orderings of them are the same. */
  lemma {:induction false} OrderingsAgree(js: seq<JoinedRow>, a: seq<JoinedRow>, b: seq<JoinedRow>)
    requires DistinctDates(js)
    requires IsDateOrderingOf(a, js) && IsDateOrderingOf(b, js)
    ensures a == b
  {
    forall x, y | x in a && y in a && x.date == y.date
      ensures x == y
    {
      assert x in multiset(js) && y in multiset(js);
    }
    SortedByDistinctDatesIsUnique(a, b);
  }

  /**
   * When no two joined rows share a date, `findAll` is exactly the SQL
   * page: every ascending-by-date ordering of the join yields it.
   */
  lemma {:induction false} FindAllIsPageOfEveryOrdering(t: Tables, ordered: seq<JoinedRow>, limit: nat, offset: nat)
    requires DistinctDates(Join(t))
    requires IsDateOrderingOf(ordered, Join(t))
    ensures FindAll(t, limit, offset) == FormatAll(Window(ordered, limit, offset))
  {
    assert IsDateOrderingOf(OrderedJoin(t), Join(t));
    OrderingsAgree(Join(t), OrderedJoin(t), ordered);
  }

  /**
   * Reading a page and then the next one gives the rows of the larger page,
   * whichever ascending-by-date ordering of the join each of the three
   * queries uses, as long as no two joined rows share a date. (With a tie,
   * two queries may order the tied rows differently, and consecutive pages
   * can overlap.) `FindAllIsPageOfEveryOrdering` makes each of these pages
   * the one `findAll` returns.
   */
  lemma {:induction false} FindAllConsecutivePages(t: Tables, first: nat, second: nat, offset: nat,
                                                   earlier: seq<JoinedRow>, later: seq<JoinedRow>, whole: seq<JoinedRow>)
    requires DistinctDates(Join(t))
    requires IsDateOrderingOf(earlier, Join(t)) && IsDateOrderingOf(later, Join(t)) && IsDateOrderingOf(whole, Join(t))
    ensures FormatAll(Window(earlier, first, offset)) + FormatAll(Window(later, second, offset + first))
         == FormatAll(Window(whole, first + second, offset))
  {
    OrderingsAgree(Join(t), earlier, later);
    OrderingsAgree(Join(t), earlier, whole);
    ConsecutivePages(earlier, first, second, offset);
    FormatAllAppend(Window(earlier, first, offset), Window(earlier, second, offset + first));
  }

  /** Reshaping two results one after the other is reshaping them together. */
  lemma FormatAllAppend(a: seq<JoinedRow>, b: seq<JoinedRow>)
    ensures FormatAll(a) + FormatAll(b) == FormatAll(a + b)
  {
  }

  /** `findCount()`: the number of rows of the transaction table. */
  function FindCount(t: Tables): nat {
    |t.transactions|
  }

  /**
   * The count ignores the join, the limit and the offset; in a consistent
   * store it is the number of joined rows, so a page as large as the count
   * from offset 0 holds every transaction.
   */
  lemma FindCountIsJoinSize(t: Tables, limit: nat, offset: nat)
    requires Consistent(t)
    ensures FindCount(t) == |Join(t)|
    ensures |FindAll(t, FindCount(t), 0)| == FindCount(t)
    ensures |FindAll(t, limit, offset)| == PageSize(FindCount(t), limit, offset)
  {
    JoinCoversAll(t);
  }

  function JoinedKey(j: JoinedRow): Id { j.id }

  /** `findById(id)`: the first joined row with that id, reshaped, or nothing. */
  function FindById(t: Tables, id: Id): (r: Option<TransactionView>)
    ensures r.Some? ==> r.value.id == id && Unjoin(Flatten(r.value)) in t.transactions && Matches(t, Flatten(r.value))
    ensures r.None? ==> forall j :: j in Join(t) ==> j.id != id
  {
    match FirstWithKey(Join(t), JoinedKey, id)
    case None => None
    case Some(j) =>
      FormatRoundTrip(j, FormatTransaction(j));
      Some(FormatTransaction(j))
  }

  /** In a consistent store `findById` finds each stored transaction, joined with its own product and user. */
  lemma FindByIdOfStored(t: Tables, x: TransactionRow)
    requires Consistent(t) && x in t.transactions
    ensures FindById(t, x.id) == Some(FormatTransaction(JoinOf(t, x)))
  {
    JoinCoversAll(t);
    var js := Join(t);
    var i :| 0 <= i < |t.transactions| && t.transactions[i] == x;
    assert js[i] == JoinOf(t, x);
    forall a, b | 0 <= a < b < |js|
      ensures JoinedKey(js[a]) != JoinedKey(js[b])
    {
      assert TransactionKey(t.transactions[a]) != TransactionKey(t.transactions[b]);
    }
    FirstWithUniqueKey(js, JoinedKey, js[i]);
  }

  /** ... and finds nothing, without failing, for an id no transaction has. */
  lemma FindByIdOfMissing(t: Tables, id: Id)
    requires id !in TransactionIds(t.transactions)
    ensures FindById(t, id) == None
  {
  }

  /**
   * `create`: inserts a row under the fresh id `newId` and reads it back.
   * A store failure (a missing column, a dangling foreign key) is rethrown
   * and changes nothing.
   */
  method Create(db: Database, newId: Id, f: TransactionFields) returns (r: Result<Option<TransactionView>, StoreError>)
    requires db.Valid()
    modifies db
    ensures db.Valid()
    ensures Applied(InsertTransactionRow(old(db.State()), newId, f), r, old(db.State()), db.State())
    ensures r.Success? ==> r.value == FindById(db.State(), newId)
    ensures r.Success? ==>
      && r.value.Some?
      && r.value.value.id == newId
      && r.value.value.amount == f.amount.value
      && r.value.value.date == f.date.value
      && r.value.value.product.id == f.productId.value
      && r.value.value.user.id == f.userId.value
      && Matches(old(db.State()), Flatten(r.value.value))
  {
    var s := db.InsertTransaction(newId, f);
    if s.Failure? {
      return Failure(s.error);
    }
    var row := NewTransactionRow(newId, f);
    assert row in db.transactions;
    FindByIdOfStored(db.State(), row);
    r := Success(FindById(db.State(), newId));
  }

  /**
   * `updateById`: writes the given fields over the row with that id and
   * reads it back; nothing is found when no row has that id.
   */
  method UpdateById(db: Database, id: Id, f: TransactionFields) returns (r: Result<Option<TransactionView>, StoreError>)
    requires db.Valid()
    modifies db
    ensures db.Valid()
    ensures Applied(UpdateTransactionRow(old(db.State()), id, f), r, old(db.State()), db.State())
    ensures r.Success? ==> r.value == FindById(db.State(), id)
    ensures r.Success? ==> (r.value.Some? <==> id in TransactionIds(old(db.transactions)))
    ensures r.Success? && r.value.Some? ==>
      Unjoin(Flatten(r.value.value)) == Patched(TransactionById(old(db.transactions), id).value, f)
  {
    ghost var before := db.State();
    var s := db.UpdateTransaction(id, f);
    if s.Failure? {
      return Failure(s.error);
    }
    if id in TransactionIds(before.transactions) {
      var row := Patched(TransactionById(before.transactions, id).value, f);
      var k :| 0 <= k < |before.transactions| && before.transactions[k].id == id;
      assert db.transactions[k] == row;
      FindByIdOfStored(db.State(), row);
    } else {
      FindByIdOfMissing(db.State(), id);
    }
    r := Success(FindById(db.State(), id));
  }

  /** `deleteById`: removes the row with that id and says whether there was one. */
  method DeleteById(db: Database, id: Id) returns (deleted: bool)
    requires db.Valid()
    modifies db
    ensures db.Valid()
    ensures db.State() == DeleteTransactionRows(old(db.State()), id)
    ensures deleted <==> id in TransactionIds(old(db.transactions))
    ensures id !in TransactionIds(db.transactions)
  {
    var affected := db.DeleteTransaction(id);
    deleted := affected > 0;
  }
}
