/**
 * What the relational store does with each statement the repositories send
 * it: an INSERT, UPDATE or DELETE either fails with the constraint it would
 * break, changing nothing, or commits; a DELETE of a user or a product also
 * deletes the transactions that reference it (`onDelete('CASCADE')`).
 *
 * Each statement is a function from the tables before to the tables after;
 * `Database` holds the tables and applies the statements in place.
 */
module Store {
  import opened Wrappers
  import opened Query
  import opened Schema

  /** The failures the store reports, naming the column, index or constraint at fault. */
  datatype StoreError =
    | NoDefaultValue(column: string)     // a NOT NULL column left out of an INSERT
    | DataTooLong(column: string)        // a string longer than its column
    | OutOfRange(column: string)         // a number outside its column's type
    | DuplicateEntry(index: string)      // a primary or unique key already taken
    | NoReferencedRow(constraint: string) // a foreign key pointing at no row
    | EmptyUpdate                        // an UPDATE that sets no column at all

  /** The `{name, price}` a product statement carries; `None` is a field left undefined. */
  datatype ProductFields = ProductFields(name: Option<string>, price: Option<int>)

  /** The `{amount, date, productId, userId}` a transaction statement carries. */
  datatype TransactionFields = TransactionFields(
    amount: Option<int>, date: Option<int>, productId: Option<Id>, userId: Option<Id>)

  predicate NoFields(f: TransactionFields) {
    f.amount.None? && f.date.None? && f.productId.None? && f.userId.None?
  }

  /** `INSERT INTO users`. */
  function InsertUserRow(t: Tables, row: UserRow): (r: Result<Tables, StoreError>)
    ensures r.Success? <==> row.id !in UserIds(t.users)
    ensures r.Success? ==> r.value == t.(users := t.users + [row])
    ensures r.Failure? ==> r.error == DuplicateEntry(PRIMARY_KEY)
  {
    if row.id in UserIds(t.users) then Failure(DuplicateEntry(PRIMARY_KEY))
    else Success(t.(users := t.users + [row]))
  }

  /** `DELETE FROM users WHERE id = ?`, cascading to the user's transactions. */
  function DeleteUserRows(t: Tables, id: Id): (r: Tables)
    ensures forall u :: u in r.users <==> u in t.users && u.id != id
    ensures r.products == t.products
    ensures forall x :: x in r.transactions <==> x in t.transactions && x.userId != id
    ensures |r.users| < |t.users| <==> id in UserIds(t.users)
  {
    Tables(Where(t.users, (u: UserRow) => u.id != id),
           t.products,
           Where(t.transactions, (x: TransactionRow) => x.userId != id))
  }

  /** `INSERT INTO products (id, name, price)`. */
  function InsertProductRow(t: Tables, id: Id, f: ProductFields): (r: Result<Tables, StoreError>)
    ensures r.Success? <==>
      && f.name.Some? && f.price.Some?
      && ProductColumnsOk(ProductRow(id, f.name.value, f.price.value))
      && id !in ProductIds(t.products)
      && f.name.value !in ProductNames(t.products)
    ensures r.Success? ==>
      r.value == t.(products := t.products + [ProductRow(id, f.name.value, f.price.value)])
    ensures f.name.Some? && f.price.Some? && ProductColumnsOk(ProductRow(id, f.name.value, f.price.value))
            && id !in ProductIds(t.products) && f.name.value in ProductNames(t.products)
            ==> r == Failure(DuplicateEntry(PRODUCT_NAME_INDEX))
  {
    if f.name.None? then Failure(NoDefaultValue("name"))
    else if f.price.None? then Failure(NoDefaultValue("price"))
    else if |f.name.value| > NAME_LENGTH then Failure(DataTooLong("name"))
    else if !FitsInt(f.price.value) then Failure(OutOfRange("price"))
    else if id in ProductIds(t.products) then Failure(DuplicateEntry(PRIMARY_KEY))
    else if f.name.value in ProductNames(t.products) then Failure(DuplicateEntry(PRODUCT_NAME_INDEX))
    else Success(t.(products := t.products + [ProductRow(id, f.name.value, f.price.value)]))
  }

  /** `UPDATE products SET name = ?, price = ? WHERE id = ?`, leaving out the undefined fields. */
  function UpdateProductRow(t: Tables, id: Id, f: ProductFields): (r: Result<Tables, StoreError>)
    ensures f.name.None? && f.price.None? ==> r == Failure(EmptyUpdate)
    ensures (f.name.Some? || f.price.Some?) && id !in ProductIds(t.products) ==> r == Success(t)
    ensures r.Success? ==> r.value.users == t.users && r.value.transactions == t.transactions
    ensures (f.name.Some? || f.price.Some?) && id in ProductIds(t.products) ==>
      var old_ := ProductById(t.products, id).value;
      var row := ProductRow(id, f.name.GetOr(old_.name), f.price.GetOr(old_.price));
      && (r.Success? <==> ProductColumnsOk(row) && !NameTakenByOther(t.products, id, row.name))
      && (r.Success? ==> r.value.products == ReplaceWhere(t.products, ProductKey, row))
  {
    if f.name.None? && f.price.None? then Failure(EmptyUpdate)
    else match ProductById(t.products, id)
      case None => Success(t)
      case Some(current) =>
        var row := ProductRow(id, f.name.GetOr(current.name), f.price.GetOr(current.price));
        if |row.name| > NAME_LENGTH then Failure(DataTooLong("name"))
        else if !FitsInt(row.price) then Failure(OutOfRange("price"))
        else if NameTakenByOther(t.products, id, row.name) then Failure(DuplicateEntry(PRODUCT_NAME_INDEX))
        else Success(t.(products := ReplaceWhere(t.products, ProductKey, row)))
  }

  /** `DELETE FROM products WHERE id = ?`, cascading to the product's transactions. */
  function DeleteProductRows(t: Tables, id: Id): (r: Tables)
    ensures r.users == t.users
    ensures forall p :: p in r.products <==> p in t.products && p.id != id
    ensures forall x :: x in r.transactions <==> x in t.transactions && x.productId != id
    ensures |r.products| < |t.products| <==> id in ProductIds(t.products)
  {
    Tables(t.users,
           Where(t.products, (p: ProductRow) => p.id != id),
           Where(t.transactions, (x: TransactionRow) => x.productId != id))
  }

  /** The row an INSERT of `f` under `id` stores, once every column is given. */
  function NewTransactionRow(id: Id, f: TransactionFields): TransactionRow
    requires f.amount.Some? && f.date.Some? && f.productId.Some? && f.userId.Some?
  {
    TransactionRow(id, f.amount.value, f.date.value, f.userId.value, f.productId.value)
  }

  /** `INSERT INTO transactions (id, amount, date, product_id, user_id)`. */
  function InsertTransactionRow(t: Tables, id: Id, f: TransactionFields): (r: Result<Tables, StoreError>)
    ensures r.Success? <==>
      && f.amount.Some? && f.date.Some? && f.productId.Some? && f.userId.Some?
      && TransactionColumnsOk(NewTransactionRow(id, f))
      && id !in TransactionIds(t.transactions)
      && References(t, NewTransactionRow(id, f))
    ensures r.Success? ==> r.value == t.(transactions := t.transactions + [NewTransactionRow(id, f)])
    ensures f.amount.Some? && f.date.Some? && f.productId.Some? && f.userId.Some?
            && TransactionColumnsOk(NewTransactionRow(id, f)) && id !in TransactionIds(t.transactions)
            && !References(t, NewTransactionRow(id, f))
            ==> r.Failure? && r.error.NoReferencedRow?
  {
    if f.amount.None? then Failure(NoDefaultValue("amount"))
    else if f.date.None? then Failure(NoDefaultValue("date"))
    else if f.userId.None? then Failure(NoDefaultValue("user_id"))
    else if f.productId.None? then Failure(NoDefaultValue("product_id"))
    else
      var row := NewTransactionRow(id, f);
      if !FitsInt(row.amount) then Failure(OutOfRange("amount"))
      else if id in TransactionIds(t.transactions) then Failure(DuplicateEntry(PRIMARY_KEY))
      else if row.userId !in UserIds(t.users) then Failure(NoReferencedRow(USER_FOREIGN_KEY))
      else if row.productId !in ProductIds(t.products) then Failure(NoReferencedRow(PRODUCT_FOREIGN_KEY))
      else Success(t.(transactions := t.transactions + [row]))
  }

  /** A transaction row with the defined fields of `f` written over it. */
  function Patched(row: TransactionRow, f: TransactionFields): (r: TransactionRow)
    ensures r.id == row.id
  {
    TransactionRow(row.id, f.amount.GetOr(row.amount), f.date.GetOr(row.date),
                   f.userId.GetOr(row.userId), f.productId.GetOr(row.productId))
  }

  /** `UPDATE transactions SET amount, date, product_id, user_id WHERE id = ?`, leaving out the undefined fields. */
  function UpdateTransactionRow(t: Tables, id: Id, f: TransactionFields): (r: Result<Tables, StoreError>)
    ensures NoFields(f) ==> r == Failure(EmptyUpdate)
    ensures !NoFields(f) && id !in TransactionIds(t.transactions) ==> r == Success(t)
    ensures r.Success? ==> r.value.users == t.users && r.value.products == t.products
    ensures !NoFields(f) && id in TransactionIds(t.transactions) ==>
      var row := Patched(TransactionById(t.transactions, id).value, f);
      && (r.Success? <==> TransactionColumnsOk(row) && References(t, row))
      && (r.Success? ==> r.value.transactions == ReplaceWhere(t.transactions, TransactionKey, row))
  {
    if NoFields(f) then Failure(EmptyUpdate)
    else match TransactionById(t.transactions, id)
      case None => Success(t)
      case Some(current) =>
        var row := Patched(current, f);
        if !FitsInt(row.amount) then Failure(OutOfRange("amount"))
        else if row.userId !in UserIds(t.users) then Failure(NoReferencedRow(USER_FOREIGN_KEY))
        else if row.productId !in ProductIds(t.products) then Failure(NoReferencedRow(PRODUCT_FOREIGN_KEY))
        else Success(t.(transactions := ReplaceWhere(t.transactions, TransactionKey, row)))
  }

  /** `DELETE FROM transactions WHERE id = ?`; nothing references a transaction. */
  function DeleteTransactionRows(t: Tables, id: Id): (r: Tables)
    ensures r.users == t.users && r.products == t.products
    ensures forall x :: x in r.transactions <==> x in t.transactions && x.id != id
    ensures |r.transactions| < |t.transactions| <==> id in TransactionIds(t.transactions)
  {
    t.(transactions := Where(t.transactions, (x: TransactionRow) => x.id != id))
  }

  // The statements keep every constraint of the schema.

  lemma InsertUserKeepsConsistency(t: Tables, row: UserRow)
    requires Consistent(t) && InsertUserRow(t, row).Success?
    ensures Consistent(InsertUserRow(t, row).value)
  {
    AppendKeepsUniqueKeys(t.users, UserKey, row);
    AppendKeys(t.users, UserKey, row);
  }

  lemma DeleteUserKeepsConsistency(t: Tables, id: Id)
    requires Consistent(t)
    ensures Consistent(DeleteUserRows(t, id))
  {
    var r := DeleteUserRows(t, id);
    WhereKeepsUniqueKeys(t.users, (u: UserRow) => u.id != id, UserKey);
    WhereKeepsUniqueKeys(t.transactions, (x: TransactionRow) => x.userId != id, TransactionKey);
    forall x | x in r.transactions
      ensures References(r, x)
    {
      var u :| u in t.users && u.id == x.userId;
      assert u in r.users;
    }
  }

  lemma InsertProductKeepsConsistency(t: Tables, id: Id, f: ProductFields)
    requires Consistent(t) && InsertProductRow(t, id, f).Success?
    ensures Consistent(InsertProductRow(t, id, f).value)
  {
    var row := ProductRow(id, f.name.value, f.price.value);
    AppendKeepsUniqueKeys(t.products, ProductKey, row);
    AppendKeepsUniqueKeys(t.products, ProductNameKey, row);
    AppendKeys(t.products, ProductKey, row);
  }

  lemma UpdateProductKeepsConsistency(t: Tables, id: Id, f: ProductFields)
    requires Consistent(t) && UpdateProductRow(t, id, f).Success?
    ensures Consistent(UpdateProductRow(t, id, f).value)
  {
    if id in ProductIds(t.products) {
      var current := ProductById(t.products, id).value;
      var row := ProductRow(id, f.name.GetOr(current.name), f.price.GetOr(current.price));
      var s := t.products;
      var ps := ReplaceWhere(s, ProductKey, row);
      ReplaceKeepsKeys(s, ProductKey, row);
      forall i, j | 0 <= i < j < |ps|
        ensures ps[i].name != ps[j].name
      {
        assert s[i] in s && s[j] in s;
        assert ProductKey(s[i]) != ProductKey(s[j]);
      }
      assert UniqueKeys(ps, ProductNameKey);
      forall p | p in ps
        ensures ProductColumnsOk(p)
      {
        var i :| 0 <= i < |ps| && ps[i] == p;
        assert s[i] in s;
      }
    }
  }

  lemma DeleteProductKeepsConsistency(t: Tables, id: Id)
    requires Consistent(t)
    ensures Consistent(DeleteProductRows(t, id))
  {
    var r := DeleteProductRows(t, id);
    WhereKeepsUniqueKeys(t.products, (p: ProductRow) => p.id != id, ProductKey);
    WhereKeepsUniqueKeys(t.products, (p: ProductRow) => p.id != id, ProductNameKey);
    WhereKeepsUniqueKeys(t.transactions, (x: TransactionRow) => x.productId != id, TransactionKey);
    forall x | x in r.transactions
      ensures References(r, x)
    {
      var p :| p in t.products && p.id == x.productId;
      assert p in r.products;
    }
  }

  lemma InsertTransactionKeepsConsistency(t: Tables, id: Id, f: TransactionFields)
    requires Consistent(t) && InsertTransactionRow(t, id, f).Success?
    ensures Consistent(InsertTransactionRow(t, id, f).value)
  {
    AppendKeepsUniqueKeys(t.transactions, TransactionKey, NewTransactionRow(id, f));
  }

  lemma UpdateTransactionKeepsConsistency(t: Tables, id: Id, f: TransactionFields)
    requires Consistent(t) && UpdateTransactionRow(t, id, f).Success?
    ensures Consistent(UpdateTransactionRow(t, id, f).value)
  {
    if id in TransactionIds(t.transactions) {
      var row := Patched(TransactionById(t.transactions, id).value, f);
      var s := t.transactions;
      var ts := ReplaceWhere(s, TransactionKey, row);
      ReplaceKeepsKeys(s, TransactionKey, row);
      forall x | x in ts
        ensures TransactionColumnsOk(x) && References(t, x)
      {
        var i :| 0 <= i < |ts| && ts[i] == x;
        assert s[i] in s;
      }
    }
  }

  lemma DeleteTransactionKeepsConsistency(t: Tables, id: Id)
    requires Consistent(t)
    ensures Consistent(DeleteTransactionRows(t, id))
  {
    WhereKeepsUniqueKeys(t.transactions, (x: TransactionRow) => x.id != id, TransactionKey);
  }

  /**
   * The store's answer to a statement, `r`, and the tables before and after
   * agree with the statement's meaning `spec`: it commits, or it fails with
   * `spec`'s error and changes nothing.
   */
  predicate Applied<T>(spec: Result<Tables, StoreError>, r: Result<T, StoreError>, before: Tables, after: Tables) {
    match spec
    case Success(t) => r.Success? && after == t
    case Failure(e) => r.Failure? && r.error == e && after == before
  }

  /** The relational store: three tables that statements change in place. */
  class Database {
    var users: seq<UserRow>
    var products: seq<ProductRow>
    var transactions: seq<TransactionRow>

    function State(): Tables
      reads this
    {
      Tables(users, products, transactions)
    }

    predicate Valid()
      reads this
    {
      Consistent(State())
    }

    constructor ()
      ensures Valid() && State() == Tables([], [], [])
    {
      users, products, transactions := [], [], [];
    }

    method InsertUser(row: UserRow) returns (r: Result<(), StoreError>)
      requires Valid()
      modifies this
      ensures Valid()
      ensures Applied(InsertUserRow(old(State()), row), r, old(State()), State())
    {
      match InsertUserRow(State(), row)
      case Success(t) =>
        InsertUserKeepsConsistency(State(), row);
        users := t.users;
        r := Success(());
      case Failure(e) =>
        r := Failure(e);
    }

    method DeleteUser(id: Id) returns (affected: nat)
      requires Valid()
      modifies this
      ensures Valid()
      ensures State() == DeleteUserRows(old(State()), id)
      ensures affected == |old(users)| - |users|
      ensures affected > 0 <==> id in UserIds(old(users))
    {
      DeleteUserKeepsConsistency(State(), id);
      var t := DeleteUserRows(State(), id);
      affected := |users| - |t.users|;
      users, transactions := t.users, t.transactions;
    }

    method InsertProduct(id: Id, f: ProductFields) returns (r: Result<(), StoreError>)
      requires Valid()
      modifies this
      ensures Valid()
      ensures Applied(InsertProductRow(old(State()), id, f), r, old(State()), State())
    {
      match InsertProductRow(State(), id, f)
      case Success(t) =>
        InsertProductKeepsConsistency(State(), id, f);
        products := t.products;
        r := Success(());
      case Failure(e) =>
        r := Failure(e);
    }

    method UpdateProduct(id: Id, f: ProductFields) returns (r: Result<(), StoreError>)
      requires Valid()
      modifies this
      ensures Valid()
      ensures Applied(UpdateProductRow(old(State()), id, f), r, old(State()), State())
    {
      match UpdateProductRow(State(), id, f)
      case Success(t) =>
        UpdateProductKeepsConsistency(State(), id, f);
        products := t.products;
        r := Success(());
      case Failure(e) =>
        r := Failure(e);
    }

    method DeleteProduct(id: Id) returns (affected: nat)
      requires Valid()
      modifies this
      ensures Valid()
      ensures State() == DeleteProductRows(old(State()), id)
      ensures affected == |old(products)| - |products|
      ensures affected > 0 <==> id in ProductIds(old(products))
    {
      DeleteProductKeepsConsistency(State(), id);
      var t := DeleteProductRows(State(), id);
      affected := |products| - |t.products|;
      products, transactions := t.products, t.transactions;
    }

    method InsertTransaction(id: Id, f: TransactionFields) returns (r: Result<(), StoreError>)
      requires Valid()
      modifies this
      ensures Valid()
      ensures Applied(InsertTransactionRow(old(State()), id, f), r, old(State()), State())
    {
      match InsertTransactionRow(State(), id, f)
      case Success(t) =>
        InsertTransactionKeepsConsistency(State(), id, f);
        transactions := t.transactions;
        r := Success(());
      case Failure(e) =>
        r := Failure(e);
    }

    method UpdateTransaction(id: Id, f: TransactionFields) returns (r: Result<(), StoreError>)
      requires Valid()
      modifies this
      ensures Valid()
      ensures Applied(UpdateTransactionRow(old(State()), id, f), r, old(State()), State())
    {
      match UpdateTransactionRow(State(), id, f)
      case Success(t) =>
        UpdateTransactionKeepsConsistency(State(), id, f);
        transactions := t.transactions;
        r := Success(());
      case Failure(e) =>
        r := Failure(e);
    }

    method DeleteTransaction(id: Id) returns (affected: nat)
      requires Valid()
      modifies this
      ensures Valid()
      ensures State() == DeleteTransactionRows(old(State()), id)
      ensures affected == |old(transactions)| - |transactions|
      ensures affected > 0 <==> id in TransactionIds(old(transactions))
    {
      DeleteTransactionKeepsConsistency(State(), id);
      var t := DeleteTransactionRows(State(), id);
      affected := |transactions| - |t.transactions|;
      transactions := t.transactions;
    }
  }
}
