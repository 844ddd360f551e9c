/**
 * The three tables of the ledger store and the constraints their migrations
 * declare: primary keys, the unique product name, NOT NULL, the width of
 * `name` and the 32-bit range of the INT columns, and the two foreign keys from transactions to users and products.
 */
module Schema {
  import opened Wrappers
  import opened Query

  /** Row ids are uuid strings, compared only for equality. */
  type Id = string

  /** A user row, limited to the columns this store reads. */
  datatype UserRow = UserRow(id: Id, name: string)

  datatype ProductRow = ProductRow(id: Id, name: string, price: int)

  /** A transaction row; `date` is a point in time, compared only by order. */
  datatype TransactionRow = TransactionRow(id: Id, amount: int, date: int, userId: Id, productId: Id)

  datatype Tables = Tables(users: seq<UserRow>, products: seq<ProductRow>, transactions: seq<TransactionRow>)

  /** `string('name', 255)`. */
  const NAME_LENGTH: nat := 255

  /** The range of an `integer` column (a signed 32-bit MySQL INT). */
  const INT_MIN: int := -0x8000_0000
  const INT_MAX: int := 0x7FFF_FFFF

  predicate FitsInt(x: int) {
    INT_MIN <= x <= INT_MAX
  }

  /** Index and constraint names the store reports in its errors. */
  const PRIMARY_KEY := "PRIMARY"
  const PRODUCT_NAME_INDEX := "idx_product_name_unique"
  const USER_FOREIGN_KEY := "fk_transaction_user"
  const PRODUCT_FOREIGN_KEY := "fk_transaction_product"

  function UserKey(u: UserRow): Id { u.id }
  function ProductKey(p: ProductRow): Id { p.id }
  function ProductNameKey(p: ProductRow): string { p.name }
  function TransactionKey(r: TransactionRow): Id { r.id }

  function UserIds(us: seq<UserRow>): set<Id> { Keys(us, UserKey) }
  function ProductIds(ps: seq<ProductRow>): set<Id> { Keys(ps, ProductKey) }
  function ProductNames(ps: seq<ProductRow>): set<string> { Keys(ps, ProductNameKey) }
  function TransactionIds(ts: seq<TransactionRow>): set<Id> { Keys(ts, TransactionKey) }

  /** The values a product row's columns can hold. */
  predicate ProductColumnsOk(p: ProductRow) {
    |p.name| <= NAME_LENGTH && FitsInt(p.price)
  }

  /** The values a transaction row's columns can hold. */
  predicate TransactionColumnsOk(r: TransactionRow) {
    FitsInt(r.amount)
  }

  /** Both foreign keys of a transaction row point at existing rows. */
  predicate References(t: Tables, r: TransactionRow) {
    r.userId in UserIds(t.users) && r.productId in ProductIds(t.products)
  }

  /** Every constraint of the schema holds. */
  predicate Consistent(t: Tables) {
    && UniqueKeys(t.users, UserKey)
    && UniqueKeys(t.products, ProductKey)
    && UniqueKeys(t.products, ProductNameKey)
    && (forall p :: p in t.products ==> ProductColumnsOk(p))
    && UniqueKeys(t.transactions, TransactionKey)
    && (forall r :: r in t.transactions ==> TransactionColumnsOk(r) && References(t, r))
  }

  /** Lookups by primary key (and by the unique name), as `WHERE ... .first()` does them. */
  function UserById(us: seq<UserRow>, id: Id): (r: Option<UserRow>)
    ensures r.Some? <==> id in UserIds(us)
    ensures r.Some? ==> r.value in us && r.value.id == id
  {
    FirstWithKey(us, UserKey, id)
  }

  function ProductById(ps: seq<ProductRow>, id: Id): (r: Option<ProductRow>)
    ensures r.Some? <==> id in ProductIds(ps)
    ensures r.Some? ==> r.value in ps && r.value.id == id
  {
    FirstWithKey(ps, ProductKey, id)
  }

  function ProductByName(ps: seq<ProductRow>, name: string): (r: Option<ProductRow>)
    ensures r.Some? <==> name in ProductNames(ps)
    ensures r.Some? ==> r.value in ps && r.value.name == name
  {
    FirstWithKey(ps, ProductNameKey, name)
  }

  function TransactionById(ts: seq<TransactionRow>, id: Id): (r: Option<TransactionRow>)
    ensures r.Some? <==> id in TransactionIds(ts)
    ensures r.Some? ==> r.value in ts && r.value.id == id
  {
    FirstWithKey(ts, TransactionKey, id)
  }

  /** Another product than `id` already uses `name`. */
  predicate NameTakenByOther(ps: seq<ProductRow>, id: Id, name: string) {
    exists p :: p in ps && p.id != id && p.name == name
  }
}
