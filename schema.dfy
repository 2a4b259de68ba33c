/** The relational store: tables of attribute rows, the columns each table
    holds, the `$fillable` allow-lists of the Eloquent models, the relations
    they declare, and the integrity constraints of the migrations together
    with the uniqueness rules the controllers maintain. */
module Schema {
  import opened Values

  type Id = int

  /** An Eloquent attribute bag: column name to stored value. */
  type Row = map<string, Value>

  /** A table: primary key to row. */
  type Table = map<Id, Row>

  /** A column read the way Eloquent reads it: an absent attribute is null. */
  function Col(row: Row, c: string): Value
  {
    if c in row then row[c] else VNull
  }

  // ---- Columns of each table (timestamps and the primary key left out) ----

  const UserColumns: set<string> := {"name", "email", "password", "agency_id"}
  const TokenColumns: set<string> := {"user_id"}
  const AgencyColumns: set<string> := {"name", "address", "phone", "email"}
  const CustomerColumns: set<string> := {"agency_id", "name", "dni"}
  const PhoneColumns: set<string> := {"customer_id", "operator_id", "phone", "equip", "imei"}
  const OperatorColumns: set<string> := {"name"}
  const SalesTypeColumns: set<string> := {"name", "description"}
  const SalesUserColumns: set<string> := {"agency_id", "name"}
  const TypificationColumns: set<string> := {"name"}
  const SaleColumns: set<string> :=
    {"user_id", "sales_user_id", "customer_id", "typification_id", "operator_id", "sales_type_id",
     "origin", "phone", "equip", "imei", "sales_order", "notes"}
  const RecordColumns: set<string> :=
    {"user_id", "operator_id", "customer_id", "sales_id", "phone", "schedule_1", "schedule_2", "schedule_3", "status"}

  // ---- The `$fillable` allow-lists ----

  const CustomerFillable: set<string> := {"id", "agency_id", "name", "dni", "created_at"}
  const PhoneFillable: set<string> := {"id", "phone", "created_at", "operator_id", "customer_id"}
  const SaleFillable: set<string> :=
    {"id", "user_id", "sales_user_id", "customer_id", "origin", "sales_order", "notes",
     "typification_id", "operator_id", "phone", "equip", "imei", "sales_type_id"}
  const RecordFillable: set<string> :=
    {"operator_id", "phone", "schedule_1", "schedule_2", "schedule_3", "user_id", "customer_id", "status"}
  const AgencyFillable: set<string> := {"id", "name", "address", "phone", "email"}
  const SalesUserFillable: set<string> := {"name", "created_at", "agency_id"}
  const OperatorFillable: set<string> := {"id", "name", "created_at"}
  const TypificationFillable: set<string> := {"id", "name"}

  /** A snapshot of every table, and each table's auto-increment counter:
      every migration declares `$table->id()`, so each table hands out its
      own keys 1, 2, 3, ... */
  datatype Db = Db(
    users: Table, tokens: Table, agencies: Table, customers: Table, phones: Table,
    operators: Table, salesTypes: Table, salesUsers: Table, typifications: Table,
    sales: Table, records: Table,
    nextUser: Id, nextToken: Id, nextAgency: Id, nextCustomer: Id, nextPhone: Id,
    nextOperator: Id, nextSalesType: Id, nextSalesUser: Id, nextTypification: Id,
    nextSale: Id, nextRecord: Id)

  /** The table a validation rule names, or None when no such table exists
      (the query then fails). */
  function TableNamed(db: Db, name: string): Option<Table>
  {
    if name == "users" then Some(db.users)
    else if name == "agencies" then Some(db.agencies)
    else if name == "customers" then Some(db.customers)
    else if name == "phones_numbers" then Some(db.phones)
    else if name == "operators" then Some(db.operators)
    else if name == "sales_types" then Some(db.salesTypes)
    else if name == "sales_users" then Some(db.salesUsers)
    else if name == "typifications" then Some(db.typifications)
    else if name == "sales" then Some(db.sales)
    else if name == "customer_records" then Some(db.records)
    else None
  }

  // ---- Column-level building blocks of the constraints ----

  /** A foreign-key value that names an existing row. */
  predicate Refers(v: Value, target: Table) { v.VInt? && v.i in target }

  predicate RefersOrNull(v: Value, target: Table) { v == VNull || Refers(v, target) }

  /** A value that fits a `string(n)` column. */
  predicate StrUpTo(v: Value, n: nat) { v.VStr? && |v.s| <= n }

  predicate StrOrNullUpTo(v: Value, n: nat) { v == VNull || StrUpTo(v, n) }

  /** Some row of `t` holds `v` in column `c`. */
  predicate Holds(t: Table, c: string, v: Value)
  {
    exists j :: j in t && Col(t[j], c) == v
  }

  /** No row other than `self` holds `v` in column `c`. */
  predicate FreshIn(t: Table, c: string, v: Value, self: Id)
  {
    forall j :: j in t && j != self ==> Col(t[j], c) != v
  }

  /** Every row has exactly the table's columns and a key in [1, bound). */
  predicate Shaped(t: Table, cols: set<string>, bound: Id)
  {
    forall i :: i in t ==> 1 <= i < bound && t[i].Keys == cols
  }

  predicate UniqueCol(t: Table, c: string)
  {
    forall i, j :: i in t && j in t && i != j ==> Col(t[i], c) != Col(t[j], c)
  }

  predicate UniqueNonNullCol(t: Table, c: string)
  {
    forall i, j :: i in t && j in t && i != j && Col(t[i], c) != VNull ==> Col(t[i], c) != Col(t[j], c)
  }

  predicate ColRefers(t: Table, c: string, target: Table)
  {
    forall i :: i in t ==> Refers(Col(t[i], c), target)
  }

  predicate ColRefersOrNull(t: Table, c: string, target: Table)
  {
    forall i :: i in t ==> RefersOrNull(Col(t[i], c), target)
  }

  predicate ColStrUpTo(t: Table, c: string, n: nat)
  {
    forall i :: i in t ==> StrUpTo(Col(t[i], c), n)
  }

  predicate ColStrOrNull(t: Table, c: string)
  {
    forall i :: i in t ==> Col(t[i], c) == VNull || Col(t[i], c).VStr?
  }

  predicate ColStrOrNullUpTo(t: Table, c: string, n: nat)
  {
    forall i :: i in t ==> StrOrNullUpTo(Col(t[i], c), n)
  }

  /** No row of `t` points at `id` through column `c` (what a restricting
      foreign key checks before the referenced row is deleted). */
  predicate Unreferenced(t: Table, c: string, id: Id)
  {
    forall i :: i in t ==> Col(t[i], c) != VInt(id)
  }

  // ---- Row-level constraints: what the database checks on insert and update ----

  /** create_phones_numbers_table: restricting foreign keys to customers and
      (nullable) operators, phone string(9) unique, equip string nullable,
      imei string(15) nullable unique. */
  predicate PhoneRowAccepted(row: Row, self: Id, phones: Table, customers: Table, operators: Table)
  {
    && row.Keys == PhoneColumns
    && Refers(row["customer_id"], customers)
    && RefersOrNull(row["operator_id"], operators)
    && StrUpTo(row["phone"], 9) && FreshIn(phones, "phone", row["phone"], self)
    && StrOrNullUpTo(row["equip"], 255)
    && StrOrNullUpTo(row["imei"], 15) && (row["imei"] == VNull || FreshIn(phones, "imei", row["imei"], self))
  }

  /** create_sales_table: six restricting foreign keys, origin string not
      null, phone string(9), equip string nullable, imei string(15) unique
      nullable, sales_order string(9) unique, notes nullable. */
  predicate SaleRowAccepted(row: Row, self: Id, db: Db)
  {
    && row.Keys == SaleColumns
    && Refers(row["user_id"], db.users)
    && Refers(row["sales_user_id"], db.salesUsers)
    && Refers(row["customer_id"], db.customers)
    && Refers(row["typification_id"], db.typifications)
    && Refers(row["operator_id"], db.operators)
    && Refers(row["sales_type_id"], db.salesTypes)
    && StrUpTo(row["origin"], 255)
    && StrUpTo(row["phone"], 9)
    && StrOrNullUpTo(row["equip"], 255)
    && StrOrNullUpTo(row["imei"], 15) && (row["imei"] == VNull || FreshIn(db.sales, "imei", row["imei"], self))
    && StrUpTo(row["sales_order"], 9) && FreshIn(db.sales, "sales_order", row["sales_order"], self)
    && (row["notes"] == VNull || row["notes"].VStr?)
  }

  /** create_customer_records_table: restricting foreign keys to users,
      operators, customers and (nullable) sales, phone string(9), three
      nullable schedules, boolean status. */
  predicate RecordRowAccepted(row: Row, db: Db)
  {
    && row.Keys == RecordColumns
    && Refers(row["user_id"], db.users)
    && Refers(row["operator_id"], db.operators)
    && Refers(row["customer_id"], db.customers)
    && RefersOrNull(row["sales_id"], db.sales)
    && StrUpTo(row["phone"], 9)
    && (row["schedule_1"] == VNull || row["schedule_1"].VStr?)
    && (row["schedule_2"] == VNull || row["schedule_2"].VStr?)
    && (row["schedule_3"] == VNull || row["schedule_3"].VStr?)
  }

  // ---- Table-level invariants ----

  predicate PhonesOk(phones: Table, customers: Table, operators: Table)
  {
    && ColRefers(phones, "customer_id", customers)
    && ColRefersOrNull(phones, "operator_id", operators)
    && ColStrUpTo(phones, "phone", 9) && UniqueCol(phones, "phone")
    && ColStrOrNullUpTo(phones, "equip", 255)
    && ColStrOrNullUpTo(phones, "imei", 15) && UniqueNonNullCol(phones, "imei")
  }

  predicate SalesOk(db: Db)
  {
    && ColRefers(db.sales, "user_id", db.users)
    && ColRefers(db.sales, "sales_user_id", db.salesUsers)
    && ColRefers(db.sales, "customer_id", db.customers)
    && ColRefers(db.sales, "typification_id", db.typifications)
    && ColRefers(db.sales, "operator_id", db.operators)
    && ColRefers(db.sales, "sales_type_id", db.salesTypes)
    && ColStrUpTo(db.sales, "origin", 255)
    && ColStrUpTo(db.sales, "phone", 9)
    && ColStrOrNullUpTo(db.sales, "equip", 255)
    && ColStrOrNullUpTo(db.sales, "imei", 15) && UniqueNonNullCol(db.sales, "imei")
    && ColStrUpTo(db.sales, "sales_order", 9) && UniqueCol(db.sales, "sales_order")
    && ColStrOrNull(db.sales, "notes")
  }

  predicate RecordsOk(db: Db)
  {
    && ColRefers(db.records, "user_id", db.users)
    && ColRefers(db.records, "operator_id", db.operators)
    && ColRefers(db.records, "customer_id", db.customers)
    && ColRefersOrNull(db.records, "sales_id", db.sales)
    && ColStrUpTo(db.records, "phone", 9)
    && ColStrOrNull(db.records, "schedule_1") && ColStrOrNull(db.records, "schedule_2")
    && ColStrOrNull(db.records, "schedule_3")
  }

  /** Uniqueness the controllers' validation maintains though no migration in
      the source declares it: user e-mail, agency e-mail, operator and sales
      user names, customer-record phone; and every token belongs to a user. */
  predicate AppUniqueOk(db: Db)
  {
    && UniqueCol(db.users, "email")
    && UniqueNonNullCol(db.agencies, "email")
    && UniqueCol(db.operators, "name")
    && UniqueCol(db.salesUsers, "name")
    && UniqueCol(db.records, "phone")
    && ColRefers(db.tokens, "user_id", db.users)
  }

  predicate AllShaped(db: Db)
  {
    && Shaped(db.users, UserColumns, db.nextUser)
    && Shaped(db.tokens, TokenColumns, db.nextToken)
    && Shaped(db.agencies, AgencyColumns, db.nextAgency)
    && Shaped(db.customers, CustomerColumns, db.nextCustomer)
    && Shaped(db.phones, PhoneColumns, db.nextPhone)
    && Shaped(db.operators, OperatorColumns, db.nextOperator)
    && Shaped(db.salesTypes, SalesTypeColumns, db.nextSalesType)
    && Shaped(db.salesUsers, SalesUserColumns, db.nextSalesUser)
    && Shaped(db.typifications, TypificationColumns, db.nextTypification)
    && Shaped(db.sales, SaleColumns, db.nextSale)
    && Shaped(db.records, RecordColumns, db.nextRecord)
  }

  /** Every auto-increment counter starts at 1 and never goes back. */
  predicate CountersStart(db: Db)
  {
    && db.nextUser >= 1 && db.nextToken >= 1 && db.nextAgency >= 1 && db.nextCustomer >= 1
    && db.nextPhone >= 1 && db.nextOperator >= 1 && db.nextSalesType >= 1 && db.nextSalesUser >= 1
    && db.nextTypification >= 1 && db.nextSale >= 1 && db.nextRecord >= 1
  }

  /** The store invariant. */
  predicate Consistent(db: Db)
  {
    && CountersStart(db)
    && AllShaped(db)
    && PhonesOk(db.phones, db.customers, db.operators)
    && SalesOk(db)
    && RecordsOk(db)
    && AppUniqueOk(db)
  }

  function EmptyDb(): (db: Db)
    ensures Consistent(db)
  {
    Db(map[], map[], map[], map[], map[], map[], map[], map[], map[], map[], map[], 1, 1, 1, 1, 1, 1, 1, 1, 1, 1, 1)
  }

  // ---- Relations the models declare ----

  /** The primary keys of the rows of `t` whose column `c` holds `VInt(id)`:
      Eloquent's `hasMany` keyed on `c`. */
  function HasMany(t: Table, c: string, id: Id): (r: set<Id>)
    ensures forall j :: j in r <==> j in t && Col(t[j], c) == VInt(id)
  {
    set j | j in t && Col(t[j], c) == VInt(id)
  }

  /** Eloquent's `belongsTo` through column `c`: the referenced row's key, if
      that row exists. */
  function BelongsTo(row: Row, c: string, target: Table): (r: Option<Id>)
    ensures r.Some? <==> Refers(Col(row, c), target)
    ensures r.Some? ==> r.value == Col(row, c).i && r.value in target
  {
    var v := Col(row, c);
    if v.VInt? && v.i in target then Some(v.i) else None
  }

  /** Customer::phoneNumbers, Customer::sales, Customer::customerRecords. */
  function CustomerPhones(db: Db, customer: Id): set<Id> { HasMany(db.phones, "customer_id", customer) }
  function CustomerSales(db: Db, customer: Id): set<Id> { HasMany(db.sales, "customer_id", customer) }
  function CustomerRecords(db: Db, customer: Id): set<Id> { HasMany(db.records, "customer_id", customer) }

  /** Agency::salesUser and SalesUser::sales. */
  function AgencySalesUsers(db: Db, agency: Id): set<Id> { HasMany(db.salesUsers, "agency_id", agency) }
  function SalesUserSales(db: Db, salesUser: Id): set<Id> { HasMany(db.sales, "sales_user_id", salesUser) }

  /** Operators::phoneNumbers declares `hasMany(PhonesNumber::class, 'id')`:
      the foreign key is the phone row's own primary key. */
  function OperatorPhoneNumbers(db: Db, operator: Id): set<Id>
  {
    set j | j in db.phones && j == operator
  }

  /** Operators::phoneNumbers finds at most the one phone row whose primary key
      equals the operator's key, whatever operator that phone row names. */
  lemma OperatorPhoneNumbersKeyedOnId(db: Db, operator: Id)
    ensures OperatorPhoneNumbers(db, operator) == if operator in db.phones then {operator} else {}
  {
  }

  /** Typification::sales declares `belongsTo(Sales::class, 'operator_id')`:
      it reads an `operator_id` attribute of the typification row. */
  function TypificationSale(db: Db, typification: Id): Option<Id>
    requires typification in db.typifications
  {
    BelongsTo(db.typifications[typification], "operator_id", db.sales)
  }

  /** Typification rows have no operator_id column, so the relation is always empty. */
  lemma TypificationSaleAlwaysNone(db: Db, typification: Id)
    requires Consistent(db) && typification in db.typifications
    ensures TypificationSale(db, typification) == None
  {
    assert db.typifications[typification].Keys == TypificationColumns;
  }

  /** A customer's phone numbers are exactly the phone rows naming it. */
  lemma CustomerPhonesExact(db: Db, customer: Id, j: Id)
    ensures j in CustomerPhones(db, customer) <==> j in db.phones && Col(db.phones[j], "customer_id") == VInt(customer)
  {
  }

  // ---- Writes ----

  /** The outcome of a controller action: the HTTP status and the tables after it. */
  datatype Reply = Reply(status: int, db: Db)

  /** The row an INSERT stores: each column of the table gets the given
      value, or else its default (null unless `defaults` names one). */
  function Fill(cols: set<string>, defaults: Row, given: Row): (r: Row)
    ensures r.Keys == cols
    ensures forall c :: c in cols && c in given ==> r[c] == given[c]
    ensures forall c :: c in cols && c !in given ==> r[c] == Col(defaults, c)
  {
    map c | c in cols :: if c in given then given[c] else Col(defaults, c)
  }

  /** An UPDATE of a row: the columns named in `changes` take the new values,
      every other column keeps its value. */
  function Overwrite(row: Row, changes: Payload): (r: Row)
    ensures r.Keys == row.Keys
    ensures forall c :: c in row && c in changes ==> r[c] == changes[c]
    ensures forall c :: c in row && c !in changes ==> r[c] == row[c]
  {
    map c | c in row :: if c in changes then changes[c] else row[c]
  }

  /** No table that a foreign key points at lost a key of `db`. */
  predicate KeysKept(db: Db, db2: Db)
  {
    && db.users.Keys <= db2.users.Keys && db.customers.Keys <= db2.customers.Keys
    && db.operators.Keys <= db2.operators.Keys && db.salesTypes.Keys <= db2.salesTypes.Keys
    && db.salesUsers.Keys <= db2.salesUsers.Keys && db.typifications.Keys <= db2.typifications.Keys
    && db.sales.Keys <= db2.sales.Keys
  }

  lemma ColRefersGrow(t: Table, c: string, a: Table, b: Table)
    requires ColRefers(t, c, a) && a.Keys <= b.Keys
    ensures ColRefers(t, c, b)
  {
    forall i | i in t ensures Refers(Col(t[i], c), b) {
      assert Refers(Col(t[i], c), a);
    }
  }

  lemma ColRefersOrNullGrow(t: Table, c: string, a: Table, b: Table)
    requires ColRefersOrNull(t, c, a) && a.Keys <= b.Keys
    ensures ColRefersOrNull(t, c, b)
  {
    forall i | i in t ensures RefersOrNull(Col(t[i], c), b) {
      assert RefersOrNull(Col(t[i], c), a);
    }
  }

  /** Removing a row that no value of column `c` names keeps `c`'s references. */
  lemma ColRefersShrink(t: Table, c: string, target: Table, id: Id)
    requires ColRefers(t, c, target) && Unreferenced(t, c, id)
    ensures ColRefers(t, c, target - {id})
  {
    forall i | i in t ensures Refers(Col(t[i], c), target - {id}) {
      assert Refers(Col(t[i], c), target) && Col(t[i], c) != VInt(id);
    }
  }

  lemma ColRefersOrNullShrink(t: Table, c: string, target: Table, id: Id)
    requires ColRefersOrNull(t, c, target) && Unreferenced(t, c, id)
    ensures ColRefersOrNull(t, c, target - {id})
  {
    forall i | i in t ensures RefersOrNull(Col(t[i], c), target - {id}) {
      assert RefersOrNull(Col(t[i], c), target) && Col(t[i], c) != VInt(id);
    }
  }

  /** Foreign keys that held keep holding while their targets only gain
      rows and the referencing tables stay as they are. */
  lemma LinksKept(db: Db, db2: Db)
    requires PhonesOk(db.phones, db.customers, db.operators) && SalesOk(db) && RecordsOk(db)
    requires ColRefers(db.tokens, "user_id", db.users)
    requires KeysKept(db, db2)
    requires db2.phones == db.phones && db2.sales == db.sales && db2.records == db.records && db2.tokens == db.tokens
    ensures PhonesOk(db2.phones, db2.customers, db2.operators) && SalesOk(db2) && RecordsOk(db2)
    ensures ColRefers(db2.tokens, "user_id", db2.users)
  {
    ColRefersGrow(db.phones, "customer_id", db.customers, db2.customers);
    ColRefersOrNullGrow(db.phones, "operator_id", db.operators, db2.operators);
    ColRefersGrow(db.sales, "user_id", db.users, db2.users);
    ColRefersGrow(db.sales, "sales_user_id", db.salesUsers, db2.salesUsers);
    ColRefersGrow(db.sales, "customer_id", db.customers, db2.customers);
    ColRefersGrow(db.sales, "typification_id", db.typifications, db2.typifications);
    ColRefersGrow(db.sales, "operator_id", db.operators, db2.operators);
    ColRefersGrow(db.sales, "sales_type_id", db.salesTypes, db2.salesTypes);
    ColRefersGrow(db.records, "user_id", db.users, db2.users);
    ColRefersGrow(db.records, "operator_id", db.operators, db2.operators);
    ColRefersGrow(db.records, "customer_id", db.customers, db2.customers);
    ColRefersOrNullGrow(db.records, "sales_id", db.sales, db2.sales);
    ColRefersGrow(db.tokens, "user_id", db.users, db2.users);
  }

  // ---- Lemmas: how single-row writes affect the invariants ----

  lemma UniqueColWrite(t: Table, c: string, n: Id, row: Row)
    requires UniqueCol(t, c) && FreshIn(t, c, Col(row, c), n)
    ensures UniqueCol(t[n := row], c)
  {
  }

  lemma UniqueNonNullColWrite(t: Table, c: string, n: Id, row: Row)
    requires UniqueNonNullCol(t, c) && (Col(row, c) == VNull || FreshIn(t, c, Col(row, c), n))
    ensures UniqueNonNullCol(t[n := row], c)
  {
  }

  lemma UniqueNonNullColKeep(t: Table, c: string, n: Id, row: Row)
    requires UniqueNonNullCol(t, c) && n in t && Col(row, c) == Col(t[n], c)
    ensures UniqueNonNullCol(t[n := row], c)
  {
  }

  /** A phone row the database accepts keeps the phones table consistent. */
  lemma PhonesWrite(phones: Table, customers: Table, operators: Table, n: Id, row: Row)
    requires PhonesOk(phones, customers, operators)
    requires PhoneRowAccepted(row, n, phones, customers, operators)
    ensures PhonesOk(phones[n := row], customers, operators)
  {
    UniqueColWrite(phones, "phone", n, row);
    UniqueNonNullColWrite(phones, "imei", n, row);
  }

  /** A sale row the database accepts keeps the sales table consistent. */
  lemma SalesWrite(db: Db, n: Id, row: Row)
    requires SalesOk(db) && SaleRowAccepted(row, n, db)
    ensures SalesOk(db.(sales := db.sales[n := row]))
  {
    UniqueColWrite(db.sales, "sales_order", n, row);
    UniqueNonNullColWrite(db.sales, "imei", n, row);
  }

  lemma ShapedWrite(t: Table, cols: set<string>, bound: Id, n: Id, row: Row)
    requires Shaped(t, cols, bound) && 1 <= n < bound && row.Keys == cols
    ensures Shaped(t[n := row], cols, bound)
  {
  }

  lemma ShapedGrow(t: Table, cols: set<string>, bound: Id)
    requires Shaped(t, cols, bound)
    ensures Shaped(t, cols, bound + 1)
  {
  }

  /** Replacing the phones table by one that keeps the phone invariants
      keeps the store consistent: nothing points at a phone row. */
  lemma PhonesReplaced(db: Db, phones: Table, bound: Id)
    requires Consistent(db) && (bound == db.nextPhone || bound == db.nextPhone + 1)
    requires PhonesOk(phones, db.customers, db.operators) && Shaped(phones, PhoneColumns, bound)
    ensures Consistent(db.(phones := phones, nextPhone := bound))
  {
    var db2 := db.(phones := phones, nextPhone := bound);
    assert SalesOk(db2) by { assert SalesOk(db); }
    assert RecordsOk(db2) by { assert RecordsOk(db); }
    assert AppUniqueOk(db2) by { assert AppUniqueOk(db); }
  }
  /** A record row the database accepts keeps the record invariants, and so
      does the controllers' phone uniqueness when the phone is fresh. */
  lemma RecordsWrite(db: Db, n: Id, row: Row)
    requires RecordsOk(db) && RecordRowAccepted(row, db)
    ensures RecordsOk(db.(records := db.records[n := row]))
  {
  }

  /** Replacing the customer-records table by one that keeps the record
      invariants keeps the store consistent: nothing points at a record. */
  lemma RecordsReplaced(db: Db, records: Table, bound: Id)
    requires Consistent(db) && (bound == db.nextRecord || bound == db.nextRecord + 1)
    requires RecordsOk(db.(records := records)) && UniqueCol(records, "phone")
    requires Shaped(records, RecordColumns, bound)
    ensures Consistent(db.(records := records, nextRecord := bound))
  {
    var db2 := db.(records := records, nextRecord := bound);
    assert PhonesOk(db2.phones, db2.customers, db2.operators);
    assert SalesOk(db2) by { assert SalesOk(db); }
    assert RecordsOk(db2) by { assert RecordsOk(db.(records := records)); }
    assert AppUniqueOk(db2) by { assert AppUniqueOk(db); }
  }

  /** Replacing the sales table by one that keeps the sale invariants, and
      that still holds every sale a customer record names, keeps the store
      consistent. */
  lemma SalesReplaced(db: Db, sales: Table, bound: Id)
    requires Consistent(db) && (bound == db.nextSale || bound == db.nextSale + 1)
    requires SalesOk(db.(sales := sales)) && Shaped(sales, SaleColumns, bound)
    requires ColRefersOrNull(db.records, "sales_id", sales)
    ensures Consistent(db.(sales := sales, nextSale := bound))
  {
    var db2 := db.(sales := sales, nextSale := bound);
    assert PhonesOk(db2.phones, db2.customers, db2.operators);
    assert SalesOk(db2) by { assert SalesOk(db.(sales := sales)); }
    assert RecordsOk(db2) by { assert RecordsOk(db); }
    assert AppUniqueOk(db2) by { assert AppUniqueOk(db); }
  }

  /** Replacing the agencies by a table whose non-null e-mails are unique keeps the store consistent. */
  lemma AgenciesReplaced(db: Db, t: Table, bound: Id)
    requires Consistent(db) && (bound == db.nextAgency || bound == db.nextAgency + 1)
    requires Shaped(t, AgencyColumns, bound) && UniqueNonNullCol(t, "email")
    ensures Consistent(db.(agencies := t, nextAgency := bound))
  {
    var db2 := db.(agencies := t, nextAgency := bound);
    LinksKept(db, db2);
    assert AppUniqueOk(db2) by { assert AppUniqueOk(db); }
  }

  /** Replacing the operators by a table that keeps every key and unique names keeps the store consistent. */
  lemma OperatorsReplaced(db: Db, t: Table, bound: Id)
    requires Consistent(db) && (bound == db.nextOperator || bound == db.nextOperator + 1)
    requires db.operators.Keys <= t.Keys && Shaped(t, OperatorColumns, bound) && UniqueCol(t, "name")
    ensures Consistent(db.(operators := t, nextOperator := bound))
  {
    var db2 := db.(operators := t, nextOperator := bound);
    LinksKept(db, db2);
    assert AppUniqueOk(db2) by { assert AppUniqueOk(db); }
  }

  /** Replacing the sales types by a table that keeps every key keeps the store consistent. */
  lemma SalesTypesReplaced(db: Db, t: Table, bound: Id)
    requires Consistent(db) && (bound == db.nextSalesType || bound == db.nextSalesType + 1)
    requires db.salesTypes.Keys <= t.Keys && Shaped(t, SalesTypeColumns, bound)
    ensures Consistent(db.(salesTypes := t, nextSalesType := bound))
  {
    var db2 := db.(salesTypes := t, nextSalesType := bound);
    LinksKept(db, db2);
    assert AppUniqueOk(db2) by { assert AppUniqueOk(db); }
  }

  /** Replacing the sales users by a table that keeps every key and unique names keeps the store consistent. */
  lemma SalesUsersReplaced(db: Db, t: Table, bound: Id)
    requires Consistent(db) && (bound == db.nextSalesUser || bound == db.nextSalesUser + 1)
    requires db.salesUsers.Keys <= t.Keys && Shaped(t, SalesUserColumns, bound) && UniqueCol(t, "name")
    ensures Consistent(db.(salesUsers := t, nextSalesUser := bound))
  {
    var db2 := db.(salesUsers := t, nextSalesUser := bound);
    LinksKept(db, db2);
    assert AppUniqueOk(db2) by { assert AppUniqueOk(db); }
  }

  /** Replacing the typifications by a table that keeps every key keeps the store consistent. */
  lemma TypificationsReplaced(db: Db, t: Table, bound: Id)
    requires Consistent(db) && (bound == db.nextTypification || bound == db.nextTypification + 1)
    requires db.typifications.Keys <= t.Keys && Shaped(t, TypificationColumns, bound)
    ensures Consistent(db.(typifications := t, nextTypification := bound))
  {
    var db2 := db.(typifications := t, nextTypification := bound);
    LinksKept(db, db2);
    assert AppUniqueOk(db2) by { assert AppUniqueOk(db); }
  }
}
