/** SalesController: the sales resource. Show, update and destroy find a
    sale by its `sales_order`, not by its key. */
module Sales {
  import opened Values
  import opened Schema
  import opened Rules
  import opened Query

  // ---- What show and index send ----

  /** `$sale->rel ? $sale->rel->field : ''` for a `belongsTo` through column `c`. */
  function Related(row: Row, c: string, target: Table, field: string): Value
  {
    match BelongsTo(row, c, target)
    case None => VStr("")
    case Some(k) => Col(target[k], field)
  }

  /** `$sale->salesUser->agency->name` can be read: the sale has no sales
      user, or its sales user's agency exists. Reading `name` through a
      missing agency raises an error, which the action's catch turns into
      500. Nothing in the schema makes `sales_users.agency_id` refer. */
  predicate AgencyLoaded(db: Db, j: Id)
    requires j in db.sales
  {
    match BelongsTo(db.sales[j], "sales_user_id", db.salesUsers)
    case None => true
    case Some(u) => BelongsTo(db.salesUsers[u], "agency_id", db.agencies).Some?
  }

  /** `$sale->salesUser && $sale->salesUser->agency->name ? … : ''` */
  function AgencyName(db: Db, j: Id): (r: Value)
    requires j in db.sales && AgencyLoaded(db, j)
    ensures r == VStr("") || Truthy(r)
  {
    match BelongsTo(db.sales[j], "sales_user_id", db.salesUsers)
    case None => VStr("")
    case Some(u) =>
      var a := BelongsTo(db.salesUsers[u], "agency_id", db.agencies).value;
      var name := Col(db.agencies[a], "name");
      if Truthy(name) then name else VStr("")
  }

  /** The object show sends for a sale. Customers have no address column,
      so `$sale->customer->address ?? ''` is always ''. */
  function Json(db: Db, j: Id): Payload
    requires j in db.sales && AgencyLoaded(db, j)
  {
    var row := db.sales[j];
    map["id" := VInt(j),
        "agency" := AgencyName(db, j),
        "consultant" := Related(row, "user_id", db.users, "name"),
        "sales_user" := Related(row, "sales_user_id", db.salesUsers, "name"),
        "customer" := Related(row, "customer_id", db.customers, "name"),
        "typification" := Related(row, "typification_id", db.typifications, "name"),
        "dni" := Related(row, "customer_id", db.customers, "dni"),
        "address" := CustomerAddress(db, row),
        "phone" := Coalesce(Col(row, "phone"), VStr("")),
        "origin" := Col(row, "origin"),
        "equip" := Coalesce(Col(row, "equip"), VStr("")),
        "imei" := Coalesce(Col(row, "imei"), VStr("")),
        "sales_order" := Coalesce(Col(row, "sales_order"), VStr("")),
        "notes" := Coalesce(Col(row, "notes"), VStr(""))]
  }

  /** `$sale->customer->address ?? ''`: null-safe along the whole chain. */
  function CustomerAddress(db: Db, row: Row): (r: Value)
    ensures r != VNull
  {
    match BelongsTo(row, "customer_id", db.customers)
    case None => VStr("")
    case Some(k) => Coalesce(Col(db.customers[k], "address"), VStr(""))
  }

  /** The object index sends: the same, with `sales_order` as stored. */
  function IndexJson(db: Db, j: Id): Payload
    requires j in db.sales && AgencyLoaded(db, j)
  {
    Json(db, j)["sales_order" := Col(db.sales[j], "sales_order")]
  }

  // ---- The actions ----

  /** The keys index lists: page `page` in key order, `per_page` (10 when
      absent) per page. */
  function IndexIds(db: Db, perPage: Option<nat>, page: Option<int>): (ids: seq<Id>)
    ensures forall j :: j in ids ==> j in db.sales
  {
    Page(IdsIn(db.sales, 1, db.nextSale), CurrentPage(page), PerPage(perPage, 10))
  }

  predicate AllLoaded(db: Db, ids: seq<Id>)
    requires forall j :: j in ids ==> j in db.sales
  {
    forall i :: 0 <= i < |ids| ==> AgencyLoaded(db, ids[i])
  }

  /** The objects sent for a page of sales, in the page's order. */
  function JsonPage(db: Db, ids: seq<Id>): (r: seq<Payload>)
    requires forall j :: j in ids ==> j in db.sales
    requires AllLoaded(db, ids)
    ensures |r| == |ids| && forall i :: 0 <= i < |ids| ==> "id" in r[i] && r[i]["id"] == VInt(ids[i])
  {
    seq(|ids|, i requires 0 <= i < |ids| => IndexJson(db, ids[i]))
  }

  /** index: a paginator is never falsy, so the 404 branch is dead; a sale
      whose sales user lacks its agency makes the mapping fail (500). */
  function Index(db: Db, perPage: Option<nat>, page: Option<int>): Shown
  {
    var ids := IndexIds(db, perPage, page);
    if !AllLoaded(db, ids) then Shown(500, []) else Shown(200, JsonPage(db, ids))
  }

  /** `Sales::where('sales_order', $id)->first()` */
  function ByOrder(db: Db, order: string): Option<Id>
  {
    FirstIn(db.sales, "sales_order", VStr(order), 1, db.nextSale)
  }

  /** show: the first sale with that order, or 404. */
  function Show(db: Db, order: string): Shown
  {
    match ByOrder(db, order)
    case None => Shown(404, [])
    case Some(j) => if !AgencyLoaded(db, j) then Shown(500, []) else Shown(200, [Json(db, j)])
  }

  /** The row `Sales::create` inserts: every validated field is on the
      allow-list; the others stay null. */
  function NewRow(p: Payload): Row
  {
    Fill(SaleColumns, map[], Only(Validated(SaleStoreRules, p), SaleFillable))
  }

  /** store: validate (500), then insert (201). Validation does not check
      imei uniqueness nor the lengths of origin and equip, so the database
      can still refuse the row (500). */
  function Store(db: Db, p: Payload): Reply
  {
    if !Passes(SaleStoreRules, p, db) then Reply(500, db) else InsertSale(db, NewRow(p))
  }

  /** An insert into sales: 201 with the row under the next key when the
      database accepts it, 500 and no change otherwise. */
  function InsertSale(db: Db, row: Row): (r: Reply)
    ensures r.status == 201 <==> SaleRowAccepted(row, db.nextSale, db)
    ensures r.status != 201 ==> r == Reply(500, db)
    ensures r.status == 201 ==> r.db == db.(sales := db.sales[db.nextSale := row], nextSale := db.nextSale + 1)
  {
    if !SaleRowAccepted(row, db.nextSale, db) then Reply(500, db)
    else Reply(201, db.(sales := db.sales[db.nextSale := row], nextSale := db.nextSale + 1))
  }

  /** An update of sale `j`: 200 when the database accepts the new row,
      500 and no change otherwise. */
  function ReplaceSale(db: Db, j: Id, row: Row): (r: Reply)
    ensures r.status == 200 <==> SaleRowAccepted(row, j, db)
    ensures r.status != 200 ==> r == Reply(500, db)
    ensures r.status == 200 ==> r.db == db.(sales := db.sales[j := row])
  {
    if !SaleRowAccepted(row, j, db) then Reply(500, db) else Reply(200, db.(sales := db.sales[j := row]))
  }

  /** What `$sale->update($validated)` writes: the validated fields, with
      no `array_filter`. */
  function Changes(p: Payload): Payload
  {
    Only(Validated(SaleUpdateRules, p), SaleFillable)
  }

  /** update: validate (500) before looking the sale up (404), then write
      the validated fields; the database can refuse the row (500). */
  function Update(db: Db, order: string, p: Payload): Reply
  {
    if !Passes(SaleUpdateRules, p, db) then Reply(500, db)
    else
      match ByOrder(db, order)
      case None => Reply(404, db)
      case Some(j) => ReplaceSale(db, j, Overwrite(db.sales[j], Changes(p)))
  }

  /** destroy: the first sale with that order (404), deleted unless a
      customer record still names it (the restricting foreign key, 500). */
  function Destroy(db: Db, order: string): Reply
  {
    match ByOrder(db, order)
    case None => Reply(404, db)
    case Some(j) =>
      if !Unreferenced(db.records, "sales_id", j) then Reply(500, db)
      else Reply(200, db.(sales := db.sales - {j}))
  }

  // ---- Properties ----

  lemma KeyRuleKeys()
    ensures Keys(SaleStoreKeyRules) ==
      {"user_id", "sales_user_id", "customer_id", "operator_id", "sales_type_id", "typification_id"}
  {
    var a := SaleStoreKeyRules;
    assert a[0].0 == "user_id" && a[1].0 == "sales_user_id" && a[2].0 == "customer_id";
    assert a[3].0 == "operator_id" && a[4].0 == "sales_type_id" && a[5].0 == "typification_id";
  }

  lemma ValueRuleKeys()
    ensures Keys(SaleStoreValueRules) == {"origin", "sales_order", "phone", "equip", "imei", "notes"}
  {
    var b := SaleStoreValueRules;
    assert b[0].0 == "origin" && b[1].0 == "sales_order" && b[2].0 == "phone";
    assert b[3].0 == "equip" && b[4].0 == "imei" && b[5].0 == "notes";
  }

  /** Store validates exactly the columns of a sale. */
  lemma StoreRuleKeys()
    ensures Keys(SaleStoreRules) == SaleColumns
  {
    KeyRuleKeys();
    ValueRuleKeys();
    KeysConcat(SaleStoreKeyRules, SaleStoreValueRules);
  }

  /** Every column of a sale is on the allow-list, timestamps are not. */
  lemma FillableColumns()
    ensures SaleColumns <= SaleFillable
    ensures "created_at" !in SaleFillable && "updated_at" !in SaleFillable
  {
  }

  /** The inserted row holds, in every column, the submitted value (null
      when not sent): store persists every validated field. */
  lemma NewRowHolds(p: Payload)
    ensures NewRow(p).Keys == SaleColumns
    ensures forall c :: c in SaleColumns ==> NewRow(p)[c] == Col(p, c)
  {
    StoreRuleKeys();
    FillableColumns();
  }

  /** What the database checks on insert beyond what store validates:
      origin and equip fit their `string` columns and imei is not taken. */
  predicate InsertFits(p: Payload, db: Db)
  {
    && StrUpTo(Col(p, "origin"), 255)
    && StrOrNullUpTo(Col(p, "equip"), 255)
    && (Col(p, "imei") == VNull || !Holds(db.sales, "imei", Col(p, "imei")))
  }

  /** A body that passes store's validation gives a row whose foreign keys
      refer, whose phone and sales_order fit, whose sales_order is new and
      whose imei, when sent, has 15 digits. */
  lemma ValidatedRow(db: Db, p: Payload)
    requires Passes(SaleStoreRules, p, db) && db.nextSale !in db.sales
    ensures var row := NewRow(p);
      && row.Keys == SaleColumns
      && Refers(row["user_id"], db.users) && Refers(row["sales_user_id"], db.salesUsers)
      && Refers(row["customer_id"], db.customers) && Refers(row["typification_id"], db.typifications)
      && Refers(row["operator_id"], db.operators) && Refers(row["sales_type_id"], db.salesTypes)
      && StrUpTo(row["phone"], 9)
      && StrUpTo(row["sales_order"], 9) && FreshIn(db.sales, "sales_order", row["sales_order"], db.nextSale)
      && StrOrNullUpTo(row["imei"], 15)
      && (row["notes"] == VNull || row["notes"].VStr?)
  {
    SaleStoreAccepts(p, db);
    SaleStoreKeysAccepted(p, db);
    SaleStoreValuesAccepted(p, db);
    NewRowHolds(p);
  }

  /** After validation the database accepts the new sale exactly when it
      fits: a duplicate imei, or an origin or equip longer than 255
      characters, still fails at the insert. */
  lemma StoreRowAccepted(db: Db, p: Payload)
    requires Passes(SaleStoreRules, p, db) && db.nextSale !in db.sales
    ensures SaleRowAccepted(NewRow(p), db.nextSale, db) <==> InsertFits(p, db)
  {
    ValidatedRow(db, p);
    NewRowHolds(p);
    var row := NewRow(p);
    assert row["origin"] == Col(p, "origin") && row["equip"] == Col(p, "equip") && row["imei"] == Col(p, "imei");
  }

  /** On a consistent store the next key is free. */
  lemma NextKeyFree(db: Db)
    requires Consistent(db)
    ensures db.nextSale !in db.sales
  {
    assert Shaped(db.sales, SaleColumns, db.nextSale);
  }

  /** Store answers 201 exactly when the body validates and the database
      accepts the row; otherwise 500, and nothing changes. */
  lemma StoreStatus(db: Db, p: Payload)
    requires Consistent(db)
    ensures var r := Store(db, p);
      && (r.status == 201 <==> Passes(SaleStoreRules, p, db) && InsertFits(p, db))
      && (r.status != 201 ==> r.status == 500 && r.db == db)
  {
    NextKeyFree(db);
    if Passes(SaleStoreRules, p, db) { StoreRowAccepted(db, p); }
  }

  /** Store does not check imei uniqueness: a body carrying the imei of a
      stored sale fails at the insert, with 500, whatever else it holds. */
  lemma StoreTakenImeiFails(db: Db, p: Payload, j: Id)
    requires Consistent(db)
    requires j in db.sales && "imei" in p && p["imei"] != VNull && Col(db.sales[j], "imei") == p["imei"]
    ensures Store(db, p).status == 500 && Store(db, p).db == db
  {
    if Passes(SaleStoreRules, p, db) {
      NextKeyFree(db);
      NewRowHolds(p);
      assert NewRow(p)["imei"] == p["imei"];
      assert !FreshIn(db.sales, "imei", p["imei"], db.nextSale) by { assert j != db.nextSale; }
    }
  }

  /** A store answering 201 took the insert branch. */
  lemma StoreSteps(db: Db, p: Payload)
    requires Store(db, p).status == 201
    ensures Passes(SaleStoreRules, p, db) && SaleRowAccepted(NewRow(p), db.nextSale, db)
    ensures Store(db, p).db == db.(sales := db.sales[db.nextSale := NewRow(p)], nextSale := db.nextSale + 1)
  {
  }

  /** A successful store adds one sale, under the next key, holding in
      every column the submitted value (null when not sent). */
  lemma StoreAddsRow(db: Db, p: Payload)
    requires Store(db, p).status == 201
    ensures var r := Store(db, p); var n := db.nextSale;
      && r.db.sales.Keys == db.sales.Keys + {n} && r.db.nextSale == n + 1
      && r.db.sales[n].Keys == SaleColumns
      && (forall c :: c in SaleColumns ==> r.db.sales[n][c] == Col(p, c))
  {
    StoreSteps(db, p);
    NewRowHolds(p);
  }

  /** A successful store changes no existing sale and no other table. */
  lemma StoreKeepsRows(db: Db, p: Payload)
    requires Store(db, p).status == 201
    ensures var r := Store(db, p);
      && (forall j :: j in db.sales && j != db.nextSale ==> r.db.sales[j] == db.sales[j])
      && r.db.(sales := db.sales, nextSale := db.nextSale) == db
  {
    StoreSteps(db, p);
  }

  /** The sales table after a successful store keeps the sale invariants. */
  lemma StoreTableOk(db: Db, p: Payload)
    requires db.nextSale >= 1 && SalesOk(db) && Shaped(db.sales, SaleColumns, db.nextSale)
    requires Store(db, p).status == 201
    ensures var t := Store(db, p).db.sales;
      SalesOk(db.(sales := t)) && Shaped(t, SaleColumns, db.nextSale + 1) && db.sales.Keys <= t.Keys
  {
    StoreSteps(db, p);
    var n := db.nextSale;
    var row := NewRow(p);
    assert SaleRowAccepted(row, n, db);
    assert row.Keys == SaleColumns;
    SalesWrite(db, n, row);
    ShapedGrow(db.sales, SaleColumns, n);
    ShapedWrite(db.sales, SaleColumns, n + 1, n, row);
  }

  lemma StorePreserves(db: Db, p: Payload)
    requires Consistent(db)
    ensures Consistent(Store(db, p).db)
  {
    if Store(db, p).status == 201 {
      var t := Store(db, p).db.sales;
      StoreTableOk(db, p);
      assert ColRefersOrNull(db.records, "sales_id", db.sales) by { assert RecordsOk(db); }
      ColRefersOrNullGrow(db.records, "sales_id", db.sales, t);
      SalesReplaced(db, t, db.nextSale + 1);
      StoreSteps(db, p);
    }
  }

  // ---- show ----

  /** On a consistent store a sale is found by its order exactly when one
      holds it, and it is then the only one. */
  lemma ByOrderFinds(db: Db, order: string)
    requires Consistent(db)
    ensures ByOrder(db, order).Some? <==> Holds(db.sales, "sales_order", VStr(order))
    ensures ByOrder(db, order).Some? ==>
      var j := ByOrder(db, order).value;
      && j in db.sales && Col(db.sales[j], "sales_order") == VStr(order)
      && forall i :: i in db.sales && i != j ==> Col(db.sales[i], "sales_order") != VStr(order)
  {
    assert KeysBelow(db.sales, db.nextSale) by { assert Shaped(db.sales, SaleColumns, db.nextSale); }
    FirstFindsHeld(db.sales, "sales_order", VStr(order), db.nextSale);
    assert UniqueCol(db.sales, "sales_order") by { assert SalesOk(db); }
  }

  /** What the object sent for a sale holds: its key, its order, the agency
      name when it is truthy and '' otherwise, and '' for the address,
      since customers have no address column. */
  lemma JsonFields(db: Db, j: Id)
    requires Shaped(db.customers, CustomerColumns, db.nextCustomer)
    requires j in db.sales && AgencyLoaded(db, j)
    ensures var d := Json(db, j);
      && d["id"] == VInt(j) && d["agency"] == AgencyName(db, j)
      && d["sales_order"] == Coalesce(Col(db.sales[j], "sales_order"), VStr(""))
      && d["address"] == VStr("")
  {
    AddressEmpty(db, db.sales[j]);
  }

  lemma AddressEmpty(db: Db, row: Row)
    requires Shaped(db.customers, CustomerColumns, db.nextCustomer)
    ensures CustomerAddress(db, row) == VStr("")
  {
    var c := BelongsTo(row, "customer_id", db.customers);
    if c.Some? {
      assert db.customers[c.value].Keys == CustomerColumns;
    }
  }

  /** Show answers 404 exactly when no sale has the order; otherwise 500
      exactly when the sale's sales user lacks its agency, and 200 with
      that sale. */
  lemma ShowOutcome(db: Db, order: string)
    requires Consistent(db)
    ensures var s := Show(db, order);
      && (s.status == 404 <==> !Holds(db.sales, "sales_order", VStr(order)))
      && (s.status != 404 ==>
            var j := ByOrder(db, order).value;
            && j in db.sales && Col(db.sales[j], "sales_order") == VStr(order)
            && (s.status == 500 <==> !AgencyLoaded(db, j))
            && (s.status == 200 ==> |s.data| == 1 && s.data[0]["id"] == VInt(j)
                                    && s.data[0]["sales_order"] == VStr(order)
                                    && s.data[0]["address"] == VStr("")))
  {
    ByOrderFinds(db, order);
    if ByOrder(db, order).Some? {
      var j := ByOrder(db, order).value;
      if AgencyLoaded(db, j) {
        assert Show(db, order) == Shown(200, [Json(db, j)]);
        JsonFields(db, j);
      }
    }
  }

  /** A stored sale is the one its order finds, so show reaches it. */
  lemma StoreThenShow(db: Db, p: Payload)
    requires Consistent(db) && Store(db, p).status == 201
    ensures Col(p, "sales_order").VStr?
    ensures var d := Store(db, p).db; var s := Show(d, Col(p, "sales_order").s);
      && ByOrder(d, Col(p, "sales_order").s) == Some(db.nextSale)
      && (s.status == 200 <==> AgencyLoaded(d, db.nextSale))
      && (s.status == 200 ==> s.data[0]["id"] == VInt(db.nextSale) && s.data[0]["sales_order"] == p["sales_order"])
  {
    StoreAddsRow(db, p);
    StorePreserves(db, p);
    var d := Store(db, p).db;
    var n := db.nextSale;
    assert SaleRowAccepted(NewRow(p), n, db) by { StoreSteps(db, p); }
    NewRowHolds(p);
    var order := Col(p, "sales_order");
    assert order.VStr?;
    ByOrderFinds(d, order.s);
    ShowOutcome(d, order.s);
  }

  // ---- update ----

  lemma UpdateKeyRuleKeys()
    ensures Keys(SaleUpdateKeyRules) == {"user_id", "sales_user_id", "customer_id", "typification_id", "operator_id"}
  {
    var a := SaleUpdateKeyRules;
    assert a[0].0 == "user_id" && a[1].0 == "sales_user_id" && a[2].0 == "customer_id";
    assert a[3].0 == "typification_id" && a[4].0 == "operator_id";
  }

  lemma UpdateValueRuleKeys()
    ensures Keys(SaleUpdateValueRules) == {"origin", "sales_order", "phone", "equip", "imei", "notes"}
  {
    var b := SaleUpdateValueRules;
    assert b[0].0 == "origin" && b[1].0 == "sales_order" && b[2].0 == "phone";
    assert b[3].0 == "equip" && b[4].0 == "imei" && b[5].0 == "notes";
  }

  /** Update validates every column of a sale except sales_type_id. */
  lemma UpdateRuleKeys()
    ensures Keys(SaleUpdateRules) == SaleColumns - {"sales_type_id"}
  {
    UpdateKeyRuleKeys();
    UpdateValueRuleKeys();
    KeysConcat(SaleUpdateKeyRules, SaleUpdateValueRules);
    UpdatedColumns();
  }

  /** The key columns and the value columns update validates make up every
      sale column but sales_type_id. */
  lemma UpdatedColumns()
    ensures {"user_id", "sales_user_id", "customer_id", "typification_id", "operator_id"}
          + {"origin", "sales_order", "phone", "equip", "imei", "notes"}
         == SaleColumns - {"sales_type_id"}
  {
  }

  /** An update writes every validated field that is present, whatever its
      value: there is no `array_filter`. */
  lemma ChangesKeys(p: Payload)
    ensures forall k :: k in Changes(p) <==> k in p && k in SaleColumns && k != "sales_type_id"
    ensures forall k :: k in Changes(p) ==> Changes(p)[k] == p[k]
  {
    UpdateRuleKeys();
    FillableColumns();
  }

  /** What a valid update writes: each field of the kind its column takes. */
  lemma ChangesHold(p: Payload, db: Db)
    requires Passes(SaleUpdateRules, p, db)
    ensures var d := Changes(p);
      && "operator_id" !in d && "sales_type_id" !in d
      && ("user_id" in d ==> Refers(d["user_id"], db.users))
      && ("sales_user_id" in d ==> Refers(d["sales_user_id"], db.salesUsers))
      && ("customer_id" in d ==> Refers(d["customer_id"], db.customers))
      && ("typification_id" in d ==> Refers(d["typification_id"], db.typifications))
      && ("origin" in d ==> d["origin"].VStr?)
      && ("sales_order" in d ==> StrUpTo(d["sales_order"], 9) && !Holds(db.sales, "sales_order", d["sales_order"]))
      && ("phone" in d ==> StrUpTo(d["phone"], 9))
      && ("equip" in d ==> d["equip"].VStr?)
      && ("imei" in d ==> StrUpTo(d["imei"], 15))
      && ("notes" in d ==> d["notes"].VStr?)
  {
    ChangesKeys(p);
    SaleUpdateAccepts(p, db);
    SaleUpdateKeysAccepted(p, db);
    SaleUpdateValuesAccepted(p, db);
  }

  /** Every stored sale is a row the database accepts. */
  lemma StoredAccepted(db: Db, j: Id)
    requires Consistent(db) && j in db.sales
    ensures SaleRowAccepted(db.sales[j], j, db)
  {
    var row := db.sales[j];
    assert row.Keys == SaleColumns by { assert Shaped(db.sales, SaleColumns, db.nextSale); }
    assert SalesOk(db);
    assert Refers(Col(row, "user_id"), db.users) && Refers(Col(row, "sales_user_id"), db.salesUsers);
    assert Refers(Col(row, "customer_id"), db.customers) && Refers(Col(row, "typification_id"), db.typifications);
    assert Refers(Col(row, "operator_id"), db.operators) && Refers(Col(row, "sales_type_id"), db.salesTypes);
    assert StrUpTo(Col(row, "origin"), 255) && StrUpTo(Col(row, "phone"), 9);
    assert StrOrNullUpTo(Col(row, "equip"), 255) && StrOrNullUpTo(Col(row, "imei"), 15);
    assert StrUpTo(Col(row, "sales_order"), 9);
    assert Col(row, "notes") == VNull || Col(row, "notes").VStr?;
    assert FreshIn(db.sales, "sales_order", Col(row, "sales_order"), j);
    assert Col(row, "imei") == VNull || FreshIn(db.sales, "imei", Col(row, "imei"), j);
  }

  /** What the database checks on update beyond what update validates:
      origin and equip, when sent, fit their columns, and an imei sent is
      held by no other sale. */
  predicate UpdateFits(p: Payload, db: Db, j: Id)
  {
    && ("origin" in p ==> StrUpTo(p["origin"], 255))
    && ("equip" in p ==> StrUpTo(p["equip"], 255))
    && ("imei" in p ==> FreshIn(db.sales, "imei", p["imei"], j))
  }

  /** Overwriting an accepted sale with fields of the right kinds gives an
      accepted sale exactly when the fields fit. */
  lemma OverwriteAccepted(row: Row, d: Payload, j: Id, db: Db)
    requires SaleRowAccepted(row, j, db)
    requires "operator_id" !in d && "sales_type_id" !in d
    requires "user_id" in d ==> Refers(d["user_id"], db.users)
    requires "sales_user_id" in d ==> Refers(d["sales_user_id"], db.salesUsers)
    requires "customer_id" in d ==> Refers(d["customer_id"], db.customers)
    requires "typification_id" in d ==> Refers(d["typification_id"], db.typifications)
    requires "origin" in d ==> d["origin"].VStr?
    requires "sales_order" in d ==> StrUpTo(d["sales_order"], 9) && !Holds(db.sales, "sales_order", d["sales_order"])
    requires "phone" in d ==> StrUpTo(d["phone"], 9)
    requires "equip" in d ==> d["equip"].VStr?
    requires "imei" in d ==> StrUpTo(d["imei"], 15)
    requires "notes" in d ==> d["notes"].VStr?
    ensures SaleRowAccepted(Overwrite(row, d), j, db) <==> UpdateFits(d, db, j)
  {
  }

  /** After validation the database accepts the updated sale exactly when
      the fields fit; a sales_order sent is new, so it never clashes. */
  lemma UpdateRowAccepted(db: Db, j: Id, p: Payload)
    requires Consistent(db) && j in db.sales && Passes(SaleUpdateRules, p, db)
    ensures SaleRowAccepted(Overwrite(db.sales[j], Changes(p)), j, db) <==> UpdateFits(p, db, j)
  {
    StoredAccepted(db, j);
    ChangesHold(p, db);
    ChangesKeys(p);
    OverwriteAccepted(db.sales[j], Changes(p), j, db);
    assert UpdateFits(Changes(p), db, j) <==> UpdateFits(p, db, j);
  }

  /** Update validates before it looks the sale up: a body that fails is
      500 even for an unknown order. A valid body gives 404 exactly when no
      sale has the order, and otherwise 200 exactly when the fields fit.
      Only 200 changes anything. */
  lemma UpdateStatus(db: Db, order: string, p: Payload)
    requires Consistent(db)
    ensures var r := Update(db, order, p);
      && (!Passes(SaleUpdateRules, p, db) ==> r.status == 500)
      && (r.status == 404 <==> Passes(SaleUpdateRules, p, db) && !Holds(db.sales, "sales_order", VStr(order)))
      && (r.status == 200 <==> Passes(SaleUpdateRules, p, db) && Holds(db.sales, "sales_order", VStr(order))
                               && UpdateFits(p, db, ByOrder(db, order).value))
      && (r.status != 200 ==> r.db == db && (r.status == 404 || r.status == 500))
  {
    ByOrderFinds(db, order);
    if Passes(SaleUpdateRules, p, db) && ByOrder(db, order).Some? {
      UpdateRowAccepted(db, ByOrder(db, order).value, p);
    }
  }

  /** An update answering 200 validated, found the sale and wrote it. */
  lemma UpdateSteps(db: Db, order: string, p: Payload)
    requires Update(db, order, p).status == 200
    ensures Passes(SaleUpdateRules, p, db) && ByOrder(db, order).Some?
    ensures var j := ByOrder(db, order).value;
      Update(db, order, p).db == db.(sales := db.sales[j := Overwrite(db.sales[j], Changes(p))])
  {
  }

  /** A successful update writes the sale with that order: each column
      takes the submitted value when one was sent, even a falsy one, and
      keeps its own otherwise; sales_type_id never changes. */
  lemma UpdateWritesFields(db: Db, order: string, p: Payload)
    requires Update(db, order, p).status == 200
    ensures var r := Update(db, order, p); var j := ByOrder(db, order).value; var row := db.sales[j];
      && r.db.sales[j].Keys == row.Keys
      && (forall c :: c in row && c in SaleColumns && c != "sales_type_id" ==>
            r.db.sales[j][c] == if c in p then p[c] else row[c])
      && ("sales_type_id" in row ==> r.db.sales[j]["sales_type_id"] == row["sales_type_id"])
  {
    UpdateSteps(db, order, p);
    ChangesKeys(p);
  }

  /** A successful update changes no other sale and no other table. */
  lemma UpdateKeepsOthers(db: Db, order: string, p: Payload)
    requires Update(db, order, p).status == 200
    ensures var r := Update(db, order, p); var j := ByOrder(db, order).value;
      && r.db.sales.Keys == db.sales.Keys
      && (forall i :: i in db.sales && i != j ==> r.db.sales[i] == db.sales[i])
      && r.db.(sales := db.sales) == db
  {
    UpdateSteps(db, order, p);
  }

  /** An update carrying operator_id never succeeds: its rule looks in a
      table `operator` that does not exist. */
  lemma UpdateOperatorFails(db: Db, order: string, p: Payload)
    requires "operator_id" in p
    ensures Update(db, order, p).status == 500 && Update(db, order, p).db == db
  {
    SaleUpdateOperatorAlwaysFails(p, db);
  }

  /** The sales_order's uniqueness does not exclude the sale being updated:
      sending a sale's own order back fails with 500. */
  lemma UpdateOwnOrderFails(db: Db, order: string, p: Payload, j: Id)
    requires j in db.sales && "sales_order" in p && Col(db.sales[j], "sales_order") == p["sales_order"]
    ensures Update(db, order, p).status == 500 && Update(db, order, p).db == db
  {
    SaleUpdateRejectsHeldOrder(p, db, j);
  }

  /** The sales table after a successful update keeps the sale invariants. */
  lemma UpdateTableOk(db: Db, order: string, p: Payload)
    requires SalesOk(db) && Shaped(db.sales, SaleColumns, db.nextSale)
    requires Update(db, order, p).status == 200
    ensures var t := Update(db, order, p).db.sales;
      SalesOk(db.(sales := t)) && Shaped(t, SaleColumns, db.nextSale) && t.Keys == db.sales.Keys
  {
    UpdateSteps(db, order, p);
    var j := ByOrder(db, order).value;
    var row := Overwrite(db.sales[j], Changes(p));
    assert SaleRowAccepted(row, j, db);
    assert row.Keys == SaleColumns;
    SalesWrite(db, j, row);
    ShapedWrite(db.sales, SaleColumns, db.nextSale, j, row);
  }

  lemma UpdatePreserves(db: Db, order: string, p: Payload)
    requires Consistent(db)
    ensures Consistent(Update(db, order, p).db)
  {
    if Update(db, order, p).status == 200 {
      var t := Update(db, order, p).db.sales;
      UpdateTableOk(db, order, p);
      assert ColRefersOrNull(db.records, "sales_id", db.sales) by { assert RecordsOk(db); }
      ColRefersOrNullGrow(db.records, "sales_id", db.sales, t);
      SalesReplaced(db, t, db.nextSale);
      UpdateSteps(db, order, p);
    }
  }

  /** destroy: 404 when no sale has the order; 500 when a record still
      points at the sale (the foreign key refuses the delete); otherwise
      exactly that sale goes and nothing else changes. */
  lemma DestroyOutcome(db: Db, order: string)
    requires Consistent(db)
    ensures var r := Destroy(db, order);
      && (r.status == 404 <==> !Holds(db.sales, "sales_order", VStr(order)))
      && (r.status == 500 <==> Holds(db.sales, "sales_order", VStr(order))
                               && !Unreferenced(db.records, "sales_id", ByOrder(db, order).value))
      && (r.status != 200 ==> r.db == db && (r.status == 404 || r.status == 500))
      && (r.status == 200 ==> r.db.sales.Keys == db.sales.Keys - {ByOrder(db, order).value}
                              && Col(db.sales[ByOrder(db, order).value], "sales_order") == VStr(order)
                              && r.db.(sales := db.sales) == db)
  {
    ByOrderFinds(db, order);
  }

  lemma DestroyPreserves(db: Db, order: string)
    requires Consistent(db)
    ensures Consistent(Destroy(db, order).db)
  {
    var r := Destroy(db, order);
    if r.status == 200 {
      var j := ByOrder(db, order).value;
      assert RecordsOk(db);
      ColRefersOrNullShrink(db.records, "sales_id", db.sales, j);
      assert r.db.sales == db.sales - {j};
      assert SalesOk(db.(sales := r.db.sales));
      assert Shaped(r.db.sales, SaleColumns, db.nextSale);
      SalesReplaced(db, r.db.sales, db.nextSale);
      assert r.db == db.(sales := r.db.sales, nextSale := db.nextSale);
    }
  }

  /** index never answers 404 (a paginator is not falsy); it answers 500
      exactly when a listed sale's sales user names a missing agency, and
      otherwise lists the page's sales by ascending key, at most per_page. */
  lemma IndexOutcome(db: Db, perPage: Option<nat>, page: Option<int>)
    ensures var s := Index(db, perPage, page); var ids := IndexIds(db, perPage, page);
      && (s.status == 500 <==> exists i :: 0 <= i < |ids| && !AgencyLoaded(db, ids[i]))
      && (s.status != 500 ==>
            s.status == 200 && |s.data| == |ids| && (forall i :: 0 <= i < |ids| ==> Col(s.data[i], "id") == VInt(ids[i])))
      && |ids| <= PerPage(perPage, 10)
      && (forall i, k :: 0 <= i < k < |ids| ==> ids[i] < ids[k])
  {
    PageAscending(IdsIn(db.sales, 1, db.nextSale), CurrentPage(page), PerPage(perPage, 10));
  }
}
