/** CustomerRecordController: the customer_records resource. Show finds a
    record by its user, update by its customer, destroy by its key. */
module Records {
  import opened Values
  import opened Schema
  import opened Rules
  import opened Query

  /** The user and the operator of the record exist, so that
      `user->name` and `operator->name` can be read. */
  predicate Loaded(db: Db, j: Id)
    requires j in db.records
  {
    Refers(Col(db.records[j], "user_id"), db.users) && Refers(Col(db.records[j], "operator_id"), db.operators)
  }

  /** `$record->status == 0 ? false : true` */
  function ShownStatus(v: Value): (r: Value)
    ensures r.VBool?
  {
    VBool(!LooseZero(v))
  }

  /** `$record->customer->c ?? ''`: '' when the attribute is null or the
      record has no customer. */
  function CustomerField(db: Db, row: Row, c: string): (r: Value)
    ensures r != VNull
  {
    var v := Col(row, "customer_id");
    if Refers(v, db.customers) then Coalesce(Col(db.customers[v.i], c), VStr("")) else VStr("")
  }

  /** The object show and index send for a record. */
  function Json(db: Db, j: Id): Payload
    requires j in db.records && Loaded(db, j)
  {
    var row := db.records[j];
    map["id" := VInt(j),
        "name" := CustomerField(db, row, "name"), "dni" := CustomerField(db, row, "dni"),
        "phone" := Coalesce(Col(row, "phone"), VStr("")),
        "schedule_1" := Coalesce(Col(row, "schedule_1"), VStr("")),
        "schedule_2" := Coalesce(Col(row, "schedule_2"), VStr("")),
        "schedule_3" := Coalesce(Col(row, "schedule_3"), VStr("")),
        "status" := ShownStatus(Col(row, "status")),
        "user" := Col(db.users[Col(row, "user_id").i], "name"),
        "operator" := Col(db.operators[Col(row, "operator_id").i], "name")]
  }

  /** The keys index lists: page `page` in key order, `per_page` (10 when
      absent) per page. */
  function IndexIds(db: Db, perPage: Option<nat>, page: Option<int>): (ids: seq<Id>)
    ensures forall j :: j in ids ==> j in db.records
  {
    Page(IdsIn(db.records, 1, db.nextRecord), CurrentPage(page), PerPage(perPage, 10))
  }

  /** index: a paginator is never falsy, so an empty page is 200 too; a
      record whose user or operator is missing makes the mapping fail (500). */
  function Index(db: Db, perPage: Option<nat>, page: Option<int>): Shown
  {
    var ids := IndexIds(db, perPage, page);
    if !AllLoaded(db, ids) then Shown(500, []) else Shown(200, JsonPage(db, ids))
  }

  predicate AllLoaded(db: Db, ids: seq<Id>)
    requires forall j :: j in ids ==> j in db.records
  {
    forall i :: 0 <= i < |ids| ==> Loaded(db, ids[i])
  }

  /** The objects sent for a page of records, in the page's order. */
  function JsonPage(db: Db, ids: seq<Id>): (r: seq<Payload>)
    requires forall j :: j in ids ==> j in db.records
    requires AllLoaded(db, ids)
    ensures |r| == |ids| && forall i :: 0 <= i < |ids| ==> "id" in r[i] && r[i]["id"] == VInt(ids[i])
  {
    seq(|ids|, i requires 0 <= i < |ids| => Json(db, ids[i]))
  }

  /** `where('user_id', $id)->first()` */
  function ByUser(db: Db, user: Id): Option<Id>
  {
    FirstIn(db.records, "user_id", VInt(user), 1, db.nextRecord)
  }

  /** `where('customer_id', $id)->first()` */
  function ByCustomer(db: Db, customer: Id): Option<Id>
  {
    FirstIn(db.records, "customer_id", VInt(customer), 1, db.nextRecord)
  }

  /** show: the first record of the user, or 404. */
  function Show(db: Db, user: Id): Shown
  {
    match ByUser(db, user)
    case None => Shown(404, [])
    case Some(j) => if !Loaded(db, j) then Shown(500, []) else Shown(200, [Json(db, j)])
  }

  /** The row `create` inserts from the validated data: sales_id stays null
      and status takes the column default, false. */
  function NewRow(p: Payload): Row
  {
    Fill(RecordColumns, map["status" := VBool(false)], Only(Validated(RecordStoreRules, p), RecordFillable))
  }

  /** store: validate (500), then insert (201); the database refuses a row
      that breaks the table's constraints (500). */
  function Store(db: Db, p: Payload): Reply
  {
    if !Passes(RecordStoreRules, p, db) then Reply(500, db) else InsertRecord(db, NewRow(p))
  }

  /** An insert into customer_records: 201 with the row under the next key
      when the database accepts it, 500 and no change otherwise. */
  function InsertRecord(db: Db, row: Row): (r: Reply)
    ensures r.status == 201 <==> RecordRowAccepted(row, db)
    ensures r.status != 201 ==> r == Reply(500, db)
    ensures r.status == 201 ==> r.db == db.(records := db.records[db.nextRecord := row], nextRecord := db.nextRecord + 1)
  {
    if !RecordRowAccepted(row, db) then Reply(500, db)
    else Reply(201, db.(records := db.records[db.nextRecord := row], nextRecord := db.nextRecord + 1))
  }

  /** An update of record `j`: 200 when the database accepts the new row,
      500 and no change otherwise. */
  function ReplaceRecord(db: Db, j: Id, row: Row): (r: Reply)
    ensures r.status == 200 <==> RecordRowAccepted(row, db)
    ensures r.status != 200 ==> r == Reply(500, db)
    ensures r.status == 200 ==> r.db == db.(records := db.records[j := row])
  {
    if !RecordRowAccepted(row, db) then Reply(500, db) else Reply(200, db.(records := db.records[j := row]))
  }

  function Changes(p: Payload): Payload
  {
    Only(ArrayFilter(Validated(RecordUpdateRules, p)), RecordFillable)
  }

  /** update: validate (500), then the first record of the customer (404),
      then update it with the truthy validated fields; the database refuses
      a row that breaks the table's constraints (500). */
  function Update(db: Db, customer: Id, p: Payload): Reply
  {
    if !Passes(RecordUpdateRules, p, db) then Reply(500, db)
    else
      match ByCustomer(db, customer)
      case None => Reply(404, db)
      case Some(j) => ReplaceRecord(db, j, Overwrite(db.records[j], Changes(p)))
  }

  /** destroy: no foreign key points at a customer record. */
  function Destroy(db: Db, id: Id): Reply
  {
    if id !in db.records then Reply(404, db) else Reply(200, db.(records := db.records - {id}))
  }

  // ---- Properties ----

  /** What the object sent for a record holds: its key, its phone, the
      status as a boolean, and never null for a schedule. */
  lemma JsonFields(db: Db, j: Id)
    requires j in db.records && Loaded(db, j)
    ensures var d := Json(db, j); var row := db.records[j];
      && d["id"] == VInt(j) && d["status"] == ShownStatus(Col(row, "status"))
      && (Col(row, "phone") != VNull ==> d["phone"] == Col(row, "phone"))
      && (forall k :: k in {"schedule_1", "schedule_2", "schedule_3"} ==>
            k in d && d[k] == Coalesce(Col(row, k), VStr("")))
  {
  }

  /** The fields store validates, all of them on the allow-list. */
  lemma StoreRuleKeys()
    ensures Keys(RecordStoreRules) ==
      {"user_id", "operator_id", "customer_id", "phone", "schedule_1", "schedule_2", "schedule_3"}
    ensures Keys(RecordStoreRules) <= RecordFillable
  {
    assert RecordStoreRules[0].0 == "user_id" && RecordStoreRules[1].0 == "operator_id";
    assert RecordStoreRules[2].0 == "customer_id" && RecordStoreRules[3].0 == "phone";
    assert RecordStoreRules[4].0 == "schedule_1" && RecordStoreRules[5].0 == "schedule_2";
    assert RecordStoreRules[6].0 == "schedule_3";
  }

  /** The fields update validates, all of them on the allow-list. */
  lemma UpdateRuleKeys()
    ensures Keys(RecordUpdateRules) ==
      {"operator_id", "customer_id", "phone", "schedule_1", "schedule_2", "schedule_3", "status"}
    ensures Keys(RecordUpdateRules) <= RecordFillable
  {
    assert RecordUpdateRules[0].0 == "operator_id" && RecordUpdateRules[1].0 == "customer_id";
    assert RecordUpdateRules[2].0 == "phone" && RecordUpdateRules[3].0 == "schedule_1";
    assert RecordUpdateRules[4].0 == "schedule_2" && RecordUpdateRules[5].0 == "schedule_3";
    assert RecordUpdateRules[6].0 == "status";
  }

  /** The inserted row carries the request's user, operator, customer,
      phone and schedules (null when not sent), no sale, and status false. */
  lemma NewRowHolds(p: Payload)
    ensures var row := NewRow(p);
      && row.Keys == RecordColumns
      && row["user_id"] == Col(p, "user_id") && row["operator_id"] == Col(p, "operator_id")
      && row["customer_id"] == Col(p, "customer_id") && row["phone"] == Col(p, "phone")
      && row["schedule_1"] == Col(p, "schedule_1") && row["schedule_2"] == Col(p, "schedule_2")
      && row["schedule_3"] == Col(p, "schedule_3")
      && row["sales_id"] == VNull && row["status"] == VBool(false)
  {
    var given := Only(Validated(RecordStoreRules, p), RecordFillable);
    StoreGiven(p);
  }

  /** The allow-list keeps every field store validates. */
  lemma StoreGiven(p: Payload)
    ensures var given := Only(Validated(RecordStoreRules, p), RecordFillable);
      && given.Keys == p.Keys * {"user_id", "operator_id", "customer_id", "phone", "schedule_1", "schedule_2", "schedule_3"}
      && (forall k :: k in given ==> given[k] == p[k])
      && "sales_id" !in given && "status" !in given
  {
    StoreRuleKeys();
    StoreSkips();
  }

  /** Store validates neither sales_id nor status. */
  lemma StoreSkips()
    ensures "sales_id" !in Keys(RecordStoreRules) && "status" !in Keys(RecordStoreRules)
  {
    StoreRuleKeys();
  }

  /** What store validates is everything the database checks: a body that
      passes validation always gives a row the table accepts. */
  lemma StoreRowAccepted(db: Db, p: Payload)
    requires Passes(RecordStoreRules, p, db)
    ensures RecordRowAccepted(NewRow(p), db)
    ensures !Holds(db.records, "phone", NewRow(p)["phone"])
  {
    RecordStoreAccepts(p, db);
    NewRowHolds(p);
  }

  /** Store answers 201 exactly when the body validates; otherwise 500 and
      nothing changes. */
  lemma StoreStatus(db: Db, p: Payload)
    ensures var r := Store(db, p);
      && (r.status == 201 <==> Passes(RecordStoreRules, p, db))
      && (r.status != 201 ==> r.status == 500 && r.db == db)
  {
    if Passes(RecordStoreRules, p, db) { StoreRowAccepted(db, p); }
  }

  /** A store answering 201 took the insert branch. */
  lemma StoreSteps(db: Db, p: Payload)
    requires Store(db, p).status == 201
    ensures Passes(RecordStoreRules, p, db) && Store(db, p) == InsertRecord(db, NewRow(p))
    ensures Store(db, p).db == db.(records := db.records[db.nextRecord := NewRow(p)], nextRecord := db.nextRecord + 1)
  {
  }

  /** A successful store adds one record, under the next key, holding the
      row `NewRow` describes. */
  lemma StoreAddsRow(db: Db, p: Payload)
    requires Store(db, p).status == 201
    ensures var r := Store(db, p); var n := db.nextRecord;
      && r.db.records.Keys == db.records.Keys + {n} && r.db.nextRecord == n + 1
      && r.db.records[n] == NewRow(p)
  {
    StoreSteps(db, p);
    InsertAdds(db, NewRow(p));
  }

  lemma InsertAdds(db: Db, row: Row)
    requires InsertRecord(db, row).status == 201
    ensures var r := InsertRecord(db, row); var n := db.nextRecord;
      && r.db.records.Keys == db.records.Keys + {n} && r.db.nextRecord == n + 1 && r.db.records[n] == row
  {
  }

  /** A successful store changes no existing record and no other table. */
  lemma StoreKeepsRows(db: Db, p: Payload)
    requires Store(db, p).status == 201
    ensures var r := Store(db, p);
      && (forall j :: j in db.records && j != db.nextRecord ==> r.db.records[j] == db.records[j])
      && r.db.(records := db.records, nextRecord := db.nextRecord) == db
  {
    StoreSteps(db, p);
  }

  lemma StorePreserves(db: Db, p: Payload)
    requires Consistent(db)
    ensures Consistent(Store(db, p).db)
  {
    if Store(db, p).status == 201 {
      StoreSteps(db, p);
      var row := NewRow(p);
      var n := db.nextRecord;
      StoreRowAccepted(db, p);
      RecordsWrite(db, n, row);
      assert UniqueCol(db.records, "phone");
      assert FreshIn(db.records, "phone", Col(row, "phone"), n);
      UniqueColWrite(db.records, "phone", n, row);
      assert Shaped(db.records, RecordColumns, n);
      ShapedGrow(db.records, RecordColumns, n);
      ShapedWrite(db.records, RecordColumns, n + 1, n, row);
      RecordsReplaced(db, db.records[n := row], n + 1);
    }
  }

  /** The new record, when it is the user's first, is shown with status
      false and with '' for every schedule not sent. */
  lemma StoreThenShow(db: Db, p: Payload, user: Id)
    requires db.nextRecord >= 1 && Store(db, p).status == 201
    requires Col(p, "user_id") == VInt(user) && !Holds(db.records, "user_id", VInt(user))
    ensures var s := Show(Store(db, p).db, user);
      && s.status == 200 && s.data[0]["id"] == VInt(db.nextRecord)
      && s.data[0]["status"] == VBool(false)
      && (forall k :: k in {"schedule_1", "schedule_2", "schedule_3"} && k !in p ==> s.data[0][k] == VStr(""))
  {
    var n := db.nextRecord;
    FirstOfNewUser(db, p, user);
    StoredLoaded(db, p);
    var d := Store(db, p).db;
    assert Show(d, user) == Shown(200, [Json(d, n)]);
    JsonFields(d, n);
    NewRowHolds(p);
  }

  /** The record a successful store adds has its user and operator loaded. */
  lemma StoredLoaded(db: Db, p: Payload)
    requires Store(db, p).status == 201
    ensures var d := Store(db, p).db;
      && db.nextRecord in d.records && d.records[db.nextRecord] == NewRow(p) && Loaded(d, db.nextRecord)
  {
    StoreSteps(db, p);
    StoreRowAccepted(db, p);
    NewRowHolds(p);
  }

  /** A record stored for a user who had none is that user's first. */
  lemma FirstOfNewUser(db: Db, p: Payload, user: Id)
    requires db.nextRecord >= 1 && Store(db, p).status == 201
    requires Col(p, "user_id") == VInt(user) && !Holds(db.records, "user_id", VInt(user))
    ensures ByUser(Store(db, p).db, user) == Some(db.nextRecord)
  {
    var n := db.nextRecord;
    StoreSteps(db, p);
    NewRowHolds(p);
    AddedFirst(db.records, "user_id", VInt(user), n, NewRow(p));
  }

  /** A row added holding a value no row held is the one `first()` finds. */
  lemma AddedFirst(t: Table, c: string, v: Value, n: Id, row: Row)
    requires 1 <= n && Col(row, c) == v && !Holds(t, c, v)
    ensures FirstIn(t[n := row], c, v, 1, n + 1) == Some(n)
  {
    var t2 := t[n := row];
    assert forall j :: j in t2 && j != n ==> Col(t2[j], c) != v by {
      forall j | j in t2 && j != n ensures Col(t2[j], c) != v {
        assert j in t;
      }
    }
    FirstIsOnly(t2, c, v, 1, n + 1, n);
  }

  /** Show answers 404 exactly when no record names the user; otherwise,
      on a consistent store, 200 with the user's record of smallest key,
      never sending null for the phone or a schedule. */
  lemma ShowOutcome(db: Db, user: Id)
    requires Consistent(db)
    ensures var s := Show(db, user);
      && (s.status == 404 <==> !Holds(db.records, "user_id", VInt(user)))
      && (s.status != 404 ==>
            var j := ByUser(db, user).value;
            && s.status == 200 && |s.data| == 1 && s.data[0]["id"] == VInt(j)
            && j in db.records && Col(db.records[j], "user_id") == VInt(user)
            && (forall i :: i in db.records && Col(db.records[i], "user_id") == VInt(user) ==> j <= i)
            && s.data[0]["phone"] == Col(db.records[j], "phone")
            && s.data[0]["status"] == ShownStatus(Col(db.records[j], "status"))
            && s.data[0]["schedule_1"] != VNull && s.data[0]["schedule_2"] != VNull && s.data[0]["schedule_3"] != VNull)
  {
    assert KeysBelow(db.records, db.nextRecord) by { assert Shaped(db.records, RecordColumns, db.nextRecord); }
    FirstFindsHeld(db.records, "user_id", VInt(user), db.nextRecord);
    if ByUser(db, user).Some? {
      var j := ByUser(db, user).value;
      LinkedLoaded(db, j);
      assert Show(db, user) == Shown(200, [Json(db, j)]);
      JsonFields(db, j);
    }
  }

  /** On a consistent store every record's user, operator and customer
      exist, and its phone is a string. */
  lemma LinkedLoaded(db: Db, j: Id)
    requires Consistent(db) && j in db.records
    ensures Loaded(db, j) && Col(db.records[j], "phone").VStr?
    ensures Refers(Col(db.records[j], "customer_id"), db.customers)
  {
    assert RecordsOk(db);
    assert Refers(Col(db.records[j], "user_id"), db.users);
    assert Refers(Col(db.records[j], "operator_id"), db.operators);
    assert Refers(Col(db.records[j], "customer_id"), db.customers);
    assert StrUpTo(Col(db.records[j], "phone"), 9);
  }

  /** The fields a valid update writes: only truthy values of validated
      fields, each of the kind its column takes. */
  lemma ChangesHold(p: Payload, db: Db)
    requires Passes(RecordUpdateRules, p, db)
    ensures var d := Changes(p);
      && (forall k :: k in d <==> k in p && k in Keys(RecordUpdateRules) && Truthy(p[k]))
      && (forall k :: k in d ==> d[k] == p[k])
      && "user_id" !in d && "sales_id" !in d
      && ("operator_id" in d ==> Refers(d["operator_id"], db.operators))
      && ("customer_id" in d ==> Refers(d["customer_id"], db.customers))
      && ("phone" in d ==> StrUpTo(d["phone"], 9) && !Holds(db.records, "phone", d["phone"]))
      && ("schedule_1" in d ==> d["schedule_1"].VStr?)
      && ("schedule_2" in d ==> d["schedule_2"].VStr?)
      && ("schedule_3" in d ==> d["schedule_3"].VStr?)
  {
    ChangesKeys(p);
    RecordUpdateAccepts(p, db);
    var d := Changes(p);
    if "phone" in d { assert d["phone"] == p["phone"]; }
  }

  /** Which keys a valid update writes. */
  lemma ChangesKeys(p: Payload)
    ensures var d := Changes(p);
      && (forall k :: k in d <==> k in p && k in Keys(RecordUpdateRules) && Truthy(p[k]))
      && (forall k :: k in d ==> d[k] == p[k])
      && "user_id" !in d && "sales_id" !in d
  {
    UpdateKeysAllowed();
    var kept := ArrayFilter(Validated(RecordUpdateRules, p));
    OnlyAllowed(kept, RecordFillable);
  }

  lemma UpdateKeysAllowed()
    ensures Keys(RecordUpdateRules) <= RecordFillable
    ensures "user_id" !in Keys(RecordUpdateRules) && "sales_id" !in Keys(RecordUpdateRules)
  {
    UpdateRuleKeys();
  }

  /** What a valid update writes keeps every database constraint: the
      database never refuses it on a consistent store. */
  lemma UpdateRowAccepted(db: Db, j: Id, p: Payload)
    requires Consistent(db) && j in db.records && Passes(RecordUpdateRules, p, db)
    ensures RecordRowAccepted(Overwrite(db.records[j], Changes(p)), db)
  {
    StoredAccepted(db, j);
    ChangesHold(p, db);
    OverwriteAccepted(db.records[j], Changes(p), db);
  }

  /** Every stored record is a row the database accepts. */
  lemma StoredAccepted(db: Db, j: Id)
    requires Consistent(db) && j in db.records
    ensures RecordRowAccepted(db.records[j], db)
  {
    var row := db.records[j];
    assert row.Keys == RecordColumns by { assert Shaped(db.records, RecordColumns, db.nextRecord); }
    assert RecordsOk(db);
    assert Refers(Col(row, "user_id"), db.users) && Refers(Col(row, "operator_id"), db.operators);
    assert Refers(Col(row, "customer_id"), db.customers) && RefersOrNull(Col(row, "sales_id"), db.sales);
    assert StrUpTo(Col(row, "phone"), 9);
    assert Col(row, "schedule_1") == VNull || Col(row, "schedule_1").VStr?;
    assert Col(row, "schedule_2") == VNull || Col(row, "schedule_2").VStr?;
    assert Col(row, "schedule_3") == VNull || Col(row, "schedule_3").VStr?;
  }

  /** Overwriting an accepted row with the changes of a valid update gives
      an accepted row. */
  lemma OverwriteAccepted(old_: Row, d: Payload, db: Db)
    requires RecordRowAccepted(old_, db)
    requires "user_id" !in d && "sales_id" !in d
    requires "operator_id" in d ==> Refers(d["operator_id"], db.operators)
    requires "customer_id" in d ==> Refers(d["customer_id"], db.customers)
    requires "phone" in d ==> StrUpTo(d["phone"], 9)
    requires "schedule_1" in d ==> d["schedule_1"].VStr?
    requires "schedule_2" in d ==> d["schedule_2"].VStr?
    requires "schedule_3" in d ==> d["schedule_3"].VStr?
    ensures RecordRowAccepted(Overwrite(old_, d), db)
  {
  }

  /** Update answers 500 exactly when the body fails validation, 404
      exactly when it passes and no record names the customer, and 200
      otherwise; the first two change nothing. */
  lemma UpdateStatus(db: Db, customer: Id, p: Payload)
    requires Consistent(db)
    ensures var r := Update(db, customer, p);
      && (r.status == 500 <==> !Passes(RecordUpdateRules, p, db))
      && (r.status == 404 <==> Passes(RecordUpdateRules, p, db) && !Holds(db.records, "customer_id", VInt(customer)))
      && (r.status == 200 <==> Passes(RecordUpdateRules, p, db) && Holds(db.records, "customer_id", VInt(customer)))
      && (r.status != 200 ==> r.db == db)
  {
    assert KeysBelow(db.records, db.nextRecord) by { assert Shaped(db.records, RecordColumns, db.nextRecord); }
    FirstFindsHeld(db.records, "customer_id", VInt(customer), db.nextRecord);
    UpdateCases(db, customer, p);
    var f := ByCustomer(db, customer);
    if Passes(RecordUpdateRules, p, db) && f.Some? {
      var row := Overwrite(db.records[f.value], Changes(p));
      UpdateRowAccepted(db, f.value, p);
      assert ReplaceRecord(db, f.value, row).status == 200;
    }
  }

  /** The three ways update ends. */
  lemma UpdateCases(db: Db, customer: Id, p: Payload)
    ensures !Passes(RecordUpdateRules, p, db) ==> Update(db, customer, p) == Reply(500, db)
    ensures Passes(RecordUpdateRules, p, db) && ByCustomer(db, customer).None? ==> Update(db, customer, p) == Reply(404, db)
    ensures Passes(RecordUpdateRules, p, db) && ByCustomer(db, customer).Some? ==>
      var j := ByCustomer(db, customer).value;
      Update(db, customer, p) == ReplaceRecord(db, j, Overwrite(db.records[j], Changes(p)))
  {
  }

  /** An update answering 200 validated, found the customer's first
      record and wrote it. */
  lemma UpdateSteps(db: Db, customer: Id, p: Payload)
    requires Update(db, customer, p).status == 200
    ensures Passes(RecordUpdateRules, p, db) && ByCustomer(db, customer).Some?
    ensures var j := ByCustomer(db, customer).value;
      Update(db, customer, p).db == db.(records := db.records[j := Overwrite(db.records[j], Changes(p))])
  {
  }

  /** A successful update writes the customer's first record: each
      updatable column takes the submitted value when it is truthy and
      keeps its own otherwise; user_id and sales_id never change. */
  lemma UpdateWritesFields(db: Db, customer: Id, p: Payload)
    requires Update(db, customer, p).status == 200
    ensures var r := Update(db, customer, p); var j := ByCustomer(db, customer).value; var old_ := db.records[j];
      && r.db.records[j].Keys == old_.Keys
      && (forall k :: k in old_ && k in Keys(RecordUpdateRules) ==>
            r.db.records[j][k] == if k in p && Truthy(p[k]) then p[k] else old_[k])
      && (forall k :: k in old_ && k !in Keys(RecordUpdateRules) ==> r.db.records[j][k] == old_[k])
  {
    UpdateSteps(db, customer, p);
    ChangesKeys(p);
  }

  /** A successful update changes no other record and no other table. */
  lemma UpdateKeepsOthers(db: Db, customer: Id, p: Payload)
    requires Update(db, customer, p).status == 200
    ensures var r := Update(db, customer, p); var j := ByCustomer(db, customer).value;
      && r.db.records.Keys == db.records.Keys
      && (forall i :: i in db.records && i != j ==> r.db.records[i] == db.records[i])
      && r.db.(records := db.records) == db
  {
    UpdateSteps(db, customer, p);
  }

  /** Status can be set to true by update but never back to false: after a
      successful update the record shows true when the body carried a
      truthy status, and what it showed before otherwise. */
  lemma UpdateNeverClearsStatus(db: Db, customer: Id, p: Payload)
    requires Shaped(db.records, RecordColumns, db.nextRecord) && Update(db, customer, p).status == 200
    ensures var r := Update(db, customer, p); var j := ByCustomer(db, customer).value;
      ShownStatus(Col(r.db.records[j], "status")) ==
        if "status" in p && Truthy(p["status"]) then VBool(true) else ShownStatus(Col(db.records[j], "status"))
  {
    var j := ByCustomer(db, customer).value;
    var d := Changes(p);
    var row := Overwrite(db.records[j], d);
    UpdateSteps(db, customer, p);
    assert Update(db, customer, p).db.records[j] == row;
    assert "status" in db.records[j];
    StatusChange(p, db);
  }

  /** A valid update writes status exactly when it carries a truthy one,
      and what it writes is never loosely equal to 0. */
  lemma StatusChange(p: Payload, db: Db)
    requires Passes(RecordUpdateRules, p, db)
    ensures "status" in Changes(p) <==> "status" in p && Truthy(p["status"])
    ensures "status" in Changes(p) ==> !LooseZero(Changes(p)["status"])
  {
    ChangesKeys(p);
    assert "status" in Keys(RecordUpdateRules) by { assert RecordUpdateRules[6].0 == "status"; }
    RecordUpdateStatusOnlyTrue(p, db);
    if "status" in Changes(p) { TrueNotZero(Changes(p)["status"]); }
  }

  lemma TrueNotZero(v: Value)
    requires v in {VBool(true), VInt(1), VStr("1")}
    ensures !LooseZero(v)
  {
    if v.VStr? { assert v.s[0] == '1'; }
  }

  /** The phone's uniqueness does not exclude the record being updated:
      sending a record's own phone back fails with 500. */
  lemma UpdateOwnPhoneFails(db: Db, customer: Id, p: Payload, j: Id)
    requires j in db.records && "phone" in p && Col(db.records[j], "phone") == p["phone"]
    ensures Update(db, customer, p).status == 500 && Update(db, customer, p).db == db
  {
    RecordUpdateRejectsHeldPhone(p, db, j);
  }

  lemma UpdatePreserves(db: Db, customer: Id, p: Payload)
    requires Consistent(db)
    ensures Consistent(Update(db, customer, p).db)
  {
    if Update(db, customer, p).status == 200 {
      UpdateSteps(db, customer, p);
      var j := ByCustomer(db, customer).value;
      var row := Overwrite(db.records[j], Changes(p));
      ChangesHold(p, db);
      UpdateRowAccepted(db, j, p);
      RecordsWrite(db, j, row);
      assert UniqueCol(db.records, "phone");
      assert FreshIn(db.records, "phone", Col(row, "phone"), j) by {
        if "phone" !in Changes(p) {
          assert Col(row, "phone") == Col(db.records[j], "phone");
        }
      }
      UniqueColWrite(db.records, "phone", j, row);
      assert Shaped(db.records, RecordColumns, db.nextRecord);
      ShapedWrite(db.records, RecordColumns, db.nextRecord, j, row);
      RecordsReplaced(db, db.records[j := row], db.nextRecord);
    }
  }

  /** Destroy removes exactly the record with that key (200), or answers
      404 and changes nothing. */
  lemma DestroyOutcome(db: Db, id: Id)
    ensures var r := Destroy(db, id);
      && (r.status == 404 <==> id !in db.records)
      && (r.status == 404 ==> r.db == db)
      && (r.status != 404 ==> r.status == 200 && r.db.records.Keys == db.records.Keys - {id}
                              && (forall j :: j in r.db.records ==> r.db.records[j] == db.records[j])
                              && r.db.(records := db.records) == db)
  {
  }

  lemma DestroyPreserves(db: Db, id: Id)
    requires Consistent(db)
    ensures Consistent(Destroy(db, id).db)
  {
    if id in db.records {
      var t := db.records - {id};
      assert RecordsOk(db.(records := t)) by { assert RecordsOk(db); }
      assert UniqueCol(t, "phone") by { assert UniqueCol(db.records, "phone"); }
      assert Shaped(t, RecordColumns, db.nextRecord) by { assert Shaped(db.records, RecordColumns, db.nextRecord); }
      RecordsReplaced(db, t, db.nextRecord);
    }
  }

  /** Index never answers 404, even past the last page; it answers 500
      exactly when a record on the page lacks its user or operator, which
      a consistent store rules out; on 200 it sends the page's records, at
      most `per_page` of them, ascending by key. */
  lemma IndexOutcome(db: Db, perPage: Option<nat>, page: Option<int>)
    ensures var s := Index(db, perPage, page); var ids := IndexIds(db, perPage, page);
      && (s.status == 500 <==> exists i :: 0 <= i < |ids| && !Loaded(db, ids[i]))
      && (s.status != 500 ==> s.status == 200)
      && (s.status == 200 ==> |s.data| == |ids| && forall i :: 0 <= i < |ids| ==> "id" in s.data[i] && s.data[i]["id"] == VInt(ids[i]))
      && |ids| <= PerPage(perPage, 10)
      && (forall i, k :: 0 <= i < k < |ids| ==> ids[i] < ids[k])
  {
    var ids := IndexIds(db, perPage, page);
    PageAscending(IdsIn(db.records, 1, db.nextRecord), CurrentPage(page), PerPage(perPage, 10));
  }

  /** On a consistent store index always answers 200. */
  lemma IndexConsistentOk(db: Db, perPage: Option<nat>, page: Option<int>)
    requires Consistent(db)
    ensures Index(db, perPage, page).status == 200
  {
    var ids := IndexIds(db, perPage, page);
    forall i | 0 <= i < |ids| ensures Loaded(db, ids[i]) {
      LinkedLoaded(db, ids[i]);
    }
    assert AllLoaded(db, ids);
  }
}
