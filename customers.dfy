/** CustomerController: customers, looked up by key or by DNI, and the phone
    numbers created with them. */
module Customers {
  import opened Values
  import opened Schema
  import opened Rules
  import opened Query

  /** A customer as show and index send it: its own fields and the list of
      its phone numbers. */
  datatype CustomerJson = CustomerJson(fields: Payload, phoneNumbers: seq<Payload>)

  /** What show and index answer: the status and the customers sent. */
  datatype CustomersShown = CustomersShown(status: int, data: seq<CustomerJson>)

  /** Customer::phoneNumbers as it is listed: the phone rows naming the
      customer, in key order. */
  function PhonesOf(db: Db, c: Id): (r: seq<Id>)
    ensures forall j :: j in r <==> 1 <= j < db.nextPhone && j in db.phones && Col(db.phones[j], "customer_id") == VInt(c)
    ensures forall i, k :: 0 <= i < k < |r| ==> r[i] < r[k]
  {
    IdsWhere(db.phones, "customer_id", VInt(c), 1, db.nextPhone)
  }

  /** Every phone number of the customer has an operator, so that the
      eager-loaded `operator->name` can be read. */
  predicate OperatorsLoaded(db: Db, c: Id)
  {
    forall j :: j in PhonesOf(db, c) ==> Refers(Col(db.phones[j], "operator_id"), db.operators)
  }

  function PhoneJson(db: Db, j: Id): Payload
    requires j in db.phones && Refers(Col(db.phones[j], "operator_id"), db.operators)
  {
    var row := db.phones[j];
    map["phone" := Col(row, "phone"), "operator_id" := Col(row, "operator_id"),
        "operator" := Col(db.operators[Col(row, "operator_id").i], "name")]
  }

  function Json(db: Db, c: Id): CustomerJson
    requires c in db.customers && OperatorsLoaded(db, c)
  {
    var row := db.customers[c];
    var phones := PhonesOf(db, c);
    CustomerJson(
      map["id" := VInt(c), "agency_id" := Col(row, "agency_id"), "dni" := Col(row, "dni"), "name" := Col(row, "name")],
      seq(|phones|, i requires 0 <= i < |phones| => PhoneJson(db, phones[i])))
  }

  /** The keys index lists: page `page` in key order, `per_page` (10 when
      absent) per page. */
  function IndexIds(db: Db, perPage: Option<nat>, page: Option<int>): (ids: seq<Id>)
    ensures forall j :: j in ids ==> j in db.customers
  {
    Page(IdsIn(db.customers, 1, db.nextCustomer), CurrentPage(page), PerPage(perPage, 10))
  }

  /** index: an empty page gives 404; a phone number without an operator on
      the page makes `operator->name` fail (500). */
  function Index(db: Db, perPage: Option<nat>, page: Option<int>): CustomersShown
  {
    var ids := IndexIds(db, perPage, page);
    if |ids| == 0 then CustomersShown(404, [])
    else if exists i :: 0 <= i < |ids| && !OperatorsLoaded(db, ids[i]) then CustomersShown(500, [])
    else CustomersShown(200, seq(|ids|, i requires 0 <= i < |ids| => Json(db, ids[i])))
  }

  /** `where('dni', $id)->first()`: the DNI from the URL compared with the
      string each customer's dni column holds. */
  function ByDni(db: Db, dni: string): Option<Id>
  {
    FirstText(db.customers, "dni", dni, 1, db.nextCustomer)
  }

  /** show: the first customer with the DNI, or 404. */
  function Show(db: Db, dni: string): CustomersShown
  {
    match ByDni(db, dni)
    case None => CustomersShown(404, [])
    case Some(c) => if !OperatorsLoaded(db, c) then CustomersShown(500, []) else CustomersShown(200, [Json(db, c)])
  }

  /** The customer row `create` inserts from `$request->only('agency_id',
      'name', 'dni')`, all three on the allow-list. */
  function CustomerRow(p: Payload): Row
  {
    Fill(CustomerColumns, map[], Only(Only(p, {"agency_id", "name", "dni"}), CustomerFillable))
  }

  /** The phone row created through `phoneNumbers()`: the request's phone,
      its operator_id or null, and the new customer's key. */
  function PhoneRow(p: Payload, c: Id): Row
  {
    Fill(PhoneColumns, map[], map["phone" := Col(p, "phone"), "operator_id" := Col(p, "operator_id"), "customer_id" := VInt(c)])
  }

  /** store: validate (500), create the customer, then, when a phone is
      sent, create its phone row. The two inserts are not one transaction:
      when the database refuses the phone row the customer stays and the
      answer is 500. */
  function Store(db: Db, p: Payload): Reply
  {
    if !Passes(CustomerStoreRules, p, db) then Reply(500, db)
    else
      var db1 := WithCustomer(db, p);
      if "phone" !in p then Reply(201, db1)
      else InsertPhone(db1, PhoneRow(p, db.nextCustomer))
  }

  /** An insert into phones_numbers: 201 with the row under the next phone
      key when the database accepts it, 500 and no change otherwise. */
  function InsertPhone(db: Db, row: Row): (r: Reply)
    ensures r.status == 201 <==> PhoneRowAccepted(row, db.nextPhone, db.phones, db.customers, db.operators)
    ensures r.status != 201 ==> r.status == 500 && r.db == db
    ensures r.status == 201 ==> r.db == db.(phones := db.phones[db.nextPhone := row], nextPhone := db.nextPhone + 1)
  {
    if !PhoneRowAccepted(row, db.nextPhone, db.phones, db.customers, db.operators) then Reply(500, db)
    else Reply(201, db.(phones := db.phones[db.nextPhone := row], nextPhone := db.nextPhone + 1))
  }

  /** The store once `Customer::create` has run: the new customer under the
      next customer key. */
  function WithCustomer(db: Db, p: Payload): Db
  {
    db.(customers := db.customers[db.nextCustomer := CustomerRow(p)], nextCustomer := db.nextCustomer + 1)
  }

  function Changes(p: Payload): Payload
  {
    Only(ArrayFilter(Validated(CustomerUpdateRules, p)), CustomerFillable)
  }

  /** update: validate (500), then the first customer with the DNI; when
      there is none, `update` is called on null and the framework answers
      500 (the 404 handler is never reached). */
  function Update(db: Db, dni: string, p: Payload): Reply
  {
    if !Passes(CustomerUpdateRules, p, db) then Reply(500, db)
    else
      match ByDni(db, dni)
      case None => Reply(500, db)
      case Some(c) => Reply(200, db.(customers := db.customers[c := Overwrite(db.customers[c], Changes(p))]))
  }

  /** The phones table after `phoneNumbers()->delete()`. */
  function WithoutPhonesOf(phones: Table, c: Id): (r: Table)
    ensures forall j :: j in r <==> j in phones && Col(phones[j], "customer_id") != VInt(c)
    ensures r.Keys <= phones.Keys && forall j :: j in r ==> r[j] == phones[j]
    ensures Unreferenced(r, "customer_id", c)
    ensures forall j :: j in phones && j !in r ==> Col(phones[j], "customer_id") == VInt(c)
  {
    map j | j in phones && Col(phones[j], "customer_id") != VInt(c) :: phones[j]
  }

  /** destroy: `findOrFail` on an unknown key throws (500); the customer's
      phones are deleted, then the customer, which sales and customer
      records restrict (500, the phones already gone). */
  function Destroy(db: Db, id: Id): Reply
  {
    if id !in db.customers then Reply(500, db)
    else
      var db1 := db.(phones := WithoutPhonesOf(db.phones, id));
      if !Unreferenced(db.sales, "customer_id", id) || !Unreferenced(db.records, "customer_id", id) then Reply(500, db1)
      else Reply(200, db1.(customers := db.customers - {id}))
  }

  // ---- Properties ----

  /** On a consistent store a customer's phone numbers can all be shown
      exactly when none of them lacks an operator. */
  lemma LoadedIffOperators(db: Db, c: Id)
    requires Consistent(db)
    ensures OperatorsLoaded(db, c) <==>
      forall j :: j in db.phones && Col(db.phones[j], "customer_id") == VInt(c) ==> Col(db.phones[j], "operator_id") != VNull
  {
    assert Shaped(db.phones, PhoneColumns, db.nextPhone);
    assert ColRefersOrNull(db.phones, "operator_id", db.operators);
  }

  /** A new customer row under the next customer key keeps the store
      consistent. */
  lemma CustomerInserted(db: Db, row: Row)
    requires Consistent(db) && row.Keys == CustomerColumns
    ensures Consistent(db.(customers := db.customers[db.nextCustomer := row], nextCustomer := db.nextCustomer + 1))
  {
    var n := db.nextCustomer;
    var db1 := db.(customers := db.customers[n := row], nextCustomer := n + 1);
    assert Shaped(db.customers, CustomerColumns, n);
    ShapedGrow(db.customers, CustomerColumns, n);
    ShapedWrite(db.customers, CustomerColumns, n + 1, n, row);
    assert AllShaped(db1) by { assert AllShaped(db); }
    LinksKept(db, db1);
    assert AppUniqueOk(db1) by { assert AppUniqueOk(db); }
  }

  lemma CustomerRowHolds(p: Payload)
    ensures CustomerRow(p).Keys == CustomerColumns
    ensures forall k :: k in CustomerColumns ==> CustomerRow(p)[k] == Col(p, k)
  {
  }

  /** The phone row store creates holds the request's phone, its operator
      or null, and the new customer's key; equip and imei stay null. */
  lemma PhoneRowHolds(p: Payload, c: Id)
    ensures PhoneRow(p, c).Keys == PhoneColumns
    ensures PhoneRow(p, c)["phone"] == Col(p, "phone") && PhoneRow(p, c)["operator_id"] == Col(p, "operator_id")
    ensures PhoneRow(p, c)["customer_id"] == VInt(c)
    ensures PhoneRow(p, c)["equip"] == VNull && PhoneRow(p, c)["imei"] == VNull
  {
  }

  /** Store answers 201 exactly when the body validates and any phone sent
      fits the nine-character column (validation never checks its length);
      otherwise 500. */
  lemma StoreStatus(db: Db, p: Payload)
    requires Consistent(db)
    ensures var r := Store(db, p);
      && (r.status == 201 <==> Passes(CustomerStoreRules, p, db) && ("phone" in p ==> StrUpTo(p["phone"], 9)))
      && (r.status != 201 ==> r.status == 500)
      && (!Passes(CustomerStoreRules, p, db) ==> r.db == db)
  {
    if Passes(CustomerStoreRules, p, db) && "phone" in p {
      StoreSteps(db, p);
      CustomerStoreAccepts(p, db);
      PhoneRowHolds(p, db.nextCustomer);
      var row := PhoneRow(p, db.nextCustomer);
      assert FreshIn(db.phones, "phone", row["phone"], db.nextPhone);
      assert PhoneRowAccepted(row, db.nextPhone, db.phones, WithCustomer(db, p).customers, db.operators)
        <==> |p["phone"].s| <= 9;
    }
  }

  /** A body that validates is stored in two steps: the customer insert,
      then, when a phone was sent, the phone insert. */
  lemma StoreSteps(db: Db, p: Payload)
    requires Passes(CustomerStoreRules, p, db)
    ensures "phone" !in p ==> Store(db, p) == Reply(201, WithCustomer(db, p))
    ensures "phone" in p ==> Store(db, p) == InsertPhone(WithCustomer(db, p), PhoneRow(p, db.nextCustomer))
  {
  }

  /** A body that validates always creates the customer under the next
      customer key
      with the submitted agency, name and DNI, whatever then happens to its
      phone. */
  lemma StoreAddsCustomer(db: Db, p: Payload)
    requires Passes(CustomerStoreRules, p, db)
    ensures var r := Store(db, p); var c := db.nextCustomer;
      && r.db.customers.Keys == db.customers.Keys + {c}
      && (forall j :: j in db.customers && j != c ==> r.db.customers[j] == db.customers[j])
      && Col(r.db.customers[c], "agency_id") == Col(p, "agency_id")
      && Col(r.db.customers[c], "name") == Col(p, "name") && Col(r.db.customers[c], "dni") == Col(p, "dni")
  {
    StoreSteps(db, p);
    var d := WithCustomer(db, p);
    WithCustomerHolds(db, p);
    if "phone" in p {
      InsertPhoneWrites(d, PhoneRow(p, db.nextCustomer));
    } else {
      assert Store(db, p) == Reply(201, d);
    }
  }

  lemma WithCustomerHolds(db: Db, p: Payload)
    ensures var d := WithCustomer(db, p); var c := db.nextCustomer;
      && d.customers.Keys == db.customers.Keys + {c}
      && (forall j :: j in db.customers && j != c ==> d.customers[j] == db.customers[j])
      && Col(d.customers[c], "agency_id") == Col(p, "agency_id")
      && Col(d.customers[c], "name") == Col(p, "name") && Col(d.customers[c], "dni") == Col(p, "dni")
  {
    CustomerRowHolds(p);
  }

  /** The phone row (`PhoneRow`: the phone, the operator or null and the new
      customer's key) is added under the next phone key exactly when a
      phone was sent and the answer is 201; otherwise no phone row
      changes. */
  lemma StoreAddsPhone(db: Db, p: Payload)
    requires Passes(CustomerStoreRules, p, db)
    ensures var r := Store(db, p);
      && (r.status == 201 && "phone" in p ==> r.db.phones == db.phones[db.nextPhone := PhoneRow(p, db.nextCustomer)])
      && (r.status != 201 || "phone" !in p ==> r.db.phones == db.phones)
  {
    StoreSteps(db, p);
    var d := WithCustomer(db, p);
    assert d.phones == db.phones && d.nextPhone == db.nextPhone;
    if "phone" in p {
      InsertPhoneWrites(d, PhoneRow(p, db.nextCustomer));
    } else {
      assert Store(db, p) == Reply(201, d);
    }
  }

  lemma InsertPhoneWrites(db: Db, row: Row)
    ensures var r := InsertPhone(db, row);
      && (r.status == 201 ==> r.db.phones == db.phones[db.nextPhone := row])
      && (r.status != 201 ==> r.db.phones == db.phones)
      && r.db.customers == db.customers && r.db.operators == db.operators && r.db.nextCustomer == db.nextCustomer
      && (r.status == 201 ==> r.db.nextPhone == db.nextPhone + 1) && r.db.nextPhone >= db.nextPhone
  {
  }

  /** A body that validates hands out the customer's key, whatever then
      happens to its phone. */
  lemma StoreGrowsBy(db: Db, p: Payload)
    requires Passes(CustomerStoreRules, p, db)
    ensures Store(db, p).db.nextCustomer == db.nextCustomer + 1
  {
    StoreSteps(db, p);
    var d := WithCustomer(db, p);
    assert d.nextCustomer == db.nextCustomer + 1;
    if "phone" in p {
      InsertPhoneWrites(d, PhoneRow(p, db.nextCustomer));
    }
  }

  lemma StorePreserves(db: Db, p: Payload)
    requires Consistent(db)
    ensures Consistent(Store(db, p).db)
  {
    var passes := Passes(CustomerStoreRules, p, db);
    if passes {
      StoreSteps(db, p);
      var db1 := WithCustomer(db, p);
      WithCustomerPreserves(db, p);
      if "phone" in p {
        PhoneRowHolds(p, db.nextCustomer);
        InsertPhonePreserves(db1, PhoneRow(p, db.nextCustomer));
      }
    } else {
      assert Store(db, p).db == db;
    }
  }

  lemma WithCustomerPreserves(db: Db, p: Payload)
    requires Consistent(db)
    ensures Consistent(WithCustomer(db, p))
  {
    CustomerRowHolds(p);
    CustomerInserted(db, CustomerRow(p));
  }

  /** A phone insert, accepted or refused, keeps the store consistent. */
  lemma InsertPhonePreserves(db: Db, row: Row)
    requires Consistent(db) && row.Keys == PhoneColumns
    ensures Consistent(InsertPhone(db, row).db)
  {
    if InsertPhone(db, row).status == 201 {
      assert PhonesOk(db.phones, db.customers, db.operators);
      PhonesWrite(db.phones, db.customers, db.operators, db.nextPhone, row);
      assert Shaped(db.phones, PhoneColumns, db.nextPhone);
      ShapedGrow(db.phones, PhoneColumns, db.nextPhone);
      ShapedWrite(db.phones, PhoneColumns, db.nextPhone + 1, db.nextPhone, row);
      PhonesReplaced(db, db.phones[db.nextPhone := row], db.nextPhone + 1);
    }
  }

  /** The comment on the store's operator_id says it may be left out; a
      customer stored that way with a phone, and first with its DNI, can no
      longer be shown: reading its phone's operator name fails with 500. */
  lemma StoreWithoutOperatorBreaksShow(db: Db, p: Payload, dni: string)
    requires db.nextCustomer >= 1 && db.nextPhone >= 1 && Store(db, p).status == 201
    requires "phone" in p && "operator_id" !in p && "dni" in p && StoredAs(p["dni"], dni) && !HoldsText(db.customers, "dni", dni)
    ensures Show(Store(db, p).db, dni).status == 500
  {
    CreatedPasses(db, p);
    NewCustomerFound(db, p, dni);
    NewPhoneDangling(db, p);
    ShowFailsForPhone(Store(db, p).db, dni, db.nextCustomer, db.nextPhone);
  }

  /** Store creates nothing unless the body validates. */
  lemma CreatedPasses(db: Db, p: Payload)
    requires Store(db, p).status == 201
    ensures Passes(CustomerStoreRules, p, db)
  {
  }

  /** After a store, the customer just added is the one its DNI finds when
      no earlier customer held that DNI. */
  lemma NewCustomerFound(db: Db, p: Payload, dni: string)
    requires db.nextCustomer >= 1 && Passes(CustomerStoreRules, p, db)
    requires "dni" in p && StoredAs(p["dni"], dni) && !HoldsText(db.customers, "dni", dni)
    ensures ByDni(Store(db, p).db, dni) == Some(db.nextCustomer)
  {
    var r := Store(db, p);
    var c := db.nextCustomer;
    StoreAddsCustomer(db, p);
    StoreGrowsBy(db, p);
    FirstTextIsOnly(r.db.customers, "dni", dni, 1, r.db.nextCustomer, c);
  }

  /** A phone stored without an operator is a phone row whose operator key
      refers to no operator. */
  lemma NewPhoneDangling(db: Db, p: Payload)
    requires Passes(CustomerStoreRules, p, db) && Store(db, p).status == 201
    requires "phone" in p && "operator_id" !in p
    ensures var d := Store(db, p).db; var j := db.nextPhone;
      && j in d.phones && j < d.nextPhone && Col(d.phones[j], "customer_id") == VInt(db.nextCustomer)
      && !Refers(Col(d.phones[j], "operator_id"), d.operators)
  {
    StoreAddsPhone(db, p);
    StoreTakesTwoKeys(db, p);
    PhoneRowHolds(p, db.nextCustomer);
  }

  /** A store that validates, sends a phone and answers 201 hands out one
      customer key and one phone key and leaves the operators alone. */
  lemma StoreTakesTwoKeys(db: Db, p: Payload)
    requires Passes(CustomerStoreRules, p, db) && "phone" in p && Store(db, p).status == 201
    ensures var d := Store(db, p).db;
      d.nextCustomer == db.nextCustomer + 1 && d.nextPhone == db.nextPhone + 1 && d.operators == db.operators
  {
    StoreSteps(db, p);
    var d := WithCustomer(db, p);
    assert d.nextCustomer == db.nextCustomer + 1 && d.nextPhone == db.nextPhone && d.operators == db.operators;
    InsertPhoneWrites(d, PhoneRow(p, db.nextCustomer));
  }

  /** Show fails with 500 once the customer found has a phone row without an
      operator. */
  lemma ShowFailsForPhone(db: Db, dni: string, c: Id, j: Id)
    requires ByDni(db, dni) == Some(c) && j in db.phones && 1 <= j < db.nextPhone
    requires Col(db.phones[j], "customer_id") == VInt(c) && !Refers(Col(db.phones[j], "operator_id"), db.operators)
    ensures Show(db, dni).status == 500
  {
    assert j in PhonesOf(db, c);
  }

  /** Show answers 404 exactly when no customer's dni column holds the DNI
      (a dni stored as a number holds its digits); otherwise it takes the
      one with the smallest key, and answers 500 when one of its phone
      numbers has no operator, 200 with that customer otherwise. */
  lemma ShowOutcome(db: Db, dni: string)
    requires Consistent(db)
    ensures var s := Show(db, dni);
      && (s.status == 404 <==> !HoldsText(db.customers, "dni", dni))
      && (s.status != 404 ==> s.status == 500 || s.status == 200)
      && (s.status != 404 ==>
            var c := ByDni(db, dni).value;
            && c in db.customers && StoredAs(Col(db.customers[c], "dni"), dni)
            && (forall j :: j in db.customers && StoredAs(Col(db.customers[j], "dni"), dni) ==> c <= j)
            && (s.status == 500 <==>
                  exists j :: j in db.phones && Col(db.phones[j], "customer_id") == VInt(c)
                              && Col(db.phones[j], "operator_id") == VNull)
            && (s.status == 200 ==> |s.data| == 1 && s.data[0].fields["id"] == VInt(c)
                                    && StoredAs(s.data[0].fields["dni"], dni)))
  {
    assert Shaped(db.customers, CustomerColumns, db.nextCustomer);
    FirstTextFindsHeld(db.customers, "dni", dni, db.nextCustomer);
    if ByDni(db, dni).Some? {
      LoadedIffOperators(db, ByDni(db, dni).value);
    }
  }

  /** On 200 show lists one entry per phone row of the customer. */
  lemma ShowListsPhones(db: Db, dni: string)
    requires Show(db, dni).status == 200
    ensures var c := ByDni(db, dni).value;
      |Show(db, dni).data[0].phoneNumbers| == |PhonesOf(db, c)|
      && forall i :: 0 <= i < |PhonesOf(db, c)| ==>
           Show(db, dni).data[0].phoneNumbers[i]["phone"] == Col(db.phones[PhonesOf(db, c)[i]], "phone")
  {
  }

  /** Update answers 200 exactly when the body validates and some customer
      has the DNI; every other case is 500 and changes nothing, 404 never
      occurs. */
  lemma UpdateStatus(db: Db, dni: string, p: Payload)
    requires Consistent(db)
    ensures var r := Update(db, dni, p);
      && (r.status == 200 <==> Passes(CustomerUpdateRules, p, db) && HoldsText(db.customers, "dni", dni))
      && (r.status != 200 ==> r.status == 500 && r.db == db)
  {
    assert Shaped(db.customers, CustomerColumns, db.nextCustomer);
    FirstTextFindsHeld(db.customers, "dni", dni, db.nextCustomer);
  }

  /** A successful update changes only the first customer with the DNI:
      agency_id, name and dni take the submitted value when it is truthy and
      keep theirs otherwise; operator_id is validated but never written. */
  lemma UpdateEffect(db: Db, dni: string, p: Payload)
    requires Update(db, dni, p).status == 200
    ensures var r := Update(db, dni, p); var c := ByDni(db, dni).value;
      && r.db.customers.Keys == db.customers.Keys
      && (forall j :: j in db.customers && j != c ==> r.db.customers[j] == db.customers[j])
      && r.db.customers[c].Keys == db.customers[c].Keys
      && (forall k :: k in db.customers[c] && k in {"agency_id", "name", "dni"} ==>
            r.db.customers[c][k] == if k in p && Truthy(p[k]) then p[k] else db.customers[c][k])
      && "operator_id" !in Changes(p)
      && r.db.(customers := db.customers) == db
  {
    var c := ByDni(db, dni).value;
    assert Update(db, dni, p) == Reply(200, db.(customers := db.customers[c := Overwrite(db.customers[c], Changes(p))]));
    ChangesWritten(db.customers[c], p);
    CustomerUpdateDropsOperator(p);
  }

  /** The fields update writes: agency_id, name and dni when sent truthy. */
  lemma ChangesWritten(row: Row, p: Payload)
    ensures forall k :: k in row && k in {"agency_id", "name", "dni"} ==>
      Overwrite(row, Changes(p))[k] == if k in p && Truthy(p[k]) then p[k] else row[k]
  {
    assert CustomerUpdateRules[0].0 == "agency_id" && CustomerUpdateRules[1].0 == "name";
    assert CustomerUpdateRules[2].0 == "dni";
    forall k | k in row && k in {"agency_id", "name", "dni"}
      ensures Overwrite(row, Changes(p))[k] == if k in p && Truthy(p[k]) then p[k] else row[k]
    {
      assert k in Keys(CustomerUpdateRules) && k in CustomerFillable;
    }
  }

  lemma UpdatePreserves(db: Db, dni: string, p: Payload)
    requires Consistent(db)
    ensures Consistent(Update(db, dni, p).db)
  {
    var r := Update(db, dni, p);
    if r.status == 200 {
      UpdateEffect(db, dni, p);
      var c := ByDni(db, dni).value;
      ShapedWrite(db.customers, CustomerColumns, db.nextCustomer, c, r.db.customers[c]);
      LinksKept(db, r.db);
      assert AppUniqueOk(r.db) by { assert AppUniqueOk(db); }
    }
  }

  /** Destroy answers 500 for an unknown key and changes nothing; for a
      stored customer it answers 200 exactly when no sale and no customer
      record names it, and removes the customer then, and only then. */
  lemma DestroyStatus(db: Db, id: Id)
    ensures var r := Destroy(db, id);
      && (id !in db.customers ==> r.status == 500 && r.db == db)
      && (r.status == 200 <==>
            id in db.customers && Unreferenced(db.sales, "customer_id", id) && Unreferenced(db.records, "customer_id", id))
      && (r.status != 200 ==> r.status == 500 && r.db.customers == db.customers)
      && (r.status == 200 ==> r.db.customers.Keys == db.customers.Keys - {id})
      && r.db.(phones := db.phones, customers := db.customers) == db
  {
    DestroySteps(db, id);
  }

  /** The three ways destroy ends. */
  lemma DestroySteps(db: Db, id: Id)
    ensures id !in db.customers ==> Destroy(db, id) == Reply(500, db)
    ensures id in db.customers && !(Unreferenced(db.sales, "customer_id", id) && Unreferenced(db.records, "customer_id", id))
      ==> Destroy(db, id) == Reply(500, db.(phones := WithoutPhonesOf(db.phones, id)))
    ensures id in db.customers && Unreferenced(db.sales, "customer_id", id) && Unreferenced(db.records, "customer_id", id)
      ==> Destroy(db, id) == Reply(200, db.(phones := WithoutPhonesOf(db.phones, id), customers := db.customers - {id}))
  {
  }

  /** For a stored customer the phone numbers are deleted before the
      customer, so they are gone whether the answer is 200 or 500. */
  lemma DestroyDeletesPhones(db: Db, id: Id)
    requires id in db.customers
    ensures var r := Destroy(db, id);
      && (forall j :: j in r.db.phones <==> j in db.phones && Col(db.phones[j], "customer_id") != VInt(id))
      && (forall j :: j in r.db.phones ==> r.db.phones[j] == db.phones[j])
  {
    DestroySteps(db, id);
  }

  lemma DestroyPreserves(db: Db, id: Id)
    requires Consistent(db)
    ensures Consistent(Destroy(db, id).db)
  {
    DestroySteps(db, id);
    if id in db.customers {
      PhonesDropped(db, id);
      if Unreferenced(db.sales, "customer_id", id) && Unreferenced(db.records, "customer_id", id) {
        CustomerDropped(db.(phones := WithoutPhonesOf(db.phones, id)), id);
      }
    }
  }

  /** Deleting a customer's phone numbers keeps the store consistent. */
  lemma PhonesDropped(db: Db, id: Id)
    requires Consistent(db)
    ensures Consistent(db.(phones := WithoutPhonesOf(db.phones, id)))
  {
    var phones := WithoutPhonesOf(db.phones, id);
    assert PhonesOk(phones, db.customers, db.operators);
    assert Shaped(phones, PhoneColumns, db.nextPhone);
    PhonesReplaced(db, phones, db.nextPhone);
  }

  /** Deleting a customer no row refers to keeps the store consistent. */
  lemma CustomerDropped(db: Db, id: Id)
    requires Consistent(db) && Unreferenced(db.phones, "customer_id", id)
    requires Unreferenced(db.sales, "customer_id", id) && Unreferenced(db.records, "customer_id", id)
    ensures Consistent(db.(customers := db.customers - {id}))
  {
    var d := db.(customers := db.customers - {id});
    ColRefersShrink(db.phones, "customer_id", db.customers, id);
    ColRefersShrink(db.sales, "customer_id", db.customers, id);
    ColRefersShrink(db.records, "customer_id", db.customers, id);
    assert Shaped(d.customers, CustomerColumns, db.nextCustomer);
    assert AllShaped(d) by { assert AllShaped(db); }
    assert PhonesOk(d.phones, d.customers, d.operators) by { assert PhonesOk(db.phones, db.customers, db.operators); }
    assert SalesOk(d) by { assert SalesOk(db); }
    assert RecordsOk(d) by { assert RecordsOk(db); }
    assert AppUniqueOk(d) by { assert AppUniqueOk(db); }
  }

  /** Index answers 404 exactly for an empty page (a page past the last
      one included), 500 when a customer on the page has a phone number
      without an operator, and otherwise 200 with the page's customers,
      at most `per_page` of them, ascending by key. */
  lemma IndexOutcome(db: Db, perPage: Option<nat>, page: Option<int>)
    ensures var s := Index(db, perPage, page); var ids := IndexIds(db, perPage, page);
      && (s.status == 404 <==> |ids| == 0)
      && (s.status == 500 <==> |ids| > 0 && exists i :: 0 <= i < |ids| && !OperatorsLoaded(db, ids[i]))
      && (s.status == 200 ==> |s.data| == |ids| && forall i :: 0 <= i < |ids| ==> Col(s.data[i].fields, "id") == VInt(ids[i]))
      && |ids| <= PerPage(perPage, 10)
      && (forall i, k :: 0 <= i < k < |ids| ==> ids[i] < ids[k])
  {
    var ids := IndexIds(db, perPage, page);
    PageAscending(IdsIn(db.customers, 1, db.nextCustomer), CurrentPage(page), PerPage(perPage, 10));
    var s := Index(db, perPage, page);
    if s.status == 200 {
      forall i | 0 <= i < |ids| ensures Col(s.data[i].fields, "id") == VInt(ids[i]) {
        assert s.data[i] == Json(db, ids[i]);
      }
    }
  }
}
