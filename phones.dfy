/** PhonesNumberController: the phones_numbers resource. */
module Phones {
  import opened Values
  import opened Schema
  import opened Rules
  import opened Query

  /** The object show sends for a phone row. */
  function ShowJson(t: Table, id: Id): Payload
    requires id in t
  {
    map["id" := VInt(id), "customer_id" := Col(t[id], "customer_id"),
        "operator_id" := OrEmpty(Col(t[id], "operator_id")),
        "phone" := OrEmpty(Col(t[id], "phone"))]
  }

  /** The object index sends: the same, but the operator goes under the key
      `operators_id`. */
  function IndexJson(t: Table, id: Id): Payload
    requires id in t
  {
    map["id" := VInt(id), "customer_id" := Col(t[id], "customer_id"),
        "operators_id" := OrEmpty(Col(t[id], "operator_id")),
        "phone" := OrEmpty(Col(t[id], "phone"))]
  }

  /** The index objects of the rows `ids`, in that order. */
  function IndexList(t: Table, ids: seq<Id>): (r: seq<Payload>)
    requires forall j :: j in ids ==> j in t
    ensures |r| == |ids|
    ensures forall i :: 0 <= i < |ids| ==> "id" in r[i] && r[i]["id"] == VInt(ids[i])
  {
    seq(|ids|, i requires 0 <= i < |ids| => IndexJson(t, ids[i]))
  }

  /** index: every phone row in key order; an empty table gives 404. */
  function Index(db: Db): Shown
  {
    if db.phones == map[] then Shown(404, [])
    else Shown(200, IndexList(db.phones, IdsIn(db.phones, 1, db.nextPhone)))
  }

  function Show(db: Db, id: Id): Shown
  {
    if id in db.phones then Shown(200, [ShowJson(db.phones, id)]) else Shown(404, [])
  }

  /** The row `create` inserts: the allow-list keeps phone, customer_id and
      operator_id; equip and imei stay null. */
  function NewRow(p: Payload): Row
  {
    Fill(PhoneColumns, map[], Only(Validated(PhoneStoreRules, p), PhoneFillable))
  }

  /** store: validate (500), then insert; the database refuses a row whose
      customer or operator does not exist (500). */
  function Store(db: Db, p: Payload): Reply
  {
    if !Passes(PhoneStoreRules, p, db) then Reply(500, db)
    else if !PhoneRowAccepted(NewRow(p), db.nextPhone, db.phones, db.customers, db.operators) then Reply(500, db)
    else Reply(201, WithPhone(db, p))
  }

  /** The store once `PhonesNumber::create` has run: the new row under the
      next key. */
  function WithPhone(db: Db, p: Payload): Db
  {
    db.(phones := db.phones[db.nextPhone := NewRow(p)], nextPhone := db.nextPhone + 1)
  }

  function Changes(p: Payload): Payload
  {
    Only(ArrayFilter(Validated(PhoneUpdateRules, p)), PhoneFillable)
  }

  /** update: 404 first, then validate (500), then update with the truthy
      validated fields; the database refuses a dangling key or a phone
      longer than its column (500). */
  function Update(db: Db, id: Id, p: Payload): Reply
  {
    if id !in db.phones then Reply(404, db)
    else if !Passes(PhoneUpdateRules, p, db) then Reply(500, db)
    else
      var row := Overwrite(db.phones[id], Changes(p));
      if !PhoneRowAccepted(row, id, db.phones, db.customers, db.operators) then Reply(500, db)
      else Reply(200, db.(phones := db.phones[id := row]))
  }

  /** destroy: no foreign key points at a phone row. */
  function Destroy(db: Db, id: Id): Reply
  {
    if id !in db.phones then Reply(404, db) else Reply(200, db.(phones := db.phones - {id}))
  }

  // ---- Properties ----

  lemma StoreRuleKeys()
    ensures Keys(PhoneStoreRules) == PhoneColumns
  {
    assert PhoneStoreRules[0].0 == "phone" && PhoneStoreRules[1].0 == "customer_id";
    assert PhoneStoreRules[2].0 == "operator_id" && PhoneStoreRules[3].0 == "equip";
    assert PhoneStoreRules[4].0 == "imei";
  }

  /** What the allow-list keeps of the store rules' fields. */
  lemma StoreWrites()
    ensures Keys(PhoneStoreRules) * PhoneFillable == {"phone", "customer_id", "operator_id"}
  {
    StoreRuleKeys();
  }

  lemma NewRowHolds(p: Payload)
    ensures NewRow(p).Keys == PhoneColumns
    ensures NewRow(p)["phone"] == Col(p, "phone")
    ensures NewRow(p)["customer_id"] == Col(p, "customer_id")
    ensures NewRow(p)["operator_id"] == Col(p, "operator_id")
    ensures NewRow(p)["equip"] == VNull && NewRow(p)["imei"] == VNull
  {
    StoreKeysKept();
  }

  /** The allow-list keeps phone, customer_id and operator_id, which store
      validates, and drops equip and imei. */
  lemma StoreKeysKept()
    ensures "phone" in Keys(PhoneStoreRules) && "customer_id" in Keys(PhoneStoreRules)
    ensures "operator_id" in Keys(PhoneStoreRules)
    ensures "phone" in PhoneFillable && "customer_id" in PhoneFillable && "operator_id" in PhoneFillable
    ensures "equip" !in PhoneFillable && "imei" !in PhoneFillable
  {
    StoreRuleKeys();
  }

  /** Store answers 201 exactly when the body validates and both the
      customer and the operator exist; validation checks neither, so a
      dangling key gets as far as the insert and fails there with 500. */
  lemma StoreStatus(db: Db, p: Payload)
    requires Consistent(db)
    ensures var r := Store(db, p);
      && (r.status == 201 <==>
            Passes(PhoneStoreRules, p, db)
            && Refers(p["customer_id"], db.customers) && Refers(p["operator_id"], db.operators))
      && (r.status != 201 ==> r.status == 500 && r.db == db)
  {
    PhoneStoreAccepts(p, db);
    NewRowHolds(p);
  }

  /** A successful store adds exactly one row, under the next key, holding
      the submitted phone, customer and operator; a submitted equip or imei
      is dropped by the allow-list. */
  lemma StoreEffect(db: Db, p: Payload)
    requires Store(db, p).status == 201
    ensures var r := Store(db, p);
      && r.db.phones.Keys == db.phones.Keys + {db.nextPhone}
      && (forall j :: j in db.phones && j != db.nextPhone ==> r.db.phones[j] == db.phones[j])
      && r.db.phones[db.nextPhone].Keys == PhoneColumns
      && r.db.phones[db.nextPhone]["phone"] == p["phone"]
      && r.db.phones[db.nextPhone]["customer_id"] == p["customer_id"]
      && r.db.phones[db.nextPhone]["operator_id"] == p["operator_id"]
      && r.db.phones[db.nextPhone]["equip"] == VNull && r.db.phones[db.nextPhone]["imei"] == VNull
      && r.db.(phones := db.phones, nextPhone := db.nextPhone) == db
  {
    PhoneStoreAccepts(p, db);
    assert Store(db, p).db == WithPhone(db, p);
    WithPhoneHolds(db, p);
  }

  /** The store after the insert holds the new row under the next key and
      is otherwise unchanged. */
  lemma WithPhoneHolds(db: Db, p: Payload)
    ensures var d := WithPhone(db, p);
      && d.phones.Keys == db.phones.Keys + {db.nextPhone}
      && (forall j :: j in db.phones && j != db.nextPhone ==> d.phones[j] == db.phones[j])
      && d.phones[db.nextPhone].Keys == PhoneColumns
      && d.phones[db.nextPhone]["phone"] == Col(p, "phone")
      && d.phones[db.nextPhone]["customer_id"] == Col(p, "customer_id")
      && d.phones[db.nextPhone]["operator_id"] == Col(p, "operator_id")
      && d.phones[db.nextPhone]["equip"] == VNull && d.phones[db.nextPhone]["imei"] == VNull
      && d.(phones := db.phones, nextPhone := db.nextPhone) == db
  {
    NewRowHolds(p);
  }

  lemma StorePreserves(db: Db, p: Payload)
    requires Consistent(db)
    ensures Consistent(Store(db, p).db)
  {
    var r := Store(db, p);
    if r.status == 201 {
      PhonesWrite(db.phones, db.customers, db.operators, db.nextPhone, NewRow(p));
      NewRowHolds(p);
      ShapedGrow(db.phones, PhoneColumns, db.nextPhone);
      ShapedWrite(db.phones, PhoneColumns, db.nextPhone + 1, db.nextPhone, NewRow(p));
      PhonesReplaced(db, r.db.phones, db.nextPhone + 1);
    }
  }

  lemma UpdateRuleKeys()
    ensures Keys(PhoneUpdateRules) == {"customer_id", "operator_id", "phone", "equip", "ime"}
  {
    assert PhoneUpdateRules[0].0 == "customer_id" && PhoneUpdateRules[1].0 == "operator_id";
    assert PhoneUpdateRules[2].0 == "phone" && PhoneUpdateRules[3].0 == "equip";
    assert PhoneUpdateRules[4].0 == "ime";
  }

  /** What an update may write: customer_id, operator_id and phone when sent
      truthy, never equip or imei. */
  lemma ChangesHold(p: Payload)
    ensures "equip" !in Changes(p) && "imei" !in Changes(p)
    ensures "customer_id" in Changes(p) <==> "customer_id" in p && Truthy(p["customer_id"])
    ensures "operator_id" in Changes(p) <==> "operator_id" in p && Truthy(p["operator_id"])
    ensures "phone" in Changes(p) <==> "phone" in p && Truthy(p["phone"])
    ensures forall c :: c in Changes(p) ==> c in p && Changes(p)[c] == p[c]
  {
    UpdateRuleKeys();
  }

  /** Update answers 404 for an unknown row before it validates, and 500
      for a body that fails validation; nothing changes unless it answers
      200. */
  lemma UpdateStatus(db: Db, id: Id, p: Payload)
    ensures var r := Update(db, id, p);
      && (r.status == 404 <==> id !in db.phones)
      && (id in db.phones && !Passes(PhoneUpdateRules, p, db) ==> r.status == 500)
      && (r.status == 200 ==> id in db.phones && Passes(PhoneUpdateRules, p, db))
      && (r.status != 200 ==> r.db == db)
  {
  }

  /** On 200 each of customer_id, operator_id and phone takes the submitted
      value when it is truthy and keeps its value otherwise; equip and imei
      never change (`ime` is not a column and neither is on the allow-list). */
  lemma UpdateEffect(db: Db, id: Id, p: Payload)
    requires Update(db, id, p).status == 200
    ensures var r := Update(db, id, p);
      && r.db.phones.Keys == db.phones.Keys
      && (forall j :: j in db.phones && j != id ==> r.db.phones[j] == db.phones[j])
      && r.db.phones[id].Keys == db.phones[id].Keys
      && (forall c :: c in db.phones[id] && c in {"customer_id", "operator_id", "phone"} ==>
            r.db.phones[id][c] == if c in p && Truthy(p[c]) then p[c] else db.phones[id][c])
      && (forall c :: c in db.phones[id] && c in {"equip", "imei"} ==> r.db.phones[id][c] == db.phones[id][c])
      && r.db.(phones := db.phones) == db
  {
    ChangesHold(p);
  }

  /** The row a validated update would write over an accepted row. */
  lemma UpdateRow(db: Db, id: Id, p: Payload)
    requires id in db.phones && Passes(PhoneUpdateRules, p, db)
    requires PhoneRowAccepted(db.phones[id], id, db.phones, db.customers, db.operators)
    ensures var row := Overwrite(db.phones[id], Changes(p));
      && row.Keys == PhoneColumns
      && row["customer_id"] == (if "customer_id" in p && Truthy(p["customer_id"]) then p["customer_id"] else db.phones[id]["customer_id"])
      && row["operator_id"] == (if "operator_id" in p && Truthy(p["operator_id"]) then p["operator_id"] else db.phones[id]["operator_id"])
      && row["phone"] == (if "phone" in p && Truthy(p["phone"]) then p["phone"] else db.phones[id]["phone"])
      && row["equip"] == db.phones[id]["equip"] && row["imei"] == db.phones[id]["imei"]
      && FreshIn(db.phones, "phone", row["phone"], id)
  {
    ChangesHold(p);
    PhoneUpdateAccepts(p, db);
  }

  /** On a consistent store the database refuses a validated update only for
      a truthy customer_id or operator_id that names no row, or a truthy
      phone longer than nine characters. */
  lemma UpdateRefusedByDatabase(db: Db, id: Id, p: Payload)
    requires Consistent(db) && id in db.phones && Passes(PhoneUpdateRules, p, db)
    ensures Update(db, id, p).status == 500 <==>
      || ("customer_id" in p && Truthy(p["customer_id"]) && !Refers(p["customer_id"], db.customers))
      || ("operator_id" in p && Truthy(p["operator_id"]) && !Refers(p["operator_id"], db.operators))
      || ("phone" in p && Truthy(p["phone"]) && !StrUpTo(p["phone"], 9))
  {
    StoredAccepted(db, id);
    RefusedIff(db, id, p);
  }

  /** Every stored phone row is one the database accepts. */
  lemma StoredAccepted(db: Db, id: Id)
    requires Consistent(db) && id in db.phones
    ensures PhoneRowAccepted(db.phones[id], id, db.phones, db.customers, db.operators)
  {
    assert PhonesOk(db.phones, db.customers, db.operators);
    assert db.phones[id].Keys == PhoneColumns by { assert Shaped(db.phones, PhoneColumns, db.nextPhone); }
  }

  /** Updating an accepted row with a validated body is refused exactly for
      a dangling key or an over-long phone among the truthy fields. */
  lemma RefusedIff(db: Db, id: Id, p: Payload)
    requires id in db.phones && Passes(PhoneUpdateRules, p, db)
    requires PhoneRowAccepted(db.phones[id], id, db.phones, db.customers, db.operators)
    ensures Update(db, id, p).status == 500 <==>
      || ("customer_id" in p && Truthy(p["customer_id"]) && !Refers(p["customer_id"], db.customers))
      || ("operator_id" in p && Truthy(p["operator_id"]) && !Refers(p["operator_id"], db.operators))
      || ("phone" in p && Truthy(p["phone"]) && !StrUpTo(p["phone"], 9))
  {
    UpdateRow(db, id, p);
    PhoneUpdateAccepts(p, db);
  }

  /** Validation does not exclude the row being updated: sending its own
      phone back fails with 500. */
  lemma UpdateOwnPhoneFails(db: Db, id: Id, p: Payload)
    requires id in db.phones && "phone" in p && p["phone"] == Col(db.phones[id], "phone")
    ensures Update(db, id, p).status == 500
  {
    PhoneUpdateRejectsHeldPhone(p, db, id);
  }

  lemma UpdatePreserves(db: Db, id: Id, p: Payload)
    requires Consistent(db)
    ensures Consistent(Update(db, id, p).db)
  {
    var r := Update(db, id, p);
    if r.status == 200 {
      UpdateStatus(db, id, p);
      var row := r.db.phones[id];
      PhonesWrite(db.phones, db.customers, db.operators, id, row);
      ShapedWrite(db.phones, PhoneColumns, db.nextPhone, id, row);
      PhonesReplaced(db, r.db.phones, db.nextPhone);
    }
  }

  /** Destroy answers 404 for an unknown row and otherwise removes exactly it. */
  lemma DestroyOutcome(db: Db, id: Id)
    ensures var r := Destroy(db, id);
      && (r.status == 200 <==> id in db.phones)
      && (r.status != 200 ==> r.status == 404 && r.db == db)
      && (r.status == 200 ==> r.db.phones.Keys == db.phones.Keys - {id} && r.db.(phones := db.phones) == db)
  {
  }

  lemma DestroyPreserves(db: Db, id: Id)
    requires Consistent(db)
    ensures Consistent(Destroy(db, id).db)
  {
    var r := Destroy(db, id);
    if r.status == 200 {
      var t := r.db.phones;
      assert PhonesOk(t, db.customers, db.operators);
      assert Shaped(t, PhoneColumns, db.nextPhone);
      PhonesReplaced(db, t, db.nextPhone);
    }
  }

  /** Show answers 200 for a stored row, with a loosely-null operator or
      phone sent as "", or 404. */
  lemma ShowOutcome(db: Db, id: Id)
    ensures var s := Show(db, id);
      && (s.status == 200 <==> id in db.phones)
      && (s.status != 200 ==> s.status == 404 && s.data == [])
      && (s.status == 200 ==> |s.data| == 1 && s.data[0]["id"] == VInt(id)
                              && s.data[0]["customer_id"] == Col(db.phones[id], "customer_id")
                              && s.data[0]["operator_id"] == OrEmpty(Col(db.phones[id], "operator_id"))
                              && s.data[0]["phone"] == OrEmpty(Col(db.phones[id], "phone"))
                              && s.data[0]["operator_id"] != VNull && s.data[0]["phone"] != VNull)
  {
  }

  /** Index answers 404 exactly when there is no phone row and 200
      otherwise; its objects carry the operator under `operators_id`. */
  lemma IndexStatus(db: Db)
    ensures var s := Index(db);
      && (s.status == 404 <==> db.phones == map[])
      && (s.status != 404 ==> s.status == 200)
      && (forall i :: 0 <= i < |s.data| ==> "operators_id" in s.data[i] && "operator_id" !in s.data[i])
  {
  }

  /** Index lists every phone row once, by ascending key (every key lies
      below the key counter, as in any consistent store). */
  lemma IndexListsAll(db: Db)
    requires KeysBelow(db.phones, db.nextPhone)
    ensures var s := Index(db);
      && (forall id :: id in db.phones <==> exists i :: 0 <= i < |s.data| && s.data[i]["id"] == VInt(id))
      && (forall i, k :: 0 <= i < k < |s.data| ==> s.data[i]["id"].i < s.data[k]["id"].i)
  {
    if db.phones != map[] {
      ListsEveryKey(db.phones, db.nextPhone, Index(db).data);
    }
  }
}
