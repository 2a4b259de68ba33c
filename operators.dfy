/** OperatorsController: the operators resource. */
module Operators {
  import opened Values
  import opened Schema
  import opened Rules
  import opened Query

  function Json(t: Table, id: Id): Payload
    requires id in t
  {
    map["id" := VInt(id), "name" := Col(t[id], "name")]
  }

  /** The JSON objects of the rows `ids`, in that order. */
  function JsonList(t: Table, ids: seq<Id>): (r: seq<Payload>)
    requires forall j :: j in ids ==> j in t
    ensures |r| == |ids|
    ensures forall i :: 0 <= i < |ids| ==> "id" in r[i] && r[i]["id"] == VInt(ids[i])
  {
    seq(|ids|, i requires 0 <= i < |ids| => Json(t, ids[i]))
  }

  /** index: `Operators::all()` is never falsy; every operator is listed. */
  function Index(db: Db): Shown
  {
    Shown(200, JsonList(db.operators, IdsIn(db.operators, 1, db.nextOperator)))
  }

  function Show(db: Db, id: Id): Shown
  {
    if id in db.operators then Shown(200, [Json(db.operators, id)]) else Shown(404, [])
  }

  /** store: validate, create, and answer 200 (not 201). */
  function Store(db: Db, p: Payload): Reply
  {
    if !Passes(OperatorRules, p, db) then Reply(500, db)
    else
      Reply(200, WithOperator(db, p))
  }

  /** The store once `Operators::create` has run with the validated fields. */
  function WithOperator(db: Db, p: Payload): Db
  {
    db.(operators := db.operators[db.nextOperator := NewRow(p)], nextOperator := db.nextOperator + 1)
  }

  /** The row `Operators::create` writes: the validated name. */
  function NewRow(p: Payload): Row
  {
    Fill(OperatorColumns, map[], Only(Validated(OperatorRules, p), OperatorFillable))
  }

  function Changes(p: Payload): Payload
  {
    Only(ArrayFilter(Validated(OperatorRules, p)), OperatorFillable)
  }

  /** update: validate first (500), then `find`; a missing operator is null
      and calling `update` on it throws (500); otherwise 201. */
  function Update(db: Db, id: Id, p: Payload): Reply
  {
    if !Passes(OperatorRules, p, db) then Reply(500, db)
    else if id !in db.operators then Reply(500, db)
    else Reply(201, db.(operators := db.operators[id := Overwrite(db.operators[id], Changes(p))]))
  }

  /** Phones, sales and customer records restrict the delete of an operator
      they name. */
  predicate Deletable(db: Db, id: Id)
  {
    && Unreferenced(db.phones, "operator_id", id)
    && Unreferenced(db.sales, "operator_id", id)
    && Unreferenced(db.records, "operator_id", id)
  }

  /** destroy: 404 for an unknown operator; a refused delete throws (500). */
  function Destroy(db: Db, id: Id): Reply
  {
    if id !in db.operators then Reply(404, db)
    else if !Deletable(db, id) then Reply(500, db)
    else Reply(200, db.(operators := db.operators - {id}))
  }

  // ---- Properties ----

  lemma RuleKeys()
    ensures Keys(OperatorRules) == OperatorColumns
  {
    assert OperatorRules[0].0 == "name";
  }

  /** Store answers 200 exactly when the name is a non-blank string of at
      most 10 characters that no operator has; otherwise 500 and nothing
      changes. */
  lemma StoreStatus(db: Db, p: Payload)
    ensures var r := Store(db, p);
      && (r.status == 200 <==> "name" in p && p["name"].VStr? && !Blank(p["name"]) && |p["name"].s| <= 10
                               && !Holds(db.operators, "name", p["name"]))
      && (r.status != 200 ==> r.status == 500 && r.db == db)
  {
    OperatorAccepts(p, db);
  }

  /** A successful store adds one operator, under the next key, holding the
      submitted name; nothing else changes. */
  lemma StoreEffect(db: Db, p: Payload)
    requires Store(db, p).status == 200
    ensures var r := Store(db, p);
      && r.db.operators.Keys == db.operators.Keys + {db.nextOperator}
      && (forall j :: j in db.operators && j != db.nextOperator ==> r.db.operators[j] == db.operators[j])
      && r.db.operators[db.nextOperator] == map["name" := p["name"]]
      && r.db.(operators := db.operators, nextOperator := db.nextOperator) == db
  {
    OperatorAccepts(p, db);
    NewRowName(p);
    assert NewRow(p) == map["name" := p["name"]];
    assert Store(db, p).db == WithOperator(db, p);
  }

  lemma StorePreserves(db: Db, p: Payload)
    requires Consistent(db)
    ensures Consistent(Store(db, p).db)
  {
    if Passes(OperatorRules, p, db) {
      WithOperatorPreserves(db, p);
    } else {
      assert Store(db, p).db == db;
    }
  }

  lemma WithOperatorPreserves(db: Db, p: Payload)
    requires Consistent(db) && Passes(OperatorRules, p, db)
    ensures Consistent(WithOperator(db, p))
  {
    OperatorAccepts(p, db);
    NewRowName(p);
    OperatorInserted(db, NewRow(p));
  }

  /** The new row holds the name sent. */
  lemma NewRowName(p: Payload)
    requires "name" in p
    ensures NewRow(p).Keys == OperatorColumns && NewRow(p)["name"] == p["name"]
  {
    RuleKeys();
    assert "name" in Keys(OperatorRules) && "name" in OperatorFillable;
  }

  /** A new operator row with a name no operator has keeps the store
      consistent. */
  lemma OperatorInserted(db: Db, row: Row)
    requires Consistent(db) && row.Keys == OperatorColumns && !Holds(db.operators, "name", Col(row, "name"))
    ensures Consistent(db.(operators := db.operators[db.nextOperator := row], nextOperator := db.nextOperator + 1))
  {
    var n := db.nextOperator;
    assert FreshIn(db.operators, "name", Col(row, "name"), n);
    UniqueColWrite(db.operators, "name", n, row);
    assert Shaped(db.operators, OperatorColumns, n);
    ShapedGrow(db.operators, OperatorColumns, n);
    ShapedWrite(db.operators, OperatorColumns, n + 1, n, row);
    OperatorsReplaced(db, db.operators[n := row], n + 1);
  }

  /** Update checks the body before the operator: an invalid body gives 500
      whatever the key; a valid body for an unknown key gives 500 too, never
      404; a valid body for a stored operator gives 201. */
  lemma UpdateStatus(db: Db, id: Id, p: Payload)
    ensures var r := Update(db, id, p);
      && (r.status == 201 <==> Passes(OperatorRules, p, db) && id in db.operators)
      && (r.status != 201 ==> r.status == 500 && r.db == db)
  {
  }

  /** The name must be new to every operator, the one being updated
      included: an operator cannot be saved under its own name. */
  lemma UpdateOwnNameFails(db: Db, id: Id, p: Payload)
    requires id in db.operators && "name" in p && p["name"] == Col(db.operators[id], "name")
    ensures Update(db, id, p).status == 500
  {
    OperatorRejectsHeldName(p, db, id);
  }

  /** A successful update renames the operator, unless the new name is "0":
      validation accepts it, `array_filter` drops it, and the operator keeps
      its name while the answer is still 201. */
  lemma UpdateEffect(db: Db, id: Id, p: Payload)
    requires Update(db, id, p).status == 201
    ensures var r := Update(db, id, p);
      && r.db.operators.Keys == db.operators.Keys
      && (forall j :: j in db.operators && j != id ==> r.db.operators[j] == db.operators[j])
      && r.db.operators[id].Keys == db.operators[id].Keys
      && ("name" in db.operators[id] ==>
            r.db.operators[id]["name"] == if p["name"] == VStr("0") then db.operators[id]["name"] else p["name"])
      && r.db.(operators := db.operators) == db
  {
    OperatorAccepts(p, db);
    RuleKeys();
    assert "name" in Keys(OperatorRules) && "name" in OperatorFillable;
  }

  lemma UpdatePreserves(db: Db, id: Id, p: Payload)
    requires Consistent(db)
    ensures Consistent(Update(db, id, p).db)
  {
    var r := Update(db, id, p);
    if r.status == 201 {
      UpdateStatus(db, id, p);
      UpdateEffect(db, id, p);
      OperatorAccepts(p, db);
      var row := r.db.operators[id];
      if "name" in Changes(p) {
        assert FreshIn(db.operators, "name", Col(row, "name"), id);
        UniqueColWrite(db.operators, "name", id, row);
      } else {
        assert row == db.operators[id];
      }
      assert r.db == db.(operators := db.operators[id := row]);
      assert Shaped(db.operators, OperatorColumns, db.nextOperator);
      ShapedWrite(db.operators, OperatorColumns, db.nextOperator, id, row);
      OperatorsReplaced(db, db.operators[id := row], db.nextOperator);
    }
  }

  /** Destroy answers 404 for an unknown operator, 500 while a phone, sale
      or customer record names it, and otherwise removes exactly it. */
  lemma DestroyOutcome(db: Db, id: Id)
    ensures var r := Destroy(db, id);
      && (r.status == 404 <==> id !in db.operators)
      && (r.status == 500 <==> id in db.operators && !Deletable(db, id))
      && (r.status == 200 <==> id in db.operators && Deletable(db, id))
      && (r.status != 200 ==> r.db == db)
      && (r.status == 200 ==> r.db.operators.Keys == db.operators.Keys - {id}
                              && r.db.(operators := db.operators) == db)
  {
  }

  lemma DestroyPreserves(db: Db, id: Id)
    requires Consistent(db)
    ensures Consistent(Destroy(db, id).db)
  {
    var r := Destroy(db, id);
    if r.status == 200 {
      ColRefersOrNullShrink(db.phones, "operator_id", db.operators, id);
      ColRefersShrink(db.sales, "operator_id", db.operators, id);
      ColRefersShrink(db.records, "operator_id", db.operators, id);
      assert UniqueCol(r.db.operators, "name");
      assert Shaped(r.db.operators, OperatorColumns, db.nextOperator);
    }
  }

  /** Show answers 200 with the operator's key and name, or 404. */
  lemma ShowOutcome(db: Db, id: Id)
    ensures var s := Show(db, id);
      && (s.status == 200 <==> id in db.operators)
      && (s.status != 200 ==> s.status == 404 && s.data == [])
      && (s.status == 200 ==> s.data == [map["id" := VInt(id), "name" := Col(db.operators[id], "name")]])
  {
  }

  /** Index always answers 200 and lists every operator once, by ascending key. */
  lemma IndexListsAll(db: Db)
    requires KeysBelow(db.operators, db.nextOperator)
    ensures var s := Index(db);
      && s.status == 200
      && (forall id :: id in db.operators <==> exists i :: 0 <= i < |s.data| && s.data[i]["id"] == VInt(id))
      && (forall i, k :: 0 <= i < k < |s.data| ==> s.data[i]["id"].i < s.data[k]["id"].i)
  {
    ListsEveryKey(db.operators, db.nextOperator, Index(db).data);
  }
}
