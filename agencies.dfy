/** AgencyController: the agencies resource. */
module Agencies {
  import opened Values
  import opened Schema
  import opened Rules
  import opened Query

  /** The object show and index send for an agency: empty strings instead of
      loosely-null address, phone and e-mail. */
  function Json(t: Table, id: Id): Payload
    requires id in t
  {
    map["id" := VInt(id), "name" := Col(t[id], "name"),
        "address" := OrEmpty(Col(t[id], "address")),
        "phone" := OrEmpty(Col(t[id], "phone")),
        "email" := OrEmpty(Col(t[id], "email"))]
  }

  /** The JSON objects of the rows `ids`, in that order. */
  function JsonList(t: Table, ids: seq<Id>): (r: seq<Payload>)
    requires forall j :: j in ids ==> j in t
    ensures |r| == |ids|
    ensures forall i :: 0 <= i < |ids| ==> "id" in r[i] && r[i]["id"] == VInt(ids[i])
    ensures forall i :: 0 <= i < |ids| ==> "name" in r[i] && r[i]["name"] == Col(t[ids[i]], "name")
  {
    seq(|ids|, i requires 0 <= i < |ids| => Json(t, ids[i]))
  }

  /** index: `Agency::all()` is a collection, never falsy, so the 404 branch
      is dead and every agency is listed. */
  function Index(db: Db): Shown
  {
    var ids := IdsIn(db.agencies, 1, db.nextAgency);
    Shown(200, JsonList(db.agencies, ids))
  }

  function Show(db: Db, id: Id): Shown
  {
    if id in db.agencies then Shown(200, [Json(db.agencies, id)]) else Shown(404, [])
  }

  /** store: validate, then `Agency::create` with the validated fields. */
  function Store(db: Db, p: Payload): Reply
  {
    if !Passes(AgencyStoreRules, p, db) then Reply(500, db)
    else Reply(201, WithAgency(db, p))
  }

  /** The store once `Agency::create` has run: the new agency under the
      next key. */
  function WithAgency(db: Db, p: Payload): Db
  {
    db.(agencies := db.agencies[db.nextAgency := NewRow(p)], nextAgency := db.nextAgency + 1)
  }

  /** The row `Agency::create` writes: the validated fields, null elsewhere. */
  function NewRow(p: Payload): Row
  {
    Fill(AgencyColumns, map[], Only(Validated(AgencyStoreRules, p), AgencyFillable))
  }

  /** The columns an update may write: what `array_filter` keeps of the
      validated fields. */
  function Changes(p: Payload): Payload
  {
    Only(ArrayFilter(Validated(AgencyUpdateRules, p)), AgencyFillable)
  }

  /** update: look the agency up (404), then validate (500), then update with
      the truthy validated fields. */
  function Update(db: Db, id: Id, p: Payload): Reply
  {
    if id !in db.agencies then Reply(404, db)
    else if !Passes(AgencyUpdateRules, p, db) then Reply(500, db)
    else Reply(200, db.(agencies := db.agencies[id := Overwrite(db.agencies[id], Changes(p))]))
  }

  /** destroy: none of the three migrations in this model declares a foreign
      key to agencies, and the tables that hold an agency_id are taken to
      declare none either, so the delete always succeeds. */
  function Destroy(db: Db, id: Id): Reply
  {
    if id !in db.agencies then Reply(404, db) else Reply(200, db.(agencies := db.agencies - {id}))
  }

  // ---- Properties ----

  lemma UpdateRuleKeys()
    ensures Keys(AgencyUpdateRules) == AgencyColumns
  {
    assert AgencyUpdateRules[0].0 == "name" && AgencyUpdateRules[1].0 == "address";
    assert AgencyUpdateRules[2].0 == "phone" && AgencyUpdateRules[3].0 == "email";
  }

  lemma StoreRuleKeys()
    ensures Keys(AgencyStoreRules) == AgencyColumns
  {
    assert AgencyStoreRules[0].0 == "name" && AgencyStoreRules[1].0 == "address";
    assert AgencyStoreRules[2].0 == "phone" && AgencyStoreRules[3].0 == "email";
  }

  /** Store answers 201 exactly when the body validates, and 500 otherwise,
      changing nothing. */
  lemma StoreStatus(db: Db, p: Payload)
    ensures var r := Store(db, p);
      && (r.status == 201 <==> Passes(AgencyStoreRules, p, db))
      && (r.status != 201 ==> r.status == 500 && r.db == db)
  {
  }

  /** The stored row has exactly the agency columns, each holding the
      submitted value or null. */
  lemma NewRowHolds(p: Payload)
    ensures NewRow(p).Keys == AgencyColumns
    ensures forall c :: c in AgencyColumns ==> NewRow(p)[c] == Col(p, c)
  {
    StoreRuleKeys();
    assert forall c :: c in AgencyColumns ==> c in Keys(AgencyStoreRules) && c in AgencyFillable;
  }

  /** The shown fields of an agency, read off its row. */
  lemma JsonFields(t: Table, id: Id)
    requires id in t
    ensures var d := Json(t, id);
      && d["id"] == VInt(id) && d["name"] == Col(t[id], "name")
      && d["address"] == OrEmpty(Col(t[id], "address"))
      && d["phone"] == OrEmpty(Col(t[id], "phone"))
      && d["email"] == OrEmpty(Col(t[id], "email"))
  {
  }

  /** A successful store gives the new agency the next key and, in every
      column, the submitted value or null; nothing else changes. */
  lemma StoreEffect(db: Db, p: Payload)
    requires Store(db, p).status == 201
    ensures var r := Store(db, p);
      && r.db.agencies.Keys == db.agencies.Keys + {db.nextAgency}
      && (forall j :: j in db.agencies && j != db.nextAgency ==> r.db.agencies[j] == db.agencies[j])
      && r.db.agencies[db.nextAgency].Keys == AgencyColumns
      && (forall c :: c in AgencyColumns ==> r.db.agencies[db.nextAgency][c] == Col(p, c))
      && r.db.(agencies := db.agencies, nextAgency := db.nextAgency) == db
  {
    NewRowHolds(p);
  }

  /** A stored agency keeps the store consistent: its e-mail, when given, was
      checked unique by validation. */
  lemma StorePreserves(db: Db, p: Payload)
    requires Consistent(db)
    ensures Consistent(Store(db, p).db)
  {
    if Passes(AgencyStoreRules, p, db) {
      WithAgencyPreserves(db, p);
    } else {
      assert Store(db, p).db == db;
    }
  }

  lemma WithAgencyPreserves(db: Db, p: Payload)
    requires Consistent(db) && Passes(AgencyStoreRules, p, db)
    ensures Consistent(WithAgency(db, p))
  {
    StoredEmailFresh(db, p);
    AgencyInserted(db, NewRow(p));
  }

  /** Validation lets through only an e-mail no agency has. */
  lemma StoredEmailFresh(db: Db, p: Payload)
    requires Passes(AgencyStoreRules, p, db)
    ensures NewRow(p).Keys == AgencyColumns
    ensures Col(NewRow(p), "email") == VNull || !Holds(db.agencies, "email", Col(NewRow(p), "email"))
  {
    AgencyStoreAccepts(p, db);
    NewRowHolds(p);
  }

  /** A new agency row whose e-mail, when given, no agency has keeps the
      store consistent. */
  lemma AgencyInserted(db: Db, row: Row)
    requires Consistent(db) && row.Keys == AgencyColumns
    requires Col(row, "email") == VNull || !Holds(db.agencies, "email", Col(row, "email"))
    ensures Consistent(db.(agencies := db.agencies[db.nextAgency := row], nextAgency := db.nextAgency + 1))
  {
    var n := db.nextAgency;
    var t := db.agencies;
    assert Col(row, "email") == VNull || FreshIn(t, "email", Col(row, "email"), n);
    UniqueNonNullColWrite(t, "email", n, row);
    assert Shaped(t, AgencyColumns, n);
    ShapedGrow(t, AgencyColumns, n);
    ShapedWrite(t, AgencyColumns, n + 1, n, row);
    AgenciesReplaced(db, t[n := row], n + 1);
  }

  /** Update answers 404 for an unknown agency before it validates, 500 for
      a body that fails validation, otherwise 200. On 200 each column takes
      the submitted value when it is truthy and keeps its value otherwise:
      an empty string, "0", 0, false or null never clears a column. */
  lemma UpdateOutcome(db: Db, id: Id, p: Payload)
    ensures var r := Update(db, id, p);
      && (r.status == 404 <==> id !in db.agencies)
      && (r.status == 500 <==> id in db.agencies && !Passes(AgencyUpdateRules, p, db))
      && (r.status == 200 <==> id in db.agencies && Passes(AgencyUpdateRules, p, db))
      && (r.status != 200 ==> r.db == db)
      && (r.status == 200 ==>
            && r.db.agencies.Keys == db.agencies.Keys
            && (forall j :: j in db.agencies && j != id ==> r.db.agencies[j] == db.agencies[j])
            && r.db.agencies[id].Keys == db.agencies[id].Keys
            && (forall c :: c in db.agencies[id] && c in AgencyColumns ==>
                  r.db.agencies[id][c] == if c in p && Truthy(p[c]) then p[c] else db.agencies[id][c])
            && r.db.(agencies := db.agencies) == db)
  {
    var r := Update(db, id, p);
    if r.status == 200 {
      UpdateRuleKeys();
      forall c | c in db.agencies[id] && c in AgencyColumns
        ensures r.db.agencies[id][c] == if c in p && Truthy(p[c]) then p[c] else db.agencies[id][c]
      {
        assert c in Keys(AgencyUpdateRules) && c in AgencyFillable;
      }
    }
  }

  /** Validation does not exclude the agency being updated: sending its own
      e-mail back fails with 500. */
  lemma UpdateOwnEmailFails(db: Db, id: Id, p: Payload)
    requires id in db.agencies && "email" in p && p["email"] == Col(db.agencies[id], "email")
    ensures Update(db, id, p).status == 500
  {
    AgencyUpdateRejectsHeldEmail(p, db, id);
  }

  lemma UpdatePreserves(db: Db, id: Id, p: Payload)
    requires Consistent(db)
    ensures Consistent(Update(db, id, p).db)
  {
    var r := Update(db, id, p);
    if r.status == 200 {
      UpdateOutcome(db, id, p);
      var row := r.db.agencies[id];
      var t := db.agencies;
      if "email" in Changes(p) {
        AgencyUpdateAccepts(p, db);
        UniqueNonNullColWrite(t, "email", id, row);
      } else {
        UniqueNonNullColKeep(t, "email", id, row);
      }
      assert r.db == db.(agencies := t[id := row]);
      assert Shaped(t, AgencyColumns, db.nextAgency);
      ShapedWrite(t, AgencyColumns, db.nextAgency, id, row);
      AgenciesReplaced(db, t[id := row], db.nextAgency);
    }
  }

  /** Destroy answers 404 for an unknown agency and otherwise removes exactly
      that agency. */
  lemma DestroyOutcome(db: Db, id: Id)
    ensures var r := Destroy(db, id);
      && (r.status == 200 <==> id in db.agencies)
      && (r.status != 200 ==> r.status == 404 && r.db == db)
      && (r.status == 200 ==> r.db.agencies.Keys == db.agencies.Keys - {id}
                              && r.db.(agencies := db.agencies) == db)
  {
  }

  lemma DestroyPreserves(db: Db, id: Id)
    requires Consistent(db)
    ensures Consistent(Destroy(db, id).db)
  {
    var r := Destroy(db, id);
    if r.status == 200 {
      assert UniqueNonNullCol(r.db.agencies, "email");
      assert Shaped(r.db.agencies, AgencyColumns, db.nextAgency);
      LinksKept(db, r.db);
    }
  }

  /** Show after a successful store finds the new agency with the submitted
      name, and the other submitted fields with loosely-null ones shown as
      "" (so an address "0" comes back as it was, a phone 0 as ""). */
  lemma StoreThenShow(db: Db, p: Payload)
    requires Store(db, p).status == 201
    ensures var s := Show(Store(db, p).db, db.nextAgency);
      && s.status == 200 && |s.data| == 1
      && s.data[0]["name"] == Col(p, "name")
      && s.data[0]["address"] == OrEmpty(Col(p, "address"))
      && s.data[0]["phone"] == OrEmpty(Col(p, "phone"))
      && s.data[0]["email"] == OrEmpty(Col(p, "email"))
  {
    var t := Store(db, p).db.agencies;
    assert t[db.nextAgency] == NewRow(p);
    NewRowHolds(p);
    JsonFields(t, db.nextAgency);
  }

  /** Show answers 200 exactly for a stored agency, and never sends null. */
  lemma ShowOutcome(db: Db, id: Id)
    ensures var s := Show(db, id);
      && (s.status == 200 <==> id in db.agencies)
      && (s.status != 200 ==> s.status == 404 && s.data == [])
      && (s.status == 200 ==> |s.data| == 1 && s.data[0]["id"] == VInt(id)
                              && forall k :: k in s.data[0] && k != "name" ==> s.data[0][k] != VNull)
  {
  }

  /** Index always answers 200 and lists every agency once, by ascending key. */
  lemma IndexListsAll(db: Db)
    requires KeysBelow(db.agencies, db.nextAgency)
    ensures var s := Index(db);
      && s.status == 200
      && (forall id :: id in db.agencies <==> exists i :: 0 <= i < |s.data| && s.data[i]["id"] == VInt(id))
      && (forall i, k :: 0 <= i < k < |s.data| ==> s.data[i]["id"].i < s.data[k]["id"].i)
  {
    ListsEveryKey(db.agencies, db.nextAgency, Index(db).data);
  }
}
