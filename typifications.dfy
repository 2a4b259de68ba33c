/** TypificationController: the typifications resource. */
module Typifications {
  import opened Values
  import opened Schema
  import opened Rules
  import opened Query

  function Json(t: Table, id: Id): Payload
    requires id in t
  {
    map["id" := VInt(id), "name" := Col(t[id], "name")]
  }

  /** The keys index lists: page `page` of all typifications in key order,
      `per_page` (10 when absent) per page. */
  function IndexIds(db: Db, perPage: Option<nat>, page: Option<int>): (ids: seq<Id>)
    ensures forall j :: j in ids ==> j in db.typifications
  {
    Page(IdsIn(db.typifications, 1, db.nextTypification), CurrentPage(page), PerPage(perPage, 10))
  }

  /** index: a paginator is never falsy, so the 404 branch is dead even for
      an empty page. */
  function Index(db: Db, perPage: Option<nat>, page: Option<int>): Shown
  {
    var ids := IndexIds(db, perPage, page);
    Shown(200, seq(|ids|, i requires 0 <= i < |ids| => Json(db.typifications, ids[i])))
  }

  function Show(db: Db, id: Id): Shown
  {
    if id in db.typifications then Shown(200, [Json(db.typifications, id)]) else Shown(404, [])
  }

  function Store(db: Db, p: Payload): Reply
  {
    if !Passes(TypificationStoreRules, p, db) then Reply(500, db)
    else
      Reply(201, WithTypification(db, p))
  }

  /** The store once `Typification::create` has run with the validated fields. */
  function WithTypification(db: Db, p: Payload): Db
  {
    db.(typifications := db.typifications[db.nextTypification := NewRow(p)], nextTypification := db.nextTypification + 1)
  }

  /** The row `Typification::create` writes: the validated name. */
  function NewRow(p: Payload): Row
  {
    Fill(TypificationColumns, map[], Only(Validated(TypificationStoreRules, p), TypificationFillable))
  }

  /** update: 404 first, then validate, then write the validated data as it
      is, with no `array_filter`. */
  function Update(db: Db, id: Id, p: Payload): Reply
  {
    if id !in db.typifications then Reply(404, db)
    else if !Passes(TypificationUpdateRules, p, db) then Reply(500, db)
    else
      var changes := Only(Validated(TypificationUpdateRules, p), TypificationFillable);
      Reply(200, db.(typifications := db.typifications[id := Overwrite(db.typifications[id], changes)]))
  }

  /** Sales restrict the delete of a typification they name. */
  function Destroy(db: Db, id: Id): Reply
  {
    if id !in db.typifications then Reply(404, db)
    else if !Unreferenced(db.sales, "typification_id", id) then Reply(500, db)
    else Reply(200, db.(typifications := db.typifications - {id}))
  }

  // ---- Properties ----

  lemma StoreRuleKeys()
    ensures Keys(TypificationStoreRules) == TypificationColumns
  {
    assert TypificationStoreRules[0].0 == "name";
  }

  lemma UpdateRuleKeys()
    ensures Keys(TypificationUpdateRules) == TypificationColumns
  {
    assert TypificationUpdateRules[0].0 == "name";
  }

  /** Store answers 201 exactly for a non-blank string name of at most 100
      characters, and then adds one typification holding it under the next
      key; otherwise 500 and nothing changes. */
  lemma StoreOutcome(db: Db, p: Payload)
    ensures var r := Store(db, p);
      && (r.status == 201 <==> "name" in p && p["name"].VStr? && !Blank(p["name"]) && |p["name"].s| <= 100)
      && (r.status != 201 ==> r.status == 500 && r.db == db)
      && (r.status == 201 ==>
            && r.db.typifications == db.typifications[db.nextTypification := map["name" := p["name"]]]
            && r.db.nextTypification == db.nextTypification + 1
            && r.db.(typifications := db.typifications, nextTypification := db.nextTypification) == db)
  {
    TypificationStoreAccepts(p, db);
    StoreRuleKeys();
    var r := Store(db, p);
    if r.status == 201 {
      var row := r.db.typifications[db.nextTypification];
      assert "name" in Keys(TypificationStoreRules) && "name" in TypificationFillable;
      assert row.Keys == {"name"} && row["name"] == p["name"];
      assert row == map["name" := p["name"]];
    }
  }

  lemma StorePreserves(db: Db, p: Payload)
    requires Consistent(db)
    ensures Consistent(Store(db, p).db)
  {
    if Passes(TypificationStoreRules, p, db) {
      TypificationInserted(db, NewRow(p));
    } else {
      assert Store(db, p).db == db;
    }
  }

  /** A new typification row keeps the store consistent. */
  lemma TypificationInserted(db: Db, row: Row)
    requires Consistent(db) && row.Keys == TypificationColumns
    ensures Consistent(db.(typifications := db.typifications[db.nextTypification := row], nextTypification := db.nextTypification + 1))
  {
    var n := db.nextTypification;
    assert Shaped(db.typifications, TypificationColumns, n);
    ShapedGrow(db.typifications, TypificationColumns, n);
    ShapedWrite(db.typifications, TypificationColumns, n + 1, n, row);
    TypificationsReplaced(db, db.typifications[n := row], n + 1);
  }

  /** Update answers 404 for an unknown typification before it validates,
      500 for a name that is neither null nor a string of at most 255
      characters, and 200 otherwise. The name is written exactly as sent:
      a present null clears it, an absent name leaves it. */
  lemma UpdateOutcome(db: Db, id: Id, p: Payload)
    ensures var r := Update(db, id, p);
      && (r.status == 404 <==> id !in db.typifications)
      && (r.status == 500 <==> id in db.typifications && "name" in p && p["name"] != VNull && !StrUpTo(p["name"], 255))
      && (r.status != 200 ==> r.db == db)
      && (r.status == 200 ==>
            && r.db.typifications.Keys == db.typifications.Keys
            && (forall j :: j in db.typifications && j != id ==> r.db.typifications[j] == db.typifications[j])
            && r.db.typifications[id].Keys == db.typifications[id].Keys
            && ("name" in db.typifications[id] ==>
                  r.db.typifications[id]["name"] == if "name" in p then p["name"] else db.typifications[id]["name"])
            && r.db.(typifications := db.typifications) == db)
  {
    TypificationUpdateAccepts(p, db);
    UpdateRuleKeys();
    assert "name" in Keys(TypificationUpdateRules);
  }

  lemma UpdatePreserves(db: Db, id: Id, p: Payload)
    requires Consistent(db)
    ensures Consistent(Update(db, id, p).db)
  {
    var r := Update(db, id, p);
    if r.status == 200 {
      UpdateOutcome(db, id, p);
      var row := r.db.typifications[id];
      assert r.db == db.(typifications := db.typifications[id := row]);
      assert Shaped(db.typifications, TypificationColumns, db.nextTypification);
      ShapedWrite(db.typifications, TypificationColumns, db.nextTypification, id, row);
      TypificationsReplaced(db, db.typifications[id := row], db.nextTypification);
    }
  }

  /** Destroy answers 404 for an unknown typification, 500 while a sale
      names it, and otherwise removes exactly it. */
  lemma DestroyOutcome(db: Db, id: Id)
    ensures var r := Destroy(db, id);
      && (r.status == 404 <==> id !in db.typifications)
      && (r.status == 500 <==> id in db.typifications && !Unreferenced(db.sales, "typification_id", id))
      && (r.status != 200 ==> r.db == db)
      && (r.status == 200 ==> r.db.typifications.Keys == db.typifications.Keys - {id}
                              && r.db.(typifications := db.typifications) == db)
  {
  }

  lemma DestroyPreserves(db: Db, id: Id)
    requires Consistent(db)
    ensures Consistent(Destroy(db, id).db)
  {
    var r := Destroy(db, id);
    if r.status == 200 {
      ColRefersShrink(db.sales, "typification_id", db.typifications, id);
      assert Shaped(r.db.typifications, TypificationColumns, db.nextTypification);
    }
  }

  /** Show answers 200 with the typification's key and name, or 404. */
  lemma ShowOutcome(db: Db, id: Id)
    ensures var s := Show(db, id);
      && (s.status == 200 <==> id in db.typifications)
      && (s.status != 200 ==> s.status == 404 && s.data == [])
      && (s.status == 200 ==> s.data == [map["id" := VInt(id), "name" := Col(db.typifications[id], "name")]])
  {
  }

  /** Index answers 200 for every page, the empty ones included; a page
      holds at most `per_page` typifications (10 by default), ascending by
      key. */
  lemma IndexPage(db: Db, perPage: Option<nat>, page: Option<int>)
    ensures var s := Index(db, perPage, page);
      && s.status == 200
      && |s.data| <= PerPage(perPage, 10)
      && (forall i, k :: 0 <= i < k < |s.data| ==> s.data[i]["id"].i < s.data[k]["id"].i)
  {
    var ids := IndexIds(db, perPage, page);
    PageAscending(IdsIn(db.typifications, 1, db.nextTypification), CurrentPage(page), PerPage(perPage, 10));
    var s := Index(db, perPage, page);
    assert forall i :: 0 <= i < |s.data| ==> s.data[i]["id"] == VInt(ids[i]);
  }

  /** Paging through the index shows every typification. */
  lemma IndexFindsEvery(db: Db, perPage: Option<nat>, id: Id)
    requires KeysBelow(db.typifications, db.nextTypification) && id in db.typifications && PerPage(perPage, 10) > 0
    ensures exists pg: nat :: pg >= 1 && Json(db.typifications, id) in Index(db, perPage, Some(pg)).data
  {
    var all := IdsIn(db.typifications, 1, db.nextTypification);
    var pg, k := EveryIdOnSomePage(all, PerPage(perPage, 10), id);
    assert CurrentPage(Some(pg)) == pg;
    assert Index(db, perPage, Some(pg)).data[k] == Json(db.typifications, id);
  }
}
