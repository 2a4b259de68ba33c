/** SalesUserController: the sales users resource. */
module SalesUsers {
  import opened Values
  import opened Schema
  import opened Rules
  import opened Query

  function Json(t: Table, id: Id): Payload
    requires id in t
  {
    map["id" := VInt(id), "agency_id" := Col(t[id], "agency_id"), "name" := Col(t[id], "name")]
  }

  /** The keys index lists: page `page` in key order, `per_page` (10 when
      absent) per page. */
  function IndexIds(db: Db, perPage: Option<nat>, page: Option<int>): (ids: seq<Id>)
    ensures forall j :: j in ids ==> j in db.salesUsers
  {
    Page(IdsIn(db.salesUsers, 1, db.nextSalesUser), CurrentPage(page), PerPage(perPage, 10))
  }

  /** index: a paginator is never falsy, so it never answers 404. */
  function Index(db: Db, perPage: Option<nat>, page: Option<int>): Shown
  {
    var ids := IndexIds(db, perPage, page);
    Shown(200, seq(|ids|, i requires 0 <= i < |ids| => Json(db.salesUsers, ids[i])))
  }

  function Show(db: Db, id: Id): Shown
  {
    if id in db.salesUsers then Shown(200, [Json(db.salesUsers, id)]) else Shown(404, [])
  }

  /** store: the agency's existence is not checked, and the sales_users
      table is taken to declare no foreign key on agency_id, so a dangling
      agency_id is stored. */
  function Store(db: Db, p: Payload): Reply
  {
    if !Passes(SalesUserStoreRules, p, db) then Reply(500, db)
    else
      Reply(201, WithSalesUser(db, p))
  }

  /** The store once `SalesUser::create` has run with the validated fields. */
  function WithSalesUser(db: Db, p: Payload): Db
  {
    db.(salesUsers := db.salesUsers[db.nextSalesUser := NewRow(p)], nextSalesUser := db.nextSalesUser + 1)
  }

  /** The row `SalesUser::create` writes: the validated agency and name. */
  function NewRow(p: Payload): Row
  {
    Fill(SalesUserColumns, map[], Only(Validated(SalesUserStoreRules, p), SalesUserFillable))
  }

  /** update: `find`, then validate (500), then `update` on the result; on
      null that call throws, which the framework answers with 500. The
      validated data is written as it is. */
  function Update(db: Db, id: Id, p: Payload): Reply
  {
    if !Passes(SalesUserUpdateRules, p, db) then Reply(500, db)
    else if id !in db.salesUsers then Reply(500, db)
    else
      var changes := Only(Validated(SalesUserUpdateRules, p), SalesUserFillable);
      Reply(200, db.(salesUsers := db.salesUsers[id := Overwrite(db.salesUsers[id], changes)]))
  }

  /** Sales restrict the delete of a sales user they name. */
  function Destroy(db: Db, id: Id): Reply
  {
    if id !in db.salesUsers then Reply(404, db)
    else if !Unreferenced(db.sales, "sales_user_id", id) then Reply(500, db)
    else Reply(200, db.(salesUsers := db.salesUsers - {id}))
  }

  // ---- Properties ----

  lemma StoreRuleKeys()
    ensures Keys(SalesUserStoreRules) == SalesUserColumns
  {
    assert SalesUserStoreRules[0].0 == "agency_id" && SalesUserStoreRules[1].0 == "name";
  }

  lemma UpdateRuleKeys()
    ensures Keys(SalesUserUpdateRules) == SalesUserColumns
  {
    assert SalesUserUpdateRules[0].0 == "agency_id" && SalesUserUpdateRules[1].0 == "name";
  }

  /** Store answers 201 exactly for an integer agency_id (existing or not)
      and a non-blank string name no sales user has; the new sales user
      holds both under the next key. Otherwise 500 and nothing changes. */
  lemma StoreOutcome(db: Db, p: Payload)
    ensures var r := Store(db, p);
      && (r.status == 201 <==>
            "agency_id" in p && p["agency_id"].VInt?
            && "name" in p && p["name"].VStr? && !Blank(p["name"]) && !Holds(db.salesUsers, "name", p["name"]))
      && (r.status != 201 ==> r.status == 500 && r.db == db)
      && (r.status == 201 ==>
            && r.db.salesUsers == db.salesUsers[db.nextSalesUser := map["agency_id" := p["agency_id"], "name" := p["name"]]]
            && r.db.nextSalesUser == db.nextSalesUser + 1
            && r.db.(salesUsers := db.salesUsers, nextSalesUser := db.nextSalesUser) == db)
  {
    SalesUserStoreAccepts(p, db);
    if Passes(SalesUserStoreRules, p, db) {
      assert Store(db, p) == Reply(201, WithSalesUser(db, p));
      NewRowIsSent(p);
    }
  }

  /** The row a valid store writes holds exactly the agency_id and name
      sent. */
  lemma NewRowIsSent(p: Payload)
    requires "agency_id" in p && "name" in p
    ensures NewRow(p) == map["agency_id" := p["agency_id"], "name" := p["name"]]
  {
    StoreRuleKeys();
    var row := NewRow(p);
    assert row.Keys == {"agency_id", "name"};
    assert row["agency_id"] == p["agency_id"] && row["name"] == p["name"];
  }

  lemma StorePreserves(db: Db, p: Payload)
    requires Consistent(db)
    ensures Consistent(Store(db, p).db)
  {
    if Passes(SalesUserStoreRules, p, db) {
      WithSalesUserPreserves(db, p);
    } else {
      assert Store(db, p).db == db;
    }
  }

  lemma WithSalesUserPreserves(db: Db, p: Payload)
    requires Consistent(db) && Passes(SalesUserStoreRules, p, db)
    ensures Consistent(WithSalesUser(db, p))
  {
    SalesUserStoreAccepts(p, db);
    NewRowName(p);
    SalesUserInserted(db, NewRow(p));
  }

  /** The new row holds the name sent. */
  lemma NewRowName(p: Payload)
    requires "name" in p
    ensures NewRow(p).Keys == SalesUserColumns && NewRow(p)["name"] == p["name"]
  {
    StoreRuleKeys();
    assert "name" in Keys(SalesUserStoreRules) && "name" in SalesUserFillable;
  }

  /** A new sales user row with a name no sales user has keeps the store
      consistent. */
  lemma SalesUserInserted(db: Db, row: Row)
    requires Consistent(db) && row.Keys == SalesUserColumns && !Holds(db.salesUsers, "name", Col(row, "name"))
    ensures Consistent(db.(salesUsers := db.salesUsers[db.nextSalesUser := row], nextSalesUser := db.nextSalesUser + 1))
  {
    var n := db.nextSalesUser;
    assert FreshIn(db.salesUsers, "name", Col(row, "name"), n);
    UniqueColWrite(db.salesUsers, "name", n, row);
    assert Shaped(db.salesUsers, SalesUserColumns, n);
    ShapedGrow(db.salesUsers, SalesUserColumns, n);
    ShapedWrite(db.salesUsers, SalesUserColumns, n + 1, n, row);
    SalesUsersReplaced(db, db.salesUsers[n := row], n + 1);
  }

  /** Update answers 500 for a body that fails validation and for an
      unknown sales user alike (never 404), and 200 otherwise; each present
      field is written as sent. */
  lemma UpdateOutcome(db: Db, id: Id, p: Payload)
    ensures var r := Update(db, id, p);
      && (r.status == 200 <==> id in db.salesUsers && Passes(SalesUserUpdateRules, p, db))
      && (r.status != 200 ==> r.status == 500 && r.db == db)
      && (r.status == 200 ==>
            && r.db.salesUsers.Keys == db.salesUsers.Keys
            && (forall j :: j in db.salesUsers && j != id ==> r.db.salesUsers[j] == db.salesUsers[j])
            && r.db.salesUsers[id].Keys == db.salesUsers[id].Keys
            && (forall c :: c in db.salesUsers[id] && c in SalesUserColumns ==>
                  r.db.salesUsers[id][c] == if c in p then p[c] else db.salesUsers[id][c])
            && r.db.(salesUsers := db.salesUsers) == db)
  {
    UpdateRuleKeys();
  }

  /** The name check has an empty ignore-id: a sales user cannot be saved
      under its own name. */
  lemma UpdateOwnNameFails(db: Db, id: Id, p: Payload)
    requires id in db.salesUsers && "name" in p && p["name"] == Col(db.salesUsers[id], "name")
    ensures Update(db, id, p).status == 500
  {
    SalesUserUpdateRejectsHeldName(p, db, id);
  }

  lemma UpdatePreserves(db: Db, id: Id, p: Payload)
    requires Consistent(db)
    ensures Consistent(Update(db, id, p).db)
  {
    var r := Update(db, id, p);
    if r.status == 200 {
      UpdateOutcome(db, id, p);
      SalesUserUpdateAccepts(p, db);
      var row := r.db.salesUsers[id];
      if "name" in p {
        assert FreshIn(db.salesUsers, "name", Col(row, "name"), id);
        UniqueColWrite(db.salesUsers, "name", id, row);
      } else {
        assert Col(row, "name") == Col(db.salesUsers[id], "name");
        assert UniqueCol(r.db.salesUsers, "name");
      }
      assert r.db == db.(salesUsers := db.salesUsers[id := row]);
      assert Shaped(db.salesUsers, SalesUserColumns, db.nextSalesUser);
      ShapedWrite(db.salesUsers, SalesUserColumns, db.nextSalesUser, id, row);
      SalesUsersReplaced(db, db.salesUsers[id := row], db.nextSalesUser);
    }
  }

  /** Destroy answers 404 for an unknown sales user, 500 while a sale names
      it, and otherwise removes exactly it. */
  lemma DestroyOutcome(db: Db, id: Id)
    ensures var r := Destroy(db, id);
      && (r.status == 404 <==> id !in db.salesUsers)
      && (r.status == 500 <==> id in db.salesUsers && !Unreferenced(db.sales, "sales_user_id", id))
      && (r.status != 200 ==> r.db == db)
      && (r.status == 200 ==> r.db.salesUsers.Keys == db.salesUsers.Keys - {id}
                              && r.db.(salesUsers := db.salesUsers) == db)
  {
  }

  lemma DestroyPreserves(db: Db, id: Id)
    requires Consistent(db)
    ensures Consistent(Destroy(db, id).db)
  {
    var r := Destroy(db, id);
    if r.status == 200 {
      ColRefersShrink(db.sales, "sales_user_id", db.salesUsers, id);
      assert UniqueCol(r.db.salesUsers, "name");
      assert Shaped(r.db.salesUsers, SalesUserColumns, db.nextSalesUser);
    }
  }

  /** Show answers 200 with the sales user's key, agency and name, or 404. */
  lemma ShowOutcome(db: Db, id: Id)
    ensures var s := Show(db, id);
      && (s.status == 200 <==> id in db.salesUsers)
      && (s.status != 200 ==> s.status == 404 && s.data == [])
      && (s.status == 200 ==> s.data == [map["id" := VInt(id), "agency_id" := Col(db.salesUsers[id], "agency_id"),
                                             "name" := Col(db.salesUsers[id], "name")]])
  {
  }

  /** Index answers 200 for every page; a page holds at most `per_page`
      sales users (10 by default), ascending by key. */
  lemma IndexPage(db: Db, perPage: Option<nat>, page: Option<int>)
    ensures var s := Index(db, perPage, page);
      && s.status == 200
      && |s.data| <= PerPage(perPage, 10)
      && (forall i, k :: 0 <= i < k < |s.data| ==> s.data[i]["id"].i < s.data[k]["id"].i)
  {
    var ids := IndexIds(db, perPage, page);
    PageAscending(IdsIn(db.salesUsers, 1, db.nextSalesUser), CurrentPage(page), PerPage(perPage, 10));
    var s := Index(db, perPage, page);
    assert forall i :: 0 <= i < |s.data| ==> s.data[i]["id"] == VInt(ids[i]);
  }

  /** Paging through the index shows every sales user. */
  lemma IndexFindsEvery(db: Db, perPage: Option<nat>, id: Id)
    requires KeysBelow(db.salesUsers, db.nextSalesUser) && id in db.salesUsers && PerPage(perPage, 10) > 0
    ensures exists pg: nat :: pg >= 1 && Json(db.salesUsers, id) in Index(db, perPage, Some(pg)).data
  {
    var all := IdsIn(db.salesUsers, 1, db.nextSalesUser);
    var pg, k := EveryIdOnSomePage(all, PerPage(perPage, 10), id);
    assert CurrentPage(Some(pg)) == pg;
    assert Index(db, perPage, Some(pg)).data[k] == Json(db.salesUsers, id);
  }
}
