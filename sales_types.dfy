/** SalesTypeController: the sales types resource. The SalesType model is
    not part of this model; it is taken to allow exactly the columns its
    controller validates. */
module SalesTypes {
  import opened Values
  import opened Schema
  import opened Rules
  import opened Query

  function Json(t: Table, id: Id): Payload
    requires id in t
  {
    map["id" := VInt(id), "name" := Col(t[id], "name"),
        "description" := OrEmpty(Col(t[id], "description"))]
  }

  /** The keys index lists: page `page` of the sales types ordered by name,
      `per_page` (20 when absent) per page. */
  function IndexIds(db: Db, perPage: Option<nat>, page: Option<int>): (ids: seq<Id>)
    ensures forall j :: j in ids ==> j in db.salesTypes
  {
    var sorted := SortByName(db.salesTypes, IdsIn(db.salesTypes, 1, db.nextSalesType));
    PageSortedByName(db.salesTypes, sorted, CurrentPage(page), PerPage(perPage, 20));
    Page(sorted, CurrentPage(page), PerPage(perPage, 20))
  }

  /** index: `orderBy('name')->paginate(...)`, never 404. */
  function Index(db: Db, perPage: Option<nat>, page: Option<int>): Shown
  {
    var ids := IndexIds(db, perPage, page);
    Shown(200, seq(|ids|, i requires 0 <= i < |ids| => Json(db.salesTypes, ids[i])))
  }

  function Show(db: Db, id: Id): Shown
  {
    if id in db.salesTypes then Shown(200, [Json(db.salesTypes, id)]) else Shown(404, [])
  }

  function Store(db: Db, p: Payload): Reply
  {
    if !Passes(SalesTypeStoreRules, p, db) then Reply(500, db)
    else
      Reply(201, WithSalesType(db, p))
  }

  /** The store once `SalesType::create` has run with the validated fields. */
  function WithSalesType(db: Db, p: Payload): Db
  {
    db.(salesTypes := db.salesTypes[db.nextSalesType := NewRow(p)], nextSalesType := db.nextSalesType + 1)
  }

  /** The row `SalesType::create` writes: the validated name and description. */
  function NewRow(p: Payload): Row
  {
    Fill(SalesTypeColumns, map[], Only(Validated(SalesTypeStoreRules, p), SalesTypeColumns))
  }

  /** update: 404 first, then validate, then write the validated data as
      it is, with no `array_filter`. */
  function Update(db: Db, id: Id, p: Payload): Reply
  {
    if id !in db.salesTypes then Reply(404, db)
    else if !Passes(SalesTypeUpdateRules, p, db) then Reply(500, db)
    else
      var changes := Only(Validated(SalesTypeUpdateRules, p), SalesTypeColumns);
      Reply(200, db.(salesTypes := db.salesTypes[id := Overwrite(db.salesTypes[id], changes)]))
  }

  /** Sales restrict the delete of a sales type they name. */
  function Destroy(db: Db, id: Id): Reply
  {
    if id !in db.salesTypes then Reply(404, db)
    else if !Unreferenced(db.sales, "sales_type_id", id) then Reply(500, db)
    else Reply(200, db.(salesTypes := db.salesTypes - {id}))
  }

  // ---- Properties ----

  lemma StoreRuleKeys()
    ensures Keys(SalesTypeStoreRules) == SalesTypeColumns
  {
    assert SalesTypeStoreRules[0].0 == "name" && SalesTypeStoreRules[1].0 == "description";
  }

  lemma UpdateRuleKeys()
    ensures Keys(SalesTypeUpdateRules) == SalesTypeColumns
  {
    assert SalesTypeUpdateRules[0].0 == "name" && SalesTypeUpdateRules[1].0 == "description";
  }

  /** Store answers 201 exactly for a non-blank string name of at most 255
      characters and a null, absent or string description; the new sales
      type holds them (an absent description as null) under the next key.
      Otherwise 500 and nothing changes. */
  lemma StoreOutcome(db: Db, p: Payload)
    ensures var r := Store(db, p);
      && (r.status == 201 <==>
            "name" in p && p["name"].VStr? && !Blank(p["name"]) && |p["name"].s| <= 255
            && ("description" in p ==> p["description"] == VNull || p["description"].VStr?))
      && (r.status != 201 ==> r.status == 500 && r.db == db)
      && (r.status == 201 ==>
            && r.db.salesTypes == db.salesTypes[db.nextSalesType := map["name" := p["name"], "description" := Col(p, "description")]]
            && r.db.nextSalesType == db.nextSalesType + 1
            && r.db.(salesTypes := db.salesTypes, nextSalesType := db.nextSalesType) == db)
  {
    SalesTypeStoreAccepts(p, db);
    if Passes(SalesTypeStoreRules, p, db) {
      NewRowIs(p);
      assert Store(db, p).db == WithSalesType(db, p);
    }
  }

  /** The row store writes holds the submitted name and description, null
      for either one left out. */
  lemma NewRowIs(p: Payload)
    ensures NewRow(p) == map["name" := Col(p, "name"), "description" := Col(p, "description")]
  {
    StoreRuleKeys();
    var row := NewRow(p);
    assert row.Keys == {"name", "description"};
    assert row["name"] == Col(p, "name") && row["description"] == Col(p, "description");
  }

  lemma StorePreserves(db: Db, p: Payload)
    requires Consistent(db)
    ensures Consistent(Store(db, p).db)
  {
    if Passes(SalesTypeStoreRules, p, db) {
      SalesTypeInserted(db, NewRow(p));
    } else {
      assert Store(db, p).db == db;
    }
  }

  /** A new sales type row keeps the store consistent. */
  lemma SalesTypeInserted(db: Db, row: Row)
    requires Consistent(db) && row.Keys == SalesTypeColumns
    ensures Consistent(db.(salesTypes := db.salesTypes[db.nextSalesType := row], nextSalesType := db.nextSalesType + 1))
  {
    var n := db.nextSalesType;
    assert Shaped(db.salesTypes, SalesTypeColumns, n);
    ShapedGrow(db.salesTypes, SalesTypeColumns, n);
    ShapedWrite(db.salesTypes, SalesTypeColumns, n + 1, n, row);
    SalesTypesReplaced(db, db.salesTypes[n := row], n + 1);
  }

  /** Update answers 404 for an unknown sales type before it validates, 500
      for a body that fails validation, 200 otherwise. Each present field is
      written as sent: an explicit null clears the description. */
  lemma UpdateOutcome(db: Db, id: Id, p: Payload)
    ensures var r := Update(db, id, p);
      && (r.status == 404 <==> id !in db.salesTypes)
      && (r.status == 500 <==>
            id in db.salesTypes
            && !(("name" in p ==> StrUpTo(p["name"], 255))
                 && ("description" in p ==> p["description"] == VNull || StrUpTo(p["description"], 255))))
      && (r.status != 200 ==> r.db == db)
      && (r.status == 200 ==>
            && r.db.salesTypes.Keys == db.salesTypes.Keys
            && (forall j :: j in db.salesTypes && j != id ==> r.db.salesTypes[j] == db.salesTypes[j])
            && r.db.salesTypes[id].Keys == db.salesTypes[id].Keys
            && (forall c :: c in db.salesTypes[id] && c in SalesTypeColumns ==>
                  r.db.salesTypes[id][c] == if c in p then p[c] else db.salesTypes[id][c])
            && r.db.(salesTypes := db.salesTypes) == db)
  {
    SalesTypeUpdateAccepts(p, db);
    UpdateRuleKeys();
  }

  lemma UpdatePreserves(db: Db, id: Id, p: Payload)
    requires Consistent(db)
    ensures Consistent(Update(db, id, p).db)
  {
    var r := Update(db, id, p);
    if r.status == 200 {
      UpdateOutcome(db, id, p);
      var row := r.db.salesTypes[id];
      assert r.db == db.(salesTypes := db.salesTypes[id := row]);
      assert Shaped(db.salesTypes, SalesTypeColumns, db.nextSalesType);
      ShapedWrite(db.salesTypes, SalesTypeColumns, db.nextSalesType, id, row);
      SalesTypesReplaced(db, db.salesTypes[id := row], db.nextSalesType);
    }
  }

  /** Destroy answers 404 for an unknown sales type, 500 while a sale names
      it, and otherwise removes exactly it. */
  lemma DestroyOutcome(db: Db, id: Id)
    ensures var r := Destroy(db, id);
      && (r.status == 404 <==> id !in db.salesTypes)
      && (r.status == 500 <==> id in db.salesTypes && !Unreferenced(db.sales, "sales_type_id", id))
      && (r.status != 200 ==> r.db == db)
      && (r.status == 200 ==> r.db.salesTypes.Keys == db.salesTypes.Keys - {id}
                              && r.db.(salesTypes := db.salesTypes) == db)
  {
  }

  lemma DestroyPreserves(db: Db, id: Id)
    requires Consistent(db)
    ensures Consistent(Destroy(db, id).db)
  {
    var r := Destroy(db, id);
    if r.status == 200 {
      ColRefersShrink(db.sales, "sales_type_id", db.salesTypes, id);
      assert Shaped(r.db.salesTypes, SalesTypeColumns, db.nextSalesType);
    }
  }

  /** Show answers 200 for a stored sales type, with a loosely-null
      description sent as "", or 404. */
  lemma ShowOutcome(db: Db, id: Id)
    ensures var s := Show(db, id);
      && (s.status == 200 <==> id in db.salesTypes)
      && (s.status != 200 ==> s.status == 404 && s.data == [])
      && (s.status == 200 ==> |s.data| == 1 && s.data[0]["id"] == VInt(id)
                              && s.data[0]["name"] == Col(db.salesTypes[id], "name")
                              && s.data[0]["description"] == OrEmpty(Col(db.salesTypes[id], "description")))
  {
  }

  /** Index answers 200 for every page; a page holds at most `per_page`
      sales types (20 by default), in ascending order of name. */
  lemma IndexPage(db: Db, perPage: Option<nat>, page: Option<int>)
    ensures var s := Index(db, perPage, page);
      && s.status == 200
      && |s.data| <= PerPage(perPage, 20)
      && (forall i :: 0 <= i < |s.data| - 1 ==> LexLe(AsString(s.data[i]["name"]), AsString(s.data[i + 1]["name"])))
  {
    var ids := IndexIds(db, perPage, page);
    var sorted := SortByName(db.salesTypes, IdsIn(db.salesTypes, 1, db.nextSalesType));
    PageSortedByName(db.salesTypes, sorted, CurrentPage(page), PerPage(perPage, 20));
    var s := Index(db, perPage, page);
    forall i | 0 <= i < |s.data| - 1
      ensures LexLe(AsString(s.data[i]["name"]), AsString(s.data[i + 1]["name"]))
    {
      assert s.data[i]["name"] == Col(db.salesTypes[ids[i]], "name");
      assert s.data[i + 1]["name"] == Col(db.salesTypes[ids[i + 1]], "name");
      assert LexLe(NameOf(db.salesTypes, ids[i]), NameOf(db.salesTypes, ids[i + 1]));
    }
  }

  /** Paging through the index shows every sales type. */
  lemma IndexFindsEvery(db: Db, perPage: Option<nat>, id: Id)
    requires KeysBelow(db.salesTypes, db.nextSalesType) && id in db.salesTypes && PerPage(perPage, 20) > 0
    ensures exists pg: nat :: pg >= 1 && Json(db.salesTypes, id) in Index(db, perPage, Some(pg)).data
  {
    var sorted := SortByName(db.salesTypes, IdsIn(db.salesTypes, 1, db.nextSalesType));
    assert id in multiset(sorted);
    var pg, k := EveryIdOnSomePage(sorted, PerPage(perPage, 20), id);
    assert CurrentPage(Some(pg)) == pg;
    assert Index(db, perPage, Some(pg)).data[k] == Json(db.salesTypes, id);
  }
}
