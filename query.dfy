/** The read side of Eloquent as the controllers use it: `where(...)->first()`,
    `find`, listing a table in key order, `orderBy('name')` and `paginate`. */
module Query {
  import opened Values
  import opened Schema

  /** `where(c, v)->first()` over the keys in [lo, hi): the smallest key whose
      row holds `v` in column `c`. */
  function FirstIn(t: Table, c: string, v: Value, lo: Id, hi: Id): (r: Option<Id>)
    ensures r.Some? ==> lo <= r.value < hi && r.value in t && Col(t[r.value], c) == v
    ensures r.Some? ==> forall j :: lo <= j < r.value && j in t ==> Col(t[j], c) != v
    ensures r.None? ==> forall j :: lo <= j < hi && j in t ==> Col(t[j], c) != v
    decreases hi - lo
  {
    if lo >= hi then None
    else if lo in t && Col(t[lo], c) == v then Some(lo)
    else FirstIn(t, c, v, lo + 1, hi)
  }

  /** When `u` is the only row holding `v`, `first()` finds it. */
  lemma FirstIsOnly(t: Table, c: string, v: Value, lo: Id, hi: Id, u: Id)
    requires lo <= u < hi && u in t && Col(t[u], c) == v
    requires forall j :: j in t && j != u ==> Col(t[j], c) != v
    ensures FirstIn(t, c, v, lo, hi) == Some(u)
  {
  }

  /** Every key of `t` lies in [1, bound): what `Shaped` guarantees. */
  predicate KeysBelow(t: Table, bound: Id)
  {
    forall j :: j in t ==> 1 <= j < bound
  }

  /** Over a whole table, `first()` finds a row exactly when some row holds
      the value. */
  lemma FirstFindsHeld(t: Table, c: string, v: Value, bound: Id)
    requires KeysBelow(t, bound)
    ensures FirstIn(t, c, v, 1, bound).Some? <==> Holds(t, c, v)
  {
    if Holds(t, c, v) {
      var j :| j in t && Col(t[j], c) == v;
      assert 1 <= j < bound;
    }
  }

  /** A stored value compared with a string, as a string column compares
      it: the column holds the string form of whatever was written (an
      integer as its decimal digits), and null matches nothing. */
  predicate StoredAs(v: Value, s: string)
  {
    v != VNull && AsString(v) == s
  }

  /** Some row of `t` holds `s` in the string column `c`. */
  predicate HoldsText(t: Table, c: string, s: string)
  {
    exists j :: j in t && StoredAs(Col(t[j], c), s)
  }

  /** `where(c, s)->first()` on a string column over the keys in [lo, hi):
      the smallest key whose row holds `s` there. */
  function FirstText(t: Table, c: string, s: string, lo: Id, hi: Id): (r: Option<Id>)
    ensures r.Some? ==> lo <= r.value < hi && r.value in t && StoredAs(Col(t[r.value], c), s)
    ensures r.Some? ==> forall j :: lo <= j < r.value && j in t ==> !StoredAs(Col(t[j], c), s)
    ensures r.None? ==> forall j :: lo <= j < hi && j in t ==> !StoredAs(Col(t[j], c), s)
    decreases hi - lo
  {
    if lo >= hi then None
    else if lo in t && StoredAs(Col(t[lo], c), s) then Some(lo)
    else FirstText(t, c, s, lo + 1, hi)
  }

  /** When `u` is the only row holding `s` in column `c`, `first()` finds it. */
  lemma FirstTextIsOnly(t: Table, c: string, s: string, lo: Id, hi: Id, u: Id)
    requires lo <= u < hi && u in t && StoredAs(Col(t[u], c), s)
    requires forall j :: j in t && j != u ==> !StoredAs(Col(t[j], c), s)
    ensures FirstText(t, c, s, lo, hi) == Some(u)
  {
  }

  /** Over a whole table, `first()` on a string column finds a row exactly
      when some row holds the string. */
  lemma FirstTextFindsHeld(t: Table, c: string, s: string, bound: Id)
    requires KeysBelow(t, bound)
    ensures FirstText(t, c, s, 1, bound).Some? <==> HoldsText(t, c, s)
  {
    if HoldsText(t, c, s) {
      var j :| j in t && StoredAs(Col(t[j], c), s);
      assert 1 <= j < bound;
    }
  }

  /** The keys of `t` in [lo, hi), ascending: the order a table is listed in. */
  function IdsIn(t: Table, lo: Id, hi: Id): (r: seq<Id>)
    ensures forall j :: j in r <==> lo <= j < hi && j in t
    ensures forall i, k :: 0 <= i < k < |r| ==> r[i] < r[k]
    decreases hi - lo
  {
    if lo >= hi then []
    else if lo in t then
      var rest := IdsIn(t, lo + 1, hi);
      assert forall k :: 0 <= k < |rest| ==> rest[k] in rest;
      [lo] + rest
    else IdsIn(t, lo + 1, hi)
  }

  /** A list of JSON objects whose "id"s are the keys of `t` in key order
      names every row of `t` once, ascending. */
  lemma ListsEveryKey(t: Table, bound: Id, data: seq<Payload>)
    requires KeysBelow(t, bound)
    requires var ids := IdsIn(t, 1, bound);
      |data| == |ids| && forall i :: 0 <= i < |ids| ==> "id" in data[i] && data[i]["id"] == VInt(ids[i])
    ensures forall id :: id in t <==> exists i :: 0 <= i < |data| && data[i]["id"] == VInt(id)
    ensures forall i, k :: 0 <= i < k < |data| ==> data[i]["id"].i < data[k]["id"].i
  {
    var ids := IdsIn(t, 1, bound);
    forall id | id in t ensures exists i :: 0 <= i < |data| && data[i]["id"] == VInt(id) {
      assert id in ids;
      var i :| 0 <= i < |ids| && ids[i] == id;
      assert data[i]["id"] == VInt(id);
    }
  }

  /** The keys in [lo, hi) of the rows holding `v` in column `c`, ascending:
      a `hasMany` relation as it is listed. */
  function IdsWhere(t: Table, c: string, v: Value, lo: Id, hi: Id): (r: seq<Id>)
    ensures forall j :: j in r <==> lo <= j < hi && j in t && Col(t[j], c) == v
    ensures forall i, k :: 0 <= i < k < |r| ==> r[i] < r[k]
    decreases hi - lo
  {
    if lo >= hi then []
    else if lo in t && Col(t[lo], c) == v then
      var rest := IdsWhere(t, c, v, lo + 1, hi);
      assert forall k :: 0 <= k < |rest| ==> rest[k] in rest;
      [lo] + rest
    else IdsWhere(t, c, v, lo + 1, hi)
  }

  /** What a read action answers: the HTTP status and the JSON objects of
      its `data` (one for show, a list for index, none on failure). */
  datatype Shown = Shown(status: int, data: seq<Payload>)

  // ---- Pagination ----

  /** Eloquent's `Model::$perPage`, used when `paginate` gets a falsy size. */
  const ModelPerPage: nat := 15

  /** `$request->query('per_page', fallback)` handed to `paginate`. */
  function PerPage(requested: Option<nat>, fallback: nat): (n: nat)
    ensures requested == None ==> n == fallback
    ensures requested.Some? && requested.value > 0 ==> n == requested.value
    ensures requested == Some(0) ==> n == ModelPerPage
  {
    match requested
    case None => fallback
    case Some(k) => if k == 0 then ModelPerPage else k
  }

  /** The `page` query parameter as the paginator resolves it: anything
      below 1 is page 1. */
  function CurrentPage(requested: Option<int>): (p: nat)
    ensures p >= 1
    ensures requested.Some? && requested.value >= 1 ==> p == requested.value
  {
    match requested
    case None => 1
    case Some(k) => if k >= 1 then k else 1
  }

  /** Page `page` (from 1) of `size` items. */
  function Page<T>(items: seq<T>, page: nat, size: nat): (r: seq<T>)
    requires page >= 1
    ensures |r| <= size
    ensures forall i :: 0 <= i < |r| ==> (page - 1) * size + i < |items| && r[i] == items[(page - 1) * size + i]
    ensures (page - 1) * size < |items| && size > 0 ==> |r| > 0
  {
    var start := (page - 1) * size;
    if start >= |items| then []
    else if start + size <= |items| then items[start..start + size]
    else items[start..]
  }

  /** Euclidean division by repeated subtraction: `i == q * size + m`. */
  lemma {:induction false} DivideIndex(i: nat, size: nat) returns (q: nat, m: nat)
    requires size > 0
    ensures q * size + m == i && m < size
    decreases i
  {
    if i < size {
      q, m := 0, i;
    } else {
      var q', m' := DivideIndex(i - size, size);
      q, m := q' + 1, m';
      assert q * size == q' * size + size;
    }
  }

  /** Every item is on exactly one page: item `q * size + m` is entry `m`
      of page `q + 1`. */
  lemma PageLocates<T>(items: seq<T>, size: nat, q: nat, m: nat)
    requires m < size && q * size + m < |items|
    ensures m < |Page(items, q + 1, size)|
    ensures Page(items, q + 1, size)[m] == items[q * size + m]
  {
    assert (q + 1 - 1) * size == q * size;
  }

  /** Listing `ids` page by page with a positive size shows each of them on
      some page. */
  lemma EveryIdOnSomePage(ids: seq<Id>, size: nat, id: Id) returns (pg: nat, k: nat)
    requires size > 0 && id in ids
    ensures pg >= 1 && k < |Page(ids, pg, size)| && Page(ids, pg, size)[k] == id
  {
    var i :| 0 <= i < |ids| && ids[i] == id;
    var q, m := DivideIndex(i, size);
    PageLocates(ids, size, q, m);
    pg, k := q + 1, m;
  }

  /** A page of an ascending sequence is ascending. */
  lemma PageAscending(ids: seq<Id>, pg: nat, size: nat)
    requires pg >= 1
    requires forall i, k :: 0 <= i < k < |ids| ==> ids[i] < ids[k]
    ensures var r := Page(ids, pg, size); forall i, k :: 0 <= i < k < |r| ==> r[i] < r[k]
  {
  }

  // ---- orderBy('name', 'ASC') ----

  /** Byte-wise lexicographic order on strings. */
  predicate LexLe(a: string, b: string)
    decreases |a|
  {
    |a| == 0 || (|b| > 0 && (a[0] < b[0] || (a[0] == b[0] && LexLe(a[1..], b[1..]))))
  }

  lemma {:induction false} LexLeTotal(a: string, b: string)
    ensures LexLe(a, b) || LexLe(b, a)
    decreases |a|
  {
    if |a| > 0 && |b| > 0 && a[0] == b[0] {
      LexLeTotal(a[1..], b[1..]);
    }
  }

  function NameOf(t: Table, j: Id): string
    requires j in t
  {
    AsString(Col(t[j], "name"))
  }

  predicate SortedByName(t: Table, s: seq<Id>)
    requires forall j :: j in s ==> j in t
  {
    forall i :: 0 <= i < |s| - 1 ==> LexLe(NameOf(t, s[i]), NameOf(t, s[i + 1]))
  }

  /** Insert `x` before the first key whose name is not below its own. */
  function InsertByName(t: Table, x: Id, s: seq<Id>): (r: seq<Id>)
    requires x in t && forall j :: j in s ==> j in t
    ensures multiset(r) == multiset(s) + multiset{x}
    ensures forall j :: j in r ==> j in t
    ensures |r| > 0 && (r[0] == x || (|s| > 0 && r[0] == s[0]))
    decreases |s|
  {
    if |s| == 0 || LexLe(NameOf(t, x), NameOf(t, s[0])) then [x] + s
    else
      assert s == [s[0]] + s[1..];
      [s[0]] + InsertByName(t, x, s[1..])
  }

  /** Inserting into a name-ordered listing keeps it name-ordered. */
  lemma {:induction false} InsertByNameSorted(t: Table, x: Id, s: seq<Id>)
    requires x in t && forall j :: j in s ==> j in t
    requires SortedByName(t, s)
    ensures SortedByName(t, InsertByName(t, x, s))
    decreases |s|
  {
    if |s| == 0 || LexLe(NameOf(t, x), NameOf(t, s[0])) {
    } else {
      LexLeTotal(NameOf(t, x), NameOf(t, s[0]));
      assert s == [s[0]] + s[1..];
      InsertByNameSorted(t, x, s[1..]);
      var rest := InsertByName(t, x, s[1..]);
      var r := [s[0]] + rest;
      assert r == InsertByName(t, x, s);
      assert LexLe(NameOf(t, s[0]), NameOf(t, rest[0]));
      forall i | 0 <= i < |r| - 1 ensures LexLe(NameOf(t, r[i]), NameOf(t, r[i + 1])) {
        if i > 0 {
          assert r[i] == rest[i - 1] && r[i + 1] == rest[i];
        }
      }
    }
  }

  /** `orderBy('name', 'ASC')` over the keys `s`. The database leaves the
      order of rows with equal names open; this one is one such order. */
  function SortByName(t: Table, s: seq<Id>): (r: seq<Id>)
    requires forall j :: j in s ==> j in t
    ensures multiset(r) == multiset(s)
    ensures forall j :: j in r ==> j in t
    ensures SortedByName(t, r)
    decreases |s|
  {
    if |s| == 0 then []
    else
      assert s == s[..|s| - 1] + [s[|s| - 1]];
      var sorted := SortByName(t, s[..|s| - 1]);
      InsertByNameSorted(t, s[|s| - 1], sorted);
      InsertByName(t, s[|s| - 1], sorted)
  }

  /** A page of a name-ordered listing is name-ordered. */
  lemma PageSortedByName(t: Table, ids: seq<Id>, pg: nat, size: nat)
    requires pg >= 1 && (forall j :: j in ids ==> j in t) && SortedByName(t, ids)
    ensures forall j :: j in Page(ids, pg, size) ==> j in t
    ensures SortedByName(t, Page(ids, pg, size))
  {
    var r := Page(ids, pg, size);
    var start := (pg - 1) * size;
    forall i | 0 <= i < |r| - 1 ensures LexLe(NameOf(t, r[i]), NameOf(t, r[i + 1])) {
      assert r[i] == ids[start + i] && r[i + 1] == ids[start + i + 1];
    }
  }
}
