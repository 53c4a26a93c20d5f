/**
 * internal/data/items.go: the `Item` record, its validation rules and the
 * `ItemModel` repository. The `items` table is an in-memory map from id to
 * row; the database's id sequence is the `serial` counter and its clock
 * readings are parameters. Text is a `string` with one character per byte
 * of the Go string, so lengths are byte counts.
 */
module Items {
  import opened Wrappers
  import opened Validator
  import opened Models

  datatype Item = Item(
    id: int,
    name: string,
    model: string,
    supplier: int,
    price: real,
    currency: int,
    imageFile: string,
    notes: string,
    tags: seq<string>,
    createdAt: int,
    updatedAt: int,
    archived: bool)

  const MaxNameLength: nat := 255

  // ---------------------------------------------------------------------------
  // ValidateItem

  /** Field `key` fails at least one of the checks of `ValidateItem`. */
  predicate Fails(item: Item, key: string)
  {
    || (key == "name" && (item.name == [] || |item.name| > MaxNameLength))
    || (key == "supplier" && item.supplier == 0)
    || (key == "price" && item.price <= 0.0)
    || (key == "currency" && item.currency == 0)
    || (key == "tags" && !Unique(item.tags))
  }

  /**
   * `ValidateItem(v, item)`: seven checks in source order; a key that already
   * holds a message keeps it, and of two failing checks on one key the first
   * message wins.
   */
  function ValidateItem(v: Errors, item: Item): Errors
  {
    var v1 := Check(v, item.name != [], "name", "must be provided");
    var v2 := Check(v1, |item.name| <= MaxNameLength, "name", "must not be more than 255 characters long");
    var v3 := Check(v2, item.supplier != 0, "supplier", "must be provided");
    var v4 := Check(v3, item.price != 0.0, "price", "must be provided");
    var v5 := Check(v4, item.price > 0.0, "price", "must be a positive value");
    var v6 := Check(v5, item.currency != 0, "currency", "must be provided");
    Check(v6, Unique(item.tags), "tags", "must not contain duplicate values")
  }

  /** The message of the first failing check on field `key`. */
  function FirstMessage(item: Item, key: string): string
  {
    if key == "name" then
      (if item.name == [] then "must be provided" else "must not be more than 255 characters long")
    else if key == "price" then
      (if item.price == 0.0 then "must be provided" else "must be a positive value")
    else if key == "tags" then "must not contain duplicate values"
    else "must be provided"
  }

  /**
   * What `ValidateItem` records: exactly the failing fields are added,
   * earlier entries are kept, and each added field holds the message of its
   * first failing check.
   */
  lemma ValidateItemReports(v: Errors, item: Item)
    ensures forall k :: k in ValidateItem(v, item) <==> k in v || Fails(item, k)
    ensures forall k :: k in v ==> ValidateItem(v, item)[k] == v[k]
    ensures forall k :: k !in v && Fails(item, k) ==> ValidateItem(v, item)[k] == FirstMessage(item, k)
  {
    forall k
      ensures k in ValidateItem(v, item) <==> k in v || Fails(item, k)
      ensures k in v ==> ValidateItem(v, item)[k] == v[k]
      ensures k !in v && Fails(item, k) ==> ValidateItem(v, item)[k] == FirstMessage(item, k)
    {
      ValidateItemAt(v, item, k);
    }
  }

  lemma ValidateItemAt(v: Errors, item: Item, k: string)
    ensures k in ValidateItem(v, item) <==> k in v || Fails(item, k)
    ensures k in v ==> ValidateItem(v, item)[k] == v[k]
    ensures k !in v && Fails(item, k) ==> ValidateItem(v, item)[k] == FirstMessage(item, k)
  {
    var v1 := Check(v, item.name != [], "name", "must be provided");
    CheckAt(v, item.name != [], "name", "must be provided", k);
    var v2 := Check(v1, |item.name| <= MaxNameLength, "name", "must not be more than 255 characters long");
    CheckAt(v1, |item.name| <= MaxNameLength, "name", "must not be more than 255 characters long", k);
    var v3 := Check(v2, item.supplier != 0, "supplier", "must be provided");
    CheckAt(v2, item.supplier != 0, "supplier", "must be provided", k);
    var v4 := Check(v3, item.price != 0.0, "price", "must be provided");
    CheckAt(v3, item.price != 0.0, "price", "must be provided", k);
    var v5 := Check(v4, item.price > 0.0, "price", "must be a positive value");
    CheckAt(v4, item.price > 0.0, "price", "must be a positive value", k);
    var v6 := Check(v5, item.currency != 0, "currency", "must be provided");
    CheckAt(v5, item.currency != 0, "currency", "must be provided", k);
    CheckAt(v6, Unique(item.tags), "tags", "must not contain duplicate values", k);
  }

  /** The conjunction of the seven conditions the checks test. */
  predicate WellFormed(item: Item)
  {
    && item.name != []
    && |item.name| <= MaxNameLength
    && item.supplier != 0
    && item.price != 0.0
    && item.price > 0.0
    && item.currency != 0
    && |Elements(item.tags)| == |item.tags|
  }

  /** A fresh validator ends valid exactly when every condition holds. */
  lemma ValidateItemValid(item: Item)
    ensures Valid(ValidateItem(map[], item)) <==> WellFormed(item)
  {
    UniqueIffCardinality(item.tags);
    ValidateItemReports(map[], item);
    var r := ValidateItem(map[], item);
    if !WellFormed(item) {
      var k :| k in {"name", "supplier", "price", "currency", "tags"} && Fails(item, k);
      assert k in r;
    }
  }

  /** Every failing check reports under one of the five field names, and nothing else is added. */
  lemma ValidateItemKeys(v: Errors, item: Item)
    ensures forall k :: k in ValidateItem(v, item) && k !in v ==> k in {"name", "supplier", "price", "currency", "tags"}
  {
    ValidateItemReports(v, item);
  }

  // ---------------------------------------------------------------------------
  // Listing order

  datatype Column = ById | ByName | ByModel | BySupplier | ByPrice

  /** `ORDER BY column direction, id ASC`, as `Filters.sortColumn` and `sortDirection` produce it. */
  datatype SortOrder = SortOrder(column: Column, descending: bool)

  function Sign(x: int, y: int): int
  {
    if x < y then -1 else if x == y then 0 else 1
  }

  function SignReal(x: real, y: real): int
  {
    if x < y then -1 else if x == y then 0 else 1
  }

  /** Byte-wise lexicographic comparison of two texts: -1, 0 or 1. */
  function LexCmp(a: string, b: string): int
  {
    if a == [] && b == [] then 0
    else if a == [] then -1
    else if b == [] then 1
    else if a[0] != b[0] then Sign(a[0] as int, b[0] as int)
    else LexCmp(a[1..], b[1..])
  }

  lemma {:induction false} LexCmpZero(a: string, b: string)
    ensures LexCmp(a, b) == 0 <==> a == b
  {
    if a != [] && b != [] && a[0] == b[0] {
      LexCmpZero(a[1..], b[1..]);
      if a[1..] == b[1..] {
        assert a == [a[0]] + a[1..] && b == [b[0]] + b[1..];
      }
    }
  }

  lemma {:induction false} LexCmpAntisymmetric(a: string, b: string)
    ensures LexCmp(a, b) == -LexCmp(b, a)
  {
    if a != [] && b != [] && a[0] == b[0] {
      LexCmpAntisymmetric(a[1..], b[1..]);
    }
  }

  lemma {:induction false} LexCmpTransitive(a: string, b: string, c: string)
    requires LexCmp(a, b) <= 0 && LexCmp(b, c) <= 0
    ensures LexCmp(a, c) <= 0
  {
    if a != [] && b != [] && c != [] && a[0] == b[0] && b[0] == c[0] {
      LexCmpTransitive(a[1..], b[1..], c[1..]);
    }
  }

  /** The comparison of two rows on one column. */
  function Cmp(a: Item, b: Item, column: Column): int
  {
    match column
    case ById => Sign(a.id, b.id)
    case ByName => LexCmp(a.name, b.name)
    case ByModel => LexCmp(a.model, b.model)
    case BySupplier => Sign(a.supplier, b.supplier)
    case ByPrice => SignReal(a.price, b.price)
  }

  /** The column comparison is a total preorder: antisymmetric, transitive, and equal keys compare alike. */
  lemma CmpProperties(a: Item, b: Item, c: Item, column: Column)
    ensures Cmp(a, b, column) == -Cmp(b, a, column)
    ensures Cmp(a, b, column) <= 0 && Cmp(b, c, column) <= 0 ==> Cmp(a, c, column) <= 0
    ensures Cmp(a, b, column) == 0 ==> Cmp(a, c, column) == Cmp(b, c, column)
  {
    match column
    case ByName =>
      LexCmpAntisymmetric(a.name, b.name);
      LexCmpZero(a.name, b.name);
      if Cmp(a, b, column) <= 0 && Cmp(b, c, column) <= 0 {
        LexCmpTransitive(a.name, b.name, c.name);
      }
    case ByModel =>
      LexCmpAntisymmetric(a.model, b.model);
      LexCmpZero(a.model, b.model);
      if Cmp(a, b, column) <= 0 && Cmp(b, c, column) <= 0 {
        LexCmpTransitive(a.model, b.model, c.model);
      }
    case _ =>
  }

  /** The key comparison in the requested direction. */
  function Directed(a: Item, b: Item, order: SortOrder): int
  {
    if order.descending then Cmp(b, a, order.column) else Cmp(a, b, order.column)
  }

  lemma DirectedProperties(a: Item, b: Item, c: Item, order: SortOrder)
    ensures Directed(a, b, order) == -Directed(b, a, order)
    ensures Directed(a, b, order) <= 0 && Directed(b, c, order) <= 0 ==> Directed(a, c, order) <= 0
    ensures Directed(a, b, order) == 0 ==> Directed(a, c, order) == Directed(b, c, order)
  {
    if order.descending {
      CmpProperties(b, a, c, order.column);
      CmpProperties(c, b, a, order.column);
      CmpProperties(a, b, c, order.column);
      CmpProperties(a, c, b, order.column);
    } else {
      CmpProperties(a, b, c, order.column);
    }
  }

  /** Row `a` is listed before row `b`: by the column, then by ascending id. */
  predicate Precedes(a: Item, b: Item, order: SortOrder)
  {
    Directed(a, b, order) < 0 || (Directed(a, b, order) == 0 && a.id < b.id)
  }

  /** `Precedes` is a strict total order on rows with distinct ids. */
  lemma PrecedesOrder(a: Item, b: Item, c: Item, order: SortOrder)
    ensures !Precedes(a, a, order)
    ensures a.id != b.id ==> Precedes(a, b, order) || Precedes(b, a, order)
    ensures Precedes(a, b, order) && Precedes(b, c, order) ==> Precedes(a, c, order)
  {
    DirectedProperties(a, a, a, order);
    DirectedProperties(a, b, c, order);
    DirectedProperties(b, c, a, order);
    DirectedProperties(a, c, b, order);
  }

  predicate Sorted(s: seq<Item>, order: SortOrder)
  {
    forall i, j :: 0 <= i < j < |s| ==> Precedes(s[i], s[j], order)
  }

  /** No row of `s` has the id of `x`. */
  predicate FreshId(x: Item, s: seq<Item>)
  {
    forall y :: y in s ==> y.id != x.id
  }

  /** Insert `x` in front of the first row it precedes. */
  function InsertSorted(x: Item, s: seq<Item>, order: SortOrder): (r: seq<Item>)
    ensures multiset(r) == multiset(s) + multiset{x}
    ensures |r| == |s| + 1
  {
    if s == [] then [x]
    else if Precedes(x, s[0], order) then [x] + s
    else
      assert s == [s[0]] + s[1..];
      [s[0]] + InsertSorted(x, s[1..], order)
  }

  lemma {:induction false} InsertSortedSorted(x: Item, s: seq<Item>, order: SortOrder)
    requires Sorted(s, order) && FreshId(x, s)
    ensures Sorted(InsertSorted(x, s, order), order)
  {
    if s == [] {
    } else if Precedes(x, s[0], order) {
      var r := [x] + s;
      forall i, j | 0 <= i < j < |r| ensures Precedes(r[i], r[j], order) {
        assert r[j] == s[j - 1];
        if i == 0 {
          if j > 1 {
            PrecedesOrder(x, s[0], s[j - 1], order);
          }
        } else {
          assert r[i] == s[i - 1];
        }
      }
    } else {
      var t := s[1..];
      assert Sorted(t, order) by {
        forall i, j | 0 <= i < j < |t| ensures Precedes(t[i], t[j], order) {
          assert t[i] == s[i + 1] && t[j] == s[j + 1];
        }
      }
      InsertSortedSorted(x, t, order);
      PrecedesOrder(x, s[0], s[0], order);
      var u := InsertSorted(x, t, order);
      var r := [s[0]] + u;
      forall i, j | 0 <= i < j < |r| ensures Precedes(r[i], r[j], order) {
        assert r[j] == u[j - 1];
        if i > 0 {
          assert r[i] == u[i - 1];
        } else {
          assert r[j] in multiset(t) + multiset{x};
          if r[j] != x {
            assert r[j] in t;
            var k :| 0 <= k < |t| && t[k] == r[j];
            assert s[k + 1] == r[j];
          }
        }
      }
    }
  }

  /** Insertion sort: the ordering the database applies to the matching rows. */
  function Sort(s: seq<Item>, order: SortOrder): (r: seq<Item>)
    ensures multiset(r) == multiset(s)
    ensures |r| == |s|
  {
    if s == [] then []
    else
      assert s == [s[0]] + s[1..];
      InsertSorted(s[0], Sort(s[1..], order), order)
  }

  /** No two rows share an id. */
  predicate DistinctIds(s: seq<Item>)
  {
    forall i, j :: 0 <= i < j < |s| ==> s[i].id != s[j].id
  }

  lemma {:induction false} SortSorted(s: seq<Item>, order: SortOrder)
    requires DistinctIds(s)
    ensures Sorted(Sort(s, order), order)
  {
    if s != [] {
      var t := s[1..];
      assert DistinctIds(t) by {
        forall i, j | 0 <= i < j < |t| ensures t[i].id != t[j].id {
          assert t[i] == s[i + 1] && t[j] == s[j + 1];
        }
      }
      SortSorted(t, order);
      var st := Sort(t, order);
      forall y | y in st ensures y.id != s[0].id {
        assert y in multiset(st);
        assert y in t;
        var k :| 0 <= k < |t| && t[k] == y;
        assert s[k + 1] == y;
      }
      InsertSortedSorted(s[0], st, order);
    }
  }

  /** A contiguous part of a sorted sequence is sorted. */
  lemma SliceSorted(s: seq<Item>, lo: int, hi: int, order: SortOrder)
    requires Sorted(s, order) && 0 <= lo <= hi <= |s|
    ensures Sorted(s[lo..hi], order)
  {
    var p := s[lo..hi];
    forall i, j | 0 <= i < j < |p| ensures Precedes(p[i], p[j], order) {
      assert p[i] == s[lo + i] && p[j] == s[lo + j];
    }
  }

  /** Dropping the images does not change the order: no column compares images. */
  lemma WithoutImagesSorted(s: seq<Item>, order: SortOrder)
    requires Sorted(s, order)
    ensures Sorted(WithoutImages(s), order)
  {
    var w := WithoutImages(s);
    forall i, j | 0 <= i < j < |w| ensures Precedes(w[i], w[j], order) {
      assert Cmp(w[i], w[j], order.column) == Cmp(s[i], s[j], order.column);
      assert Cmp(w[j], w[i], order.column) == Cmp(s[j], s[i], order.column);
    }
  }

  // ---------------------------------------------------------------------------
  // The listing query

  /** The `WHERE` arguments of `GetAll`: name text, supplier and required tags. */
  datatype Query = Query(name: string, supplier: int, tags: seq<string>)

  /**
   * The `WHERE` clause. `nameMatch(name, text)` stands for the full-text test
   * `to_tsvector('simple', name) @@ plainto_tsquery('simple', text)`.
   */
  predicate Selected(item: Item, q: Query, nameMatch: (string, string) -> bool)
  {
    && (nameMatch(item.name, q.name) || q.name == [])
    && (item.supplier == q.supplier || q.supplier == 0)
    && (forall t :: t in q.tags ==> t in item.tags)
  }

  /** The selected rows with id in `[lo, hi)`, by ascending id. */
  function Collect(rows: map<int, Item>, q: Query, nameMatch: (string, string) -> bool, lo: int, hi: int): (r: seq<Item>)
    ensures forall x :: x in r ==> Selected(x, q, nameMatch) && x in rows.Values
    decreases hi - lo
  {
    if lo >= hi then []
    else if lo in rows && Selected(rows[lo], q, nameMatch) then [rows[lo]] + Collect(rows, q, nameMatch, lo + 1, hi)
    else Collect(rows, q, nameMatch, lo + 1, hi)
  }

  /** Keys agree with the ids of the rows stored under them. */
  predicate Keyed(rows: map<int, Item>)
  {
    forall id :: id in rows ==> rows[id].id == id
  }

  lemma {:induction false} CollectExact(rows: map<int, Item>, q: Query, nameMatch: (string, string) -> bool, lo: int, hi: int)
    requires Keyed(rows)
    ensures DistinctIds(Collect(rows, q, nameMatch, lo, hi))
    ensures forall x :: x in Collect(rows, q, nameMatch, lo, hi) <==>
      lo <= x.id < hi && x.id in rows && rows[x.id] == x && Selected(x, q, nameMatch)
    decreases hi - lo
  {
    if lo < hi {
      CollectExact(rows, q, nameMatch, lo + 1, hi);
      var r := Collect(rows, q, nameMatch, lo, hi);
      var t := Collect(rows, q, nameMatch, lo + 1, hi);
      if lo in rows && Selected(rows[lo], q, nameMatch) {
        assert r == [rows[lo]] + t;
        forall i, j | 0 <= i < j < |r| ensures r[i].id != r[j].id {
          assert r[j] == t[j - 1];
          if i > 0 { assert r[i] == t[i - 1]; } else { assert r[j] in t; }
        }
      }
    }
  }

  /** `LIMIT limit OFFSET offset` on a sequence of rows. */
  function Page(s: seq<Item>, limit: nat, offset: nat): (r: seq<Item>)
    ensures |r| <= limit
    ensures forall x :: x in r ==> x in s
  {
    var lo := if offset < |s| then offset else |s|;
    var hi := if offset + limit < |s| then offset + limit else |s|;
    s[lo..hi]
  }

  /** Every listed row loses its image: `image_file` is not in the select list. */
  function WithoutImages(s: seq<Item>): (r: seq<Item>)
    ensures |r| == |s|
    ensures forall i :: 0 <= i < |s| ==> r[i] == s[i].(imageFile := [])
  {
    seq(|s|, i requires 0 <= i < |s| => s[i].(imageFile := []))
  }

  /** The rows `GetAll` scans: the matching rows sorted, then one page of them. */
  function Matching(rows: map<int, Item>, bound: int, q: Query, nameMatch: (string, string) -> bool): seq<Item>
  {
    Collect(rows, q, nameMatch, 1, bound)
  }

  function Listing(rows: map<int, Item>, bound: int, q: Query, nameMatch: (string, string) -> bool,
                   order: SortOrder, limit: nat, offset: nat): seq<Item>
  {
    WithoutImages(Page(Sort(Matching(rows, bound, q, nameMatch), order), limit, offset))
  }

  /** `count(*) OVER()` is read from the scanned rows; with none scanned it stays 0. */
  function TotalRecords(rows: map<int, Item>, bound: int, q: Query, nameMatch: (string, string) -> bool,
                        order: SortOrder, limit: nat, offset: nat): nat
  {
    if Listing(rows, bound, q, nameMatch, order, limit, offset) == [] then 0
    else |Matching(rows, bound, q, nameMatch)|
  }

  /** Every listed row is selected, stored under its id (but for the image) and the page is at most `limit` long. */
  lemma ListingSelected(rows: map<int, Item>, bound: int, q: Query, nameMatch: (string, string) -> bool,
                        order: SortOrder, limit: nat, offset: nat)
    requires Keyed(rows)
    ensures |Listing(rows, bound, q, nameMatch, order, limit, offset)| <= limit
    ensures forall x :: x in Listing(rows, bound, q, nameMatch, order, limit, offset) ==>
      && Selected(x, q, nameMatch)
      && x.imageFile == []
      && x.id in rows && rows[x.id].(imageFile := []) == x
  {
    var m := Matching(rows, bound, q, nameMatch);
    CollectExact(rows, q, nameMatch, 1, bound);
    var p := Page(Sort(m, order), limit, offset);
    var l := Listing(rows, bound, q, nameMatch, order, limit, offset);
    forall x | x in l
      ensures Selected(x, q, nameMatch) && x.imageFile == [] && x.id in rows && rows[x.id].(imageFile := []) == x
    {
      var i :| 0 <= i < |l| && l[i] == x;
      assert p[i] in Sort(m, order);
      assert p[i] in multiset(m);
      assert p[i] in m;
    }
  }

  /** The listing is in the requested order, with the id tiebreak. */
  lemma ListingSorted(rows: map<int, Item>, bound: int, q: Query, nameMatch: (string, string) -> bool,
                      order: SortOrder, limit: nat, offset: nat)
    requires Keyed(rows)
    ensures Sorted(Listing(rows, bound, q, nameMatch, order, limit, offset), order)
  {
    var m := Matching(rows, bound, q, nameMatch);
    CollectExact(rows, q, nameMatch, 1, bound);
    SortSorted(m, order);
    var s := Sort(m, order);
    var lo := if offset < |s| then offset else |s|;
    var hi := if offset + limit < |s| then offset + limit else |s|;
    SliceSorted(s, lo, hi, order);
    WithoutImagesSorted(Page(s, limit, offset), order);
  }

  /** Every stored row that the query selects is among the matching rows that are counted. */
  lemma MatchingComplete(rows: map<int, Item>, bound: int, q: Query, nameMatch: (string, string) -> bool)
    requires Keyed(rows) && forall id :: id in rows ==> 1 <= id < bound
    ensures forall id :: id in rows && Selected(rows[id], q, nameMatch) ==> rows[id] in Matching(rows, bound, q, nameMatch)
    ensures forall x :: x in Matching(rows, bound, q, nameMatch) ==> x.id in rows && rows[x.id] == x && Selected(x, q, nameMatch)
  {
    CollectExact(rows, q, nameMatch, 1, bound);
  }

  // ---------------------------------------------------------------------------
  // ItemModel

  /** The values the `RETURNING id, created_at, updated_at` clause of `Insert` scans back. */
  datatype Stamp = Stamp(id: int, createdAt: int, updatedAt: int)

  /** The caller's struct once `Insert` has scanned the returned columns into it. */
  function Stamped(item: Item, s: Stamp): (r: Item)
    ensures r.id == s.id && r.createdAt == s.createdAt && r.updatedAt == s.updatedAt
    ensures r.(id := item.id, createdAt := item.createdAt, updatedAt := item.updatedAt) == item
  {
    item.(id := s.id, createdAt := s.createdAt, updatedAt := s.updatedAt)
  }

  /** The row `Update` writes: the ten columns of the `SET` clause taken from `item`. */
  function Replaced(row: Item, item: Item, now: int): (r: Item)
    ensures r.id == row.id && r.createdAt == row.createdAt && r.updatedAt == now
    ensures r.(id := item.id, createdAt := item.createdAt, updatedAt := item.updatedAt) == item
  {
    row.(name := item.name, model := item.model, supplier := item.supplier, price := item.price,
         currency := item.currency, imageFile := item.imageFile, notes := item.notes, tags := item.tags,
         updatedAt := now, archived := item.archived)
  }

  /** The `WHERE id = $11 AND updated_at = $12` guard of `Update`. */
  predicate CasMatches(rows: map<int, Item>, item: Item)
  {
    item.id in rows && rows[item.id].updatedAt == item.updatedAt
  }

  class ItemModel {
    /** The `items` table. */
    var rows: map<int, Item>
    /** The next value of the id sequence. */
    var serial: int

    ghost predicate Invariant()
      reads this
    {
      serial >= 1 && forall id :: id in rows ==> 1 <= id < serial && rows[id].id == id
    }

    constructor ()
      ensures Invariant() && rows == map[] && serial == 1
    {
      rows := map[];
      serial := 1;
    }

    /**
     * `Insert(item)` at clock reading `now`: the row gets the next id, both
     * timestamps and the column default `archived = false`; the id and the
     * timestamps are written back into the caller's struct.
     */
    method Insert(item: Item, now: int) returns (saved: Item)
      requires Invariant()
      modifies this
      ensures Invariant()
      ensures saved == Stamped(item, Stamp(old(serial), now, now))
      ensures saved.id !in old(rows)
      ensures rows == old(rows)[saved.id := saved.(archived := false)]
      ensures serial == old(serial) + 1
    {
      saved := Stamped(item, Stamp(serial, now, now));
      rows := rows[serial := saved.(archived := false)];
      serial := serial + 1;
    }

    /** `Get(id)`: ids below 1 are refused before the table is read. */
    method Get(id: int) returns (r: Result<Item, ModelError>)
      ensures id < 1 ==> r == Failure(ErrNoRecord)
      ensures id >= 1 && id !in rows ==> r == Failure(ErrNoRecord)
      ensures id >= 1 && id in rows ==> r == Success(rows[id])
      ensures Invariant() && r.Success? ==> r.value.id == id
    {
      if id < 1 {
        return Failure(ErrNoRecord);
      }
      if id in rows {
        r := Success(rows[id]);
      } else {
        r := Failure(ErrNoRecord);
      }
    }

    /**
     * `Update(item)` at clock reading `now`: compare-and-swap on
     * `(id, updated_at)`. On success the new `updated_at` is written back into
     * the caller's struct; on a stale or absent key nothing changes.
     */
    method Update(item: Item, now: int) returns (err: Option<ModelError>, written: Item)
      requires Invariant()
      modifies this
      ensures Invariant() && serial == old(serial)
      ensures CasMatches(old(rows), item) ==>
        && err == None
        && written == item.(updatedAt := now)
        && rows == old(rows)[item.id := Replaced(old(rows)[item.id], item, now)]
      ensures !CasMatches(old(rows), item) ==>
        err == Some(ErrEditConflict) && written == item && rows == old(rows)
    {
      if CasMatches(rows, item) {
        rows := rows[item.id := Replaced(rows[item.id], item, now)];
        err, written := None, item.(updatedAt := now);
      } else {
        err, written := Some(ErrEditConflict), item;
      }
    }

    /** `Delete(id)`: refuses ids below 1 and ids that affect no row. */
    method Delete(id: int) returns (err: Option<ModelError>)
      requires Invariant()
      modifies this
      ensures Invariant() && serial == old(serial)
      ensures (id < 1 || id !in old(rows)) ==> err == Some(ErrNoRecord) && rows == old(rows)
      ensures id >= 1 && id in old(rows) ==> err == None && rows == old(rows) - {id}
    {
      if id < 1 {
        return Some(ErrNoRecord);
      }
      if id in rows {
        rows := rows - {id};
        err := None;
      } else {
        err := Some(ErrNoRecord);
      }
    }

    /**
     * `GetAll`: scan the page of the sorted matching rows, appending each one
     * (without its image) and reading the window count from every row.
     */
    method GetAll(q: Query, nameMatch: (string, string) -> bool, order: SortOrder, limit: nat, offset: nat)
      returns (items: seq<Item>, totalRecords: nat)
      requires Invariant()
      ensures items == Listing(rows, serial, q, nameMatch, order, limit, offset)
      ensures totalRecords == TotalRecords(rows, serial, q, nameMatch, order, limit, offset)
    {
      var matching := Matching(rows, serial, q, nameMatch);
      var page := Page(Sort(matching, order), limit, offset);
      items := [];
      totalRecords := 0;
      var i := 0;
      while i < |page|
        invariant 0 <= i <= |page|
        invariant items == WithoutImages(page[..i])
        invariant totalRecords == if i == 0 then 0 else |matching|
      {
        totalRecords := |matching|;
        items := items + [page[i].(imageFile := [])];
        i := i + 1;
      }
      assert page[..i] == page;
    }
  }
}
