/**
 * cmd/api/items.go: the five item handlers as decision functions. Each takes
 * the outcomes of its collaborators (`readIDParam`, `readJSON`, the item
 * repository, `writeJSON`) as parameters and yields the repository calls it
 * issues and the replies it attempts.
 */
module ItemHandlers {
  import opened Wrappers
  import opened Validator
  import opened Models
  import opened Items
  import opened Responses
  import Decimal

  /** `data.Filters` as the list handler fills it in. */
  datatype Filters = Filters(page: int, pageSize: int, sort: string, safelist: seq<string>)

  /** One call on the item repository, with its arguments. */
  datatype ItemCall =
    | InsertCall(item: Item)
    | GetCall(id: int)
    | UpdateCall(item: Item)
    | DeleteCall(id: int)
    | GetAllCall(name: string, supplier: int, tags: seq<string>, filters: Filters)

  /** `readIDParam` yields an id and the handler accepts it: no parse error and `id >= 1`. */
  predicate IdAccepted(idParam: Option<int>)
  {
    idParam.Some? && idParam.value >= 1
  }

  // ---------------------------------------------------------------------------
  // handleCreateItem

  /** The request body of `handleCreateItem`, once decoded. */
  datatype NewItem = NewItem(
    name: string, model: string, supplier: int, price: real, currency: int,
    imageFile: string, notes: string, tags: seq<string>)

  /** The `data.Item` literal built from the payload; id, timestamps and `archived` keep their zero values. */
  function FromPayload(p: NewItem): (item: Item)
    ensures item.id == 0 && item.createdAt == 0 && item.updatedAt == 0 && !item.archived
  {
    Item(0, p.name, p.model, p.supplier, p.price, p.currency, p.imageFile, p.notes, p.tags, 0, 0, false)
  }

  /** `fmt.Sprintf("/v1/items/%d", id)`. */
  function ItemLocation(id: int): string
  {
    "/v1/items/" + Decimal.Format(id)
  }

  /** The Location header names exactly the id `Insert` assigned. */
  lemma ItemLocationNamesId(id: int)
    ensures |ItemLocation(id)| > 10 && ItemLocation(id)[..10] == "/v1/items/"
    ensures Decimal.Parse(ItemLocation(id)[10..]) == Some(id)
  {
    assert ItemLocation(id)[10..] == Decimal.Format(id);
    Decimal.ParseFormat(id);
  }

  function CreateItem(decoded: Result<NewItem, string>, inserted: Result<Stamp, ModelError>, writeOk: bool)
    : (r: Run<ItemCall>)
    ensures decoded.Failure? ==> r == Run([], [Error(BadRequest(decoded.error))])
    ensures r.calls != [] <==> decoded.Success? && WellFormed(FromPayload(decoded.value))
    ensures decoded.Success? && !WellFormed(FromPayload(decoded.value)) ==>
      r == Run([], [Error(FailedValidation(ValidateItem(map[], FromPayload(decoded.value))))])
    ensures r.calls != [] ==> r.calls == [InsertCall(FromPayload(decoded.value))]
    ensures r.calls != [] && inserted.Failure? ==> r.replies == [Error(ServerError)]
    ensures r.calls != [] && inserted.Success? ==>
      var saved := Stamped(FromPayload(decoded.value), inserted.value);
      r.replies == Answer(Json(201, map["item" := ItemValue(saved)], map["Location" := ItemLocation(saved.id)]), writeOk)
  {
    if decoded.Failure? then Run([], [Error(BadRequest(decoded.error))])
    else
      var item := FromPayload(decoded.value);
      var v := ValidateItem(map[], item);
      ValidateItemValid(item);
      if !Valid(v) then Run([], [Error(FailedValidation(v))])
      else if inserted.Failure? then Run([InsertCall(item)], [Error(ServerError)])
      else
        var saved := Stamped(item, inserted.value);
        Run([InsertCall(item)],
            Answer(Json(201, map["item" := ItemValue(saved)], map["Location" := ItemLocation(saved.id)]), writeOk))
  }

  /** Whatever `Insert` answers, an item only reaches it when every validation rule holds. */
  lemma CreateInsertsWellFormed(decoded: Result<NewItem, string>, inserted: Result<Stamp, ModelError>, writeOk: bool)
    ensures forall c :: c in CreateItem(decoded, inserted, writeOk).calls ==> c.InsertCall? && WellFormed(c.item)
    ensures forall c :: c in CreateItem(decoded, inserted, writeOk).calls ==> c.item.name == decoded.value.name
  {
  }

  // ---------------------------------------------------------------------------
  // handleShowItem

  function ShowItem(idParam: Option<int>, got: Result<Item, ModelError>, writeOk: bool): (r: Run<ItemCall>)
    ensures !IdAccepted(idParam) ==> r == Run([], [Error(NotFound)])
    ensures IdAccepted(idParam) ==> r.calls == [GetCall(idParam.value)]
    ensures IdAccepted(idParam) && got == Failure(ErrNoRecord) ==> r.replies == [Error(NotFound)]
    ensures IdAccepted(idParam) && got.Failure? && got.error != ErrNoRecord ==> r.replies == [Error(ServerError)]
    ensures IdAccepted(idParam) && got.Success? ==>
      r.replies == Answer(Json(200, map["item" := ItemValue(got.value)], map[]), writeOk)
  {
    if !IdAccepted(idParam) then Run([], [Error(NotFound)])
    else if got.Failure? then
      Run([GetCall(idParam.value)], [Error(if got.error == ErrNoRecord then NotFound else ServerError)])
    else Run([GetCall(idParam.value)], Answer(Json(200, map["item" := ItemValue(got.value)], map[]), writeOk))
  }

  // ---------------------------------------------------------------------------
  // handleUpdateItem

  /** The request body of `handleUpdateItem`: an absent (or null) field is `None`. */
  datatype Patch = Patch(
    name: Option<string>, model: Option<string>, supplier: Option<int>, price: Option<real>,
    currency: Option<int>, imageFile: Option<string>, notes: Option<string>,
    tags: Option<seq<string>>, archived: Option<bool>)

  const NoChange: Patch := Patch(None, None, None, None, None, None, None, None, None)

  function Pick<T>(field: Option<T>, current: T): T
  {
    if field.Some? then field.value else current
  }

  /** The PATCH merge: each present field replaces the loaded one. */
  function Merge(item: Item, p: Patch): (r: Item)
    ensures r.id == item.id && r.createdAt == item.createdAt && r.updatedAt == item.updatedAt
  {
    item.(name := Pick(p.name, item.name), model := Pick(p.model, item.model),
          supplier := Pick(p.supplier, item.supplier), price := Pick(p.price, item.price),
          currency := Pick(p.currency, item.currency), imageFile := Pick(p.imageFile, item.imageFile),
          notes := Pick(p.notes, item.notes), tags := Pick(p.tags, item.tags),
          archived := Pick(p.archived, item.archived))
  }

  /** The patch that sets every mutable field to the value it has in `other`. */
  function Full(other: Item): Patch
  {
    Patch(Some(other.name), Some(other.model), Some(other.supplier), Some(other.price), Some(other.currency),
          Some(other.imageFile), Some(other.notes), Some(other.tags), Some(other.archived))
  }

  /** `p` applied first, then `q`: a field of `q` that is present wins. */
  function Then(p: Patch, q: Patch): Patch
  {
    Patch(if q.name.Some? then q.name else p.name, if q.model.Some? then q.model else p.model,
          if q.supplier.Some? then q.supplier else p.supplier, if q.price.Some? then q.price else p.price,
          if q.currency.Some? then q.currency else p.currency,
          if q.imageFile.Some? then q.imageFile else p.imageFile,
          if q.notes.Some? then q.notes else p.notes, if q.tags.Some? then q.tags else p.tags,
          if q.archived.Some? then q.archived else p.archived)
  }

  /** Absent fields keep the loaded values, field by field; in particular the empty body changes nothing. */
  lemma MergeNoChange(item: Item, p: Patch)
    ensures p.name.None? ==> Merge(item, p).name == item.name
    ensures p.model.None? ==> Merge(item, p).model == item.model
    ensures p.supplier.None? ==> Merge(item, p).supplier == item.supplier
    ensures p.price.None? ==> Merge(item, p).price == item.price
    ensures p.currency.None? ==> Merge(item, p).currency == item.currency
    ensures p.imageFile.None? ==> Merge(item, p).imageFile == item.imageFile
    ensures p.notes.None? ==> Merge(item, p).notes == item.notes
    ensures p.tags.None? ==> Merge(item, p).tags == item.tags
    ensures p.archived.None? ==> Merge(item, p).archived == item.archived
    ensures Merge(item, NoChange) == item
  {
  }

  /**
   * Present fields overwrite, field by field; a body naming every field
   * yields that record, with the loaded identity and timestamps.
   */
  lemma MergeFull(item: Item, p: Patch, other: Item)
    ensures p.name.Some? ==> Merge(item, p).name == p.name.value
    ensures p.model.Some? ==> Merge(item, p).model == p.model.value
    ensures p.supplier.Some? ==> Merge(item, p).supplier == p.supplier.value
    ensures p.price.Some? ==> Merge(item, p).price == p.price.value
    ensures p.currency.Some? ==> Merge(item, p).currency == p.currency.value
    ensures p.imageFile.Some? ==> Merge(item, p).imageFile == p.imageFile.value
    ensures p.notes.Some? ==> Merge(item, p).notes == p.notes.value
    ensures p.tags.Some? ==> Merge(item, p).tags == p.tags.value
    ensures p.archived.Some? ==> Merge(item, p).archived == p.archived.value
    ensures Merge(item, Full(other)) == other.(id := item.id, createdAt := item.createdAt, updatedAt := item.updatedAt)
  {
  }

  /** Sending the same body twice is the same as sending it once. */
  lemma MergeIdempotent(item: Item, p: Patch)
    ensures Merge(Merge(item, p), p) == Merge(item, p)
  {
  }

  /** Two merges in a row are one merge of the combined body. */
  lemma MergeThen(item: Item, p: Patch, q: Patch)
    ensures Merge(Merge(item, p), q) == Merge(item, Then(p, q))
  {
  }

  /** Tags change exactly when the decoded slice is non-nil; an explicit `[]` clears them. */
  lemma MergeTags(item: Item, p: Patch)
    ensures p.tags.None? ==> Merge(item, p).tags == item.tags
    ensures p.tags == Some([]) ==> Merge(item, p).tags == []
    ensures p.tags.Some? ==> Merge(item, p).tags == p.tags.value
  {
  }

  function UpdateItem(idParam: Option<int>, got: Result<Item, ModelError>, decoded: Result<Patch, string>,
                      updated: Result<int, ModelError>, writeOk: bool): (r: Run<ItemCall>)
    ensures !IdAccepted(idParam) ==> r == Run([], [Error(NotFound)])
    ensures IdAccepted(idParam) ==> r.calls != [] && r.calls[0] == GetCall(idParam.value)
    ensures |r.calls| <= 2
    ensures IdAccepted(idParam) && got == Failure(ErrNoRecord) ==> r.replies == [Error(NotFound)]
    ensures IdAccepted(idParam) && got.Failure? && got.error != ErrNoRecord ==> r.replies == [Error(ServerError)]
    ensures IdAccepted(idParam) && got.Success? && decoded.Failure? ==> r.replies == [Error(BadRequest(decoded.error))]
    ensures IdAccepted(idParam) && got.Success? && decoded.Success? && !WellFormed(Merge(got.value, decoded.value)) ==>
      r == Run([GetCall(idParam.value)], [Error(FailedValidation(ValidateItem(map[], Merge(got.value, decoded.value))))])
    ensures |r.calls| == 2 <==>
      IdAccepted(idParam) && got.Success? && decoded.Success? && WellFormed(Merge(got.value, decoded.value))
    ensures |r.calls| == 2 ==> r.calls[1] == UpdateCall(Merge(got.value, decoded.value))
    ensures |r.calls| == 2 && updated == Failure(ErrEditConflict) ==> r.replies == [Error(EditConflict)]
    ensures |r.calls| == 2 && updated.Failure? && updated.error != ErrEditConflict ==> r.replies == [Error(ServerError)]
    ensures |r.calls| == 2 && updated.Success? ==>
      r.replies == Answer(Json(200, map["item" := ItemValue(Merge(got.value, decoded.value).(updatedAt := updated.value))], map[]), writeOk)
  {
    if !IdAccepted(idParam) then Run([], [Error(NotFound)])
    else
      var id := idParam.value;
      if got.Failure? then Run([GetCall(id)], [Error(if got.error == ErrNoRecord then NotFound else ServerError)])
      else if decoded.Failure? then Run([GetCall(id)], [Error(BadRequest(decoded.error))])
      else
        var item := Merge(got.value, decoded.value);
        var v := ValidateItem(map[], item);
        ValidateItemValid(item);
        if !Valid(v) then Run([GetCall(id)], [Error(FailedValidation(v))])
        else if updated.Failure? then
          Run([GetCall(id), UpdateCall(item)], [Error(if updated.error == ErrEditConflict then EditConflict else ServerError)])
        else Run([GetCall(id), UpdateCall(item)], Answer(Json(200, map["item" := ItemValue(item.(updatedAt := updated.value))], map[]), writeOk))
  }

  /**
   * The compare-and-swap update carries the id asked for and the
   * `updated_at` that `Get` read, whatever the body says. `Get` returns the
   * row stored under the id it was given (`ItemModel.Get`), which is what the
   * second precondition says of the outcome `got`.
   */
  lemma UpdateUsesLoadedVersion(idParam: Option<int>, got: Result<Item, ModelError>, decoded: Result<Patch, string>,
                                updated: Result<int, ModelError>, writeOk: bool)
    requires |UpdateItem(idParam, got, decoded, updated, writeOk).calls| == 2
    requires got.Success? && idParam.Some? ==> got.value.id == idParam.value
    ensures var calls := UpdateItem(idParam, got, decoded, updated, writeOk).calls;
      && calls[0] == GetCall(idParam.value) && calls[1].UpdateCall?
      && calls[1].item.id == idParam.value
      && calls[1].item.updatedAt == got.value.updatedAt
      && calls[1].item.createdAt == got.value.createdAt
  {
  }

  // ---------------------------------------------------------------------------
  // handleDeleteItem

  function DeleteItem(idParam: Option<int>, deleted: Option<ModelError>, writeOk: bool): (r: Run<ItemCall>)
    ensures !IdAccepted(idParam) ==> r == Run([], [Error(NotFound)])
    ensures IdAccepted(idParam) ==> r.calls == [DeleteCall(idParam.value)]
    ensures IdAccepted(idParam) && deleted == Some(ErrNoRecord) ==> r.replies == [Error(NotFound)]
    ensures IdAccepted(idParam) && deleted.Some? && deleted.value != ErrNoRecord ==> r.replies == [Error(ServerError)]
    ensures IdAccepted(idParam) && deleted.None? ==>
      r.replies == Answer(Json(200, map["message" := Text("successfully deleted")], map[]), writeOk)
  {
    if !IdAccepted(idParam) then Run([], [Error(NotFound)])
    else if deleted.Some? then
      Run([DeleteCall(idParam.value)], [Error(if deleted.value == ErrNoRecord then NotFound else ServerError)])
    else Run([DeleteCall(idParam.value)], Answer(Json(200, map["message" := Text("successfully deleted")], map[]), writeOk))
  }

  /** A rejected id reaches no repository method, in any of the three id handlers. */
  lemma RejectedIdTouchesNothing(idParam: Option<int>, got: Result<Item, ModelError>, decoded: Result<Patch, string>,
                                 updated: Result<int, ModelError>, deleted: Option<ModelError>, writeOk: bool)
    requires !IdAccepted(idParam)
    ensures ShowItem(idParam, got, writeOk) == UpdateItem(idParam, got, decoded, updated, writeOk)
    ensures DeleteItem(idParam, deleted, writeOk) == Run([], [Error(NotFound)])
    ensures ShowItem(idParam, got, writeOk).calls == []
  {
  }

  // ---------------------------------------------------------------------------
  // handleListItems

  /**
   * The query-string readers `readString`, `readInt` and `readCSV` applied to
   * one request's query string; they are not part of this model. `number`
   * may record a message in the validator it is given.
   */
  datatype Readers = Readers(
    text: (string, string) -> string,
    number: (Errors, string, int) -> (int, Errors),
    list: (string, seq<string>) -> seq<string>)

  const Safelist: seq<string> := ["id", "name", "model", "supplier", "price", "-id", "-name", "-model", "-price"]

  /** The filters the list handler reads, before validation. */
  function ListFilters(read: Readers): (Errors, Filters)
  {
    var (_, v1) := read.number(map[], "supplier", 0);
    var (page, v2) := read.number(v1, "page", 1);
    var (pageSize, v3) := read.number(v2, "page_size", 20);
    (v3, Filters(page, pageSize, read.text("sort", "id"), Safelist))
  }

  /**
   * `handleListItems`. `validateFilters` stands for `data.ValidateFilters`;
   * `listed` is what `GetAll` returns: the page of rows and the total count.
   */
  function ListItems(read: Readers, validateFilters: (Errors, Filters) -> Errors,
                     listed: Result<(seq<Item>, nat), ModelError>, writeOk: bool): (r: Run<ItemCall>)
    ensures var (v, filters) := ListFilters(read);
      && (r.calls == [] <==> !Valid(validateFilters(v, filters)))
      && (r.calls == [] ==> r.replies == [Error(FailedValidation(validateFilters(v, filters)))])
      && (r.calls != [] ==> r.calls == [GetAllCall(read.text("name", ""), read.number(map[], "supplier", 0).0,
                                                    read.list("tags", []), filters)])
    ensures r.calls != [] && listed.Failure? ==> r.replies == [Error(ServerError)]
    ensures r.calls != [] && listed.Success? ==>
      var filters := ListFilters(read).1;
      r.replies == Answer(Json(200, map["items" := ItemList(listed.value.0),
                                        "metadata" := Metadata(listed.value.1, filters.page, filters.pageSize)], map[]), writeOk)
  {
    var name := read.text("name", "");
    var (supplier, _) := read.number(map[], "supplier", 0);
    var tags := read.list("tags", []);
    var (v, filters) := ListFilters(read);
    var errors := validateFilters(v, filters);
    if !Valid(errors) then Run([], [Error(FailedValidation(errors))])
    else
      var call := GetAllCall(name, supplier, tags, filters);
      if listed.Failure? then Run([call], [Error(ServerError)])
      else
        var env := map["items" := ItemList(listed.value.0),
                       "metadata" := Metadata(listed.value.1, filters.page, filters.pageSize)];
        Run([call], Answer(Json(200, env, map[]), writeOk))
  }

  /** Readers for a query string that sets nothing: every reader answers its default. */
  const Defaults: Readers := Readers((key, fallback) => fallback, (v, key, fallback) => (fallback, v), (key, fallback) => fallback)

  /** With an empty query string the repository is asked for everything, first page of 20, by id. */
  lemma ListDefaults(validateFilters: (Errors, Filters) -> Errors, listed: Result<(seq<Item>, nat), ModelError>, writeOk: bool)
    requires Valid(validateFilters(map[], Filters(1, 20, "id", Safelist)))
    ensures ListItems(Defaults, validateFilters, listed, writeOk).calls == [GetAllCall("", 0, [], Filters(1, 20, "id", Safelist))]
  {
  }

  // ---------------------------------------------------------------------------
  // The sort keys

  function ColumnName(c: Column): string
  {
    match c
    case ById => "id"
    case ByName => "name"
    case ByModel => "model"
    case BySupplier => "supplier"
    case ByPrice => "price"
  }

  /** The `sort` value naming an order: the column, with a leading `-` for descending. */
  function SortKey(order: SortOrder): string
  {
    (if order.descending then "-" else "") + ColumnName(order.column)
  }

  /** The nine orders the safelist names, in its order. */
  const SafeOrders: seq<SortOrder> := [
    SortOrder(ById, false), SortOrder(ByName, false), SortOrder(ByModel, false), SortOrder(BySupplier, false),
    SortOrder(ByPrice, false), SortOrder(ById, true), SortOrder(ByName, true), SortOrder(ByModel, true),
    SortOrder(ByPrice, true)]

  /** Where an order sits in `SafeOrders`; descending supplier gets the place no order has. */
  function SafeIndex(order: SortOrder): int
  {
    var column := match order.column
      case ById => 0
      case ByName => 1
      case ByModel => 2
      case BySupplier => 3
      case ByPrice => 4;
    if !order.descending then column else if column < 3 then column + 5 else if column == 4 then 8 else 9
  }

  /** Each safelist entry is the key of the order at the same place. */
  lemma SafelistIsKeys()
    ensures |Safelist| == |SafeOrders| == 9
    ensures forall i :: 0 <= i < 9 ==> Safelist[i] == SortKey(SafeOrders[i]) && SafeIndex(SafeOrders[i]) == i
  {
  }

  /** An order can be requested exactly when it is not descending supplier. */
  lemma SafelistOrders(order: SortOrder)
    ensures SortKey(order) in Safelist <==> order != SortOrder(BySupplier, true)
  {
    SafelistIsKeys();
    if order == SortOrder(BySupplier, true) {
      forall i | 0 <= i < 9 ensures Safelist[i] != SortKey(order) {
        SortKeyInjective(SafeOrders[i], order);
      }
    } else {
      var i := SafeIndex(order);
      assert SafeOrders[i] == order;
      assert Safelist[i] == SortKey(order);
    }
  }

  /** The safelist holds nine distinct keys and omits "-supplier". */
  lemma SafelistShape()
    ensures |Safelist| == 9 && Unique(Safelist)
    ensures "-supplier" !in Safelist
  {
    SafelistIsKeys();
    forall i, j | 0 <= i < j < 9 ensures Safelist[i] != Safelist[j] {
      SortKeyInjective(SafeOrders[i], SafeOrders[j]);
      assert SafeIndex(SafeOrders[i]) != SafeIndex(SafeOrders[j]);
    }
    SafelistOrders(SortOrder(BySupplier, true));
  }

  /** Distinct orders have distinct keys, so a safelisted key names exactly one order. */
  lemma SortKeyInjective(a: SortOrder, b: SortOrder)
    ensures SortKey(a) == SortKey(b) ==> a == b
  {
    if SortKey(a) == SortKey(b) {
      assert SortKey(a)[0] == SortKey(b)[0];
      assert a.descending == b.descending;
      var n := if a.descending then 1 else 0;
      assert SortKey(a)[n..] == ColumnName(a.column) && SortKey(b)[n..] == ColumnName(b.column);
    }
  }
}
