/** The offline iOS variant (mobile/TodoApp.swift): a view-model that keeps
    the whole to-do list in memory and edits it in place. Persisting the list
    to a JSON document after every change is not part of this model. */
module Offline {
  import opened Results
  import opened Text
  import opened IndexSets

  /** A `UUID`; only equality matters. */
  type Uuid = nat

  datatype TodoItem = TodoItem(id: Uuid, text: string, done: bool)

  /** The JSON decoder's failure. */
  datatype DecodeError = DecodeError

  predicate DistinctIds(items: seq<TodoItem>) {
    forall i, j :: 0 <= i < j < |items| ==> items[i].id != items[j].id
  }

  /** `items.firstIndex(where: { $0.id == id })`. */
  function FirstIndex(items: seq<TodoItem>, id: Uuid): (r: Option<nat>)
    ensures r.None? <==> forall i :: 0 <= i < |items| ==> items[i].id != id
    ensures r.Some? ==> r.value < |items| && items[r.value].id == id
    ensures r.Some? ==> forall j :: 0 <= j < r.value ==> items[j].id != id
  {
    if items == [] then None
    else if items[0].id == id then Some(0)
    else match FirstIndex(items[1..], id)
      case None => None
      case Some(i) => Some(i + 1)
  }

  /** The list after `update(item)`: the first element carrying `item.id`
      is replaced by `item`, and nothing else changes. */
  function Replaced(items: seq<TodoItem>, item: TodoItem): (r: seq<TodoItem>)
    ensures |r| == |items|
    ensures FirstIndex(items, item.id).None? ==> r == items
    ensures FirstIndex(items, item.id).Some? ==>
      var i := FirstIndex(items, item.id).value;
      r[i] == item && forall j :: 0 <= j < |items| && j != i ==> r[j] == items[j]
  {
    match FirstIndex(items, item.id)
    case None => items
    case Some(i) => items[i := item]
  }

  /** The list after `toggleDone` on an item with this id: the first element
      carrying it has `done` flipped and keeps its id and text. */
  function Toggled(items: seq<TodoItem>, id: Uuid): (r: seq<TodoItem>)
    ensures |r| == |items|
    ensures forall j :: 0 <= j < |items| ==> r[j].id == items[j].id && r[j].text == items[j].text
    ensures FirstIndex(items, id).None? ==> r == items
    ensures FirstIndex(items, id).Some? ==>
      var i := FirstIndex(items, id).value;
      r[i].done == !items[i].done && forall j :: 0 <= j < |items| && j != i ==> r[j] == items[j]
  {
    match FirstIndex(items, id)
    case None => items
    case Some(i) => items[i := items[i].(done := !items[i].done)]
  }

  /** `FirstIndex` looks only at ids. */
  lemma {:induction false} FirstIndexSameIds(a: seq<TodoItem>, b: seq<TodoItem>, id: Uuid)
    requires |a| == |b| && forall j :: 0 <= j < |a| ==> a[j].id == b[j].id
    ensures FirstIndex(a, id) == FirstIndex(b, id)
  {
    if a != [] && a[0].id != id {
      FirstIndexSameIds(a[1..], b[1..], id);
    }
  }

  /** Toggling the same item twice restores the list. */
  lemma ToggleTwiceRestores(items: seq<TodoItem>, id: Uuid)
    ensures Toggled(Toggled(items, id), id) == items
  {
    FirstIndexSameIds(items, Toggled(items, id), id);
  }

  /** Appending an item whose id is fresh keeps the ids pairwise distinct. */
  lemma AppendFreshKeepsDistinct(items: seq<TodoItem>, item: TodoItem)
    requires DistinctIds(items)
    requires forall j :: 0 <= j < |items| ==> items[j].id != item.id
    ensures DistinctIds(items + [item])
  {
  }

  /** Replacing or toggling never changes which ids the list holds, so
      both keep the ids distinct. */
  lemma EditsKeepDistinct(items: seq<TodoItem>, item: TodoItem)
    requires DistinctIds(items)
    ensures DistinctIds(Replaced(items, item))
    ensures DistinctIds(Toggled(items, item.id))
  {
    var r := Replaced(items, item);
    forall i, j | 0 <= i < j < |r| ensures r[i].id != r[j].id {
      if FirstIndex(items, item.id).Some? {
        var f := FirstIndex(items, item.id).value;
        assert r[f].id == items[f].id;
      }
    }
  }

  /** Removing offsets keeps the survivors, so it keeps the ids distinct. */
  lemma RemoveOffsetsKeepsDistinct(items: seq<TodoItem>, offsets: set<nat>)
    requires DistinctIds(items)
    ensures DistinctIds(RemoveOffsets(items, offsets))
  {
    RemoveOffsetsKeepsSurvivors(items, offsets);
    var idx := Survivors(offsets, |items|);
    var r := RemoveOffsets(items, offsets);
    forall i, j | 0 <= i < j < |r| ensures r[i].id != r[j].id {
      assert idx[i] < idx[j];
    }
  }

  class TodoViewModel {
    var items: seq<TodoItem>

    /** `init()` loads the saved document: `saved` is what decoding it gave,
        `None` when the file is missing or does not decode. */
    constructor (saved: Option<seq<TodoItem>>)
      ensures items == saved.GetOr([])
    {
      match saved {
        case Some(decoded) => items := decoded;
        case None => items := [];
      }
    }

    /** `add(text:)`. `freshId` is the `UUID()` the new item gets. Blank text
        is ignored; otherwise the text is appended untrimmed, not done. */
    method Add(text: string, freshId: Uuid)
      modifies this
      ensures IsBlank(Swift, text) ==> items == old(items)
      ensures !IsBlank(Swift, text) ==> items == old(items) + [TodoItem(freshId, text, false)]
    {
      TrimEmptyIffBlank(Swift, text);
      if Trim(Swift, text) == [] {
        return;
      }
      items := items + [TodoItem(freshId, text, false)];
    }

    /** `delete(at:)`; the list view only passes offsets of rows it shows. */
    method Delete(offsets: set<nat>)
      requires forall i :: i in offsets ==> i < |items|
      modifies this
      ensures items == RemoveOffsets(old(items), offsets)
      ensures |items| == |old(items)| - |offsets|
    {
      RemoveOffsetsLength(items, offsets);
      items := RemoveOffsets(items, offsets);
    }

    /** `update(_:)`. */
    method Update(item: TodoItem)
      modifies this
      ensures items == Replaced(old(items), item)
    {
      var i := FirstIndex(items, item.id);
      if i.Some? {
        items := items[i.value := item];
      }
    }

    /** `toggleDone(_:)`: only the id of the argument is used. */
    method ToggleDone(item: TodoItem)
      modifies this
      ensures items == Toggled(old(items), item.id)
    {
      var i := FirstIndex(items, item.id);
      if i.Some? {
        items := items[i.value := items[i.value].(done := !items[i.value].done)];
      }
    }

    /** `importFromData(_:)`: `decoded` is the decoder's answer for the
        data. The list is replaced wholesale, ids included; on a decoding
        error the error is passed on and the list is untouched. */
    method ImportFromData(decoded: Result<seq<TodoItem>, DecodeError>) returns (outcome: Outcome<DecodeError>)
      modifies this
      ensures decoded.Failure? ==> outcome == Fail(decoded.error) && items == old(items)
      ensures decoded.Success? ==> outcome == Pass && items == decoded.value
    {
      match decoded {
        case Failure(e) =>
          return Fail(e);
        case Success(list) =>
          items := list;
          return Pass;
      }
    }
  }
}
