/** The online iOS variant (mobile/AppFull/AppFull/TodoApp.swift): an
    `APIClient` that checks every HTTP answer, and a view-model that sends
    each change to the server and then reloads the whole list from it.

    The server is the table of module Api. The network is a fixed set of
    positions in the sequence of requests: a request whose position is in
    `unreachable` never reaches the server and fails with a transport
    error. Each operation runs to completion before the next starts. */
module Online {
  import opened Results
  import opened Text
  import opened IndexSets
  import Api

  datatype TodoItem = TodoItem(id: int, text: string, completed: bool)

  /** A server task decoded as a `TodoItem`. */
  function ItemOf(t: Api.Task): TodoItem {
    TodoItem(t.id, t.text, t.completed)
  }

  function Items(ts: seq<Api.Task>): seq<TodoItem> {
    seq(|ts|, i requires 0 <= i < |ts| => ItemOf(ts[i]))
  }

  predicate DistinctIds(items: seq<TodoItem>) {
    forall i, j :: 0 <= i < j < |items| ==> items[i].id != items[j].id
  }

  /** `items` is a full listing of the table, in some order. */
  predicate Lists(items: seq<TodoItem>, rows: Api.Table) {
    && |items| == |rows|
    && (forall i :: 0 <= i < |items| ==> items[i].id in rows && rows[items[i].id] == Api.Row(items[i].text, items[i].completed))
    && DistinctIds(items)
  }

  lemma ListingDecodes(ts: seq<Api.Task>, rows: Api.Table)
    requires Api.IsListing(ts, rows)
    ensures Lists(Items(ts), rows)
  {
    forall i | 0 <= i < |ts| ensures rows[ts[i].id] == Api.Row(ts[i].text, ts[i].completed) {
      assert Api.Serialize(ts[i].id, rows[ts[i].id]) == ts[i];
    }
  }

  // ---------------------------------------------------------------------
  // APIClient's checks

  datatype ApiError = BadStatus(code: int) | MissingTask | Transport | Undecodable

  /** A response body as the decoder sees it: a `TaskResponse` object (both
      fields optional), an array of tasks, or anything else. */
  datatype Body = TaskResponse(message: Option<Api.Message>, task: Option<TodoItem>)
                | ItemArray(items: seq<TodoItem>)
                | OtherBody

  /** What `session.data(for:)` gives: a thrown transport error, a response
      that is not HTTP, or an HTTP status with its body. */
  datatype Exchange = Failed | NotHttp | Http(status: int, body: Body)

  /** `data(for:)` followed by the status guard every call makes. */
  function CheckStatus(e: Exchange): (r: Result<Body, ApiError>)
    ensures e.Failed? ==> r == Failure(Transport)
    ensures e.NotHttp? ==> r == Failure(BadStatus(-1))
    ensures e.Http? && e.status != 200 ==> r == Failure(BadStatus(e.status))
    ensures r.Success? <==> e.Http? && e.status == 200
  {
    match e
    case Failed => Failure(Transport)
    case NotHttp => Failure(BadStatus(-1))
    case Http(status, body) => if status == 200 then Success(body) else Failure(BadStatus(status))
  }

  /** `fetchTasks`: a 200 answer must decode as an array of tasks. */
  function TasksFrom(e: Exchange): (r: Result<seq<TodoItem>, ApiError>)
    ensures CheckStatus(e).Failure? ==> r == Failure(CheckStatus(e).error)
    ensures r.Success? <==> e.Http? && e.status == 200 && e.body.ItemArray?
    ensures r.Success? ==> r.value == e.body.items
  {
    match CheckStatus(e)
    case Failure(err) => Failure(err)
    case Success(body) => if body.ItemArray? then Success(body.items) else Failure(Undecodable)
  }

  /** `createTask`, `updateTask` and `toggleTask`: a 200 answer must decode
      as a `TaskResponse` and carry a task. */
  function TaskFrom(e: Exchange): (r: Result<TodoItem, ApiError>)
    ensures CheckStatus(e).Failure? ==> r == Failure(CheckStatus(e).error)
    ensures e.Http? && e.status == 200 && e.body.TaskResponse? && e.body.task.None? ==> r == Failure(MissingTask)
    ensures r.Success? <==> e.Http? && e.status == 200 && e.body.TaskResponse? && e.body.task.Some?
    ensures r.Success? ==> r.value == e.body.task.value
  {
    match CheckStatus(e)
    case Failure(err) => Failure(err)
    case Success(body) =>
      if !body.TaskResponse? then Failure(Undecodable)
      else if body.task.None? then Failure(MissingTask)
      else Success(body.task.value)
  }

  /** `deleteTask`: only the status matters; the body is not read. */
  function DeletedFrom(e: Exchange): (r: Outcome<ApiError>)
    ensures CheckStatus(e).Failure? ==> r == Fail(CheckStatus(e).error)
    ensures r == Pass <==> e.Http? && e.status == 200
  {
    match CheckStatus(e)
    case Failure(err) => Fail(err)
    case Success(_) => Pass
  }

  /** A server answer on the wire. A 422 body holds only `detail`, which
      decodes as a `TaskResponse` with neither field. */
  function ExchangeOf(reply: Api.Reply): Exchange {
    Http(reply.status, TaskResponse(reply.message, if reply.task.Some? then Some(ItemOf(reply.task.value)) else None))
  }

  // ---------------------------------------------------------------------
  // The client

  /** The requests as they go out. */
  datatype Request = Get | Post(text: string, completed: bool) | Put(id: int, text: string, completed: bool)
                   | PatchToggle(id: int) | Delete(id: int)

  function Deletes(ids: seq<int>): seq<Request> {
    seq(|ids|, k requires 0 <= k < |ids| => Delete(ids[k]))
  }

  /** One create request per item: its text and completed, not its id. */
  function Posts(items: seq<TodoItem>): seq<Request> {
    seq(|items|, k requires 0 <= k < |items| => Post(items[k].text, items[k].completed))
  }

  class ApiClient {
    const server: Api.TaskTable
    const unreachable: set<nat>
    var log: seq<Request>

    ghost predicate Valid()
      reads this, server
    {
      server.Valid()
    }

    constructor (server: Api.TaskTable, unreachable: set<nat>)
      requires server.Valid()
      ensures Valid() && this.server == server && this.unreachable == unreachable && log == []
    {
      this.server := server;
      this.unreachable := unreachable;
      log := [];
    }

    /** `fetchTasks`. */
    method FetchTasks() returns (r: Result<seq<TodoItem>, ApiError>)
      requires Valid()
      modifies this
      ensures Valid() && log == old(log) + [Get]
      ensures old(|log|) in unreachable ==> r == Failure(Transport)
      ensures old(|log|) !in unreachable ==> r.Success? && Lists(r.value, server.rows)
    {
      var e: Exchange;
      if |log| in unreachable {
        e := Failed;
      } else {
        var ts := server.GetTasks();
        ListingDecodes(ts, server.rows);
        e := Http(200, ItemArray(Items(ts)));
      }
      log := log + [Get];
      r := TasksFrom(e);
    }

    /** `createTask`. */
    method CreateTask(text: string, completed: bool) returns (r: Result<TodoItem, ApiError>)
      requires Valid()
      modifies this, server
      ensures Valid() && log == old(log) + [Post(text, completed)]
      ensures r.Success? <==> old(|log|) !in unreachable && Api.ValidText(text)
      ensures r.Failure? ==>
        && r.error == (if old(|log|) in unreachable then Transport else BadStatus(422))
        && server.rows == old(server.rows)
      ensures r.Success? ==>
        && r.value.text == text && r.value.completed == completed
        && r.value.id !in old(server.rows)
        && server.rows == old(server.rows)[r.value.id := Api.Row(text, completed)]
    {
      if |log| in unreachable {
        log := log + [Post(text, completed)];
        return Failure(Transport);
      }
      var reply := server.CreateTask(Api.Body(Some(text), Some(completed)));
      log := log + [Post(text, completed)];
      r := TaskFrom(ExchangeOf(reply));
    }

    /** `updateTask`. */
    method UpdateTask(id: int, text: string, completed: bool) returns (r: Result<TodoItem, ApiError>)
      requires Valid()
      modifies this, server
      ensures Valid() && log == old(log) + [Put(id, text, completed)]
      ensures old(|log|) in unreachable ==> r == Failure(Transport) && server.rows == old(server.rows)
      ensures old(|log|) !in unreachable && !Api.ValidText(text) ==>
        r == Failure(BadStatus(422)) && server.rows == old(server.rows)
      ensures old(|log|) !in unreachable && Api.ValidText(text) && id !in old(server.rows) ==>
        r == Failure(MissingTask) && server.rows == old(server.rows)
      ensures old(|log|) !in unreachable && Api.ValidText(text) && id in old(server.rows) ==>
        && r == Success(TodoItem(id, text, completed))
        && server.rows == old(server.rows)[id := Api.Row(text, completed)]
    {
      if |log| in unreachable {
        log := log + [Put(id, text, completed)];
        return Failure(Transport);
      }
      var reply := server.UpdateTask(id, Api.Body(Some(text), Some(completed)));
      log := log + [Put(id, text, completed)];
      r := TaskFrom(ExchangeOf(reply));
    }

    /** `toggleTask`. */
    method ToggleTask(id: int) returns (r: Result<TodoItem, ApiError>)
      requires Valid()
      modifies this, server
      ensures Valid() && log == old(log) + [PatchToggle(id)]
      ensures old(|log|) in unreachable ==> r == Failure(Transport) && server.rows == old(server.rows)
      ensures old(|log|) !in unreachable && id !in old(server.rows) ==>
        r == Failure(MissingTask) && server.rows == old(server.rows)
      ensures old(|log|) !in unreachable && id in old(server.rows) ==>
        var row := old(server.rows)[id];
        && r == Success(TodoItem(id, row.text, !row.completed))
        && server.rows == old(server.rows)[id := Api.Row(row.text, !row.completed)]
    {
      if |log| in unreachable {
        log := log + [PatchToggle(id)];
        return Failure(Transport);
      }
      var reply := server.SwitchCompleted(id);
      log := log + [PatchToggle(id)];
      r := TaskFrom(ExchangeOf(reply));
    }

    /** `deleteTask`: the server answers 200 whether or not the id exists. */
    method DeleteTask(id: int) returns (r: Outcome<ApiError>)
      requires Valid()
      modifies this, server
      ensures Valid() && log == old(log) + [Delete(id)]
      ensures old(|log|) in unreachable ==> r == Fail(Transport) && server.rows == old(server.rows)
      ensures old(|log|) !in unreachable ==> r == Pass && server.rows == old(server.rows) - {id}
    {
      if |log| in unreachable {
        log := log + [Delete(id)];
        return Fail(Transport);
      }
      var reply := server.DeleteTask(id);
      log := log + [Delete(id)];
      r := DeletedFrom(ExchangeOf(reply));
    }
  }

  // ---------------------------------------------------------------------
  // The view-model

  /** The fixed texts `reportError` shows, one per operation. */
  datatype ErrorMessage = LoadFailed | AddFailed | DeleteFailed | UpdateFailed | ToggleFailed

  datatype DecodeError = DecodeError

  /** What `importFromData` throws. */
  datatype ImportError = NotDecodable | Rejected(error: ApiError)

  /** What `load()` leaves when its request has position `at`: on success
      the server's listing, with the error message kept; on failure the old
      items and the load error. */
  predicate Reloaded(at: nat, unreachable: set<nat>, rows: Api.Table,
                     itemsBefore: seq<TodoItem>, errorBefore: Option<ErrorMessage>,
                     items: seq<TodoItem>, error: Option<ErrorMessage>)
  {
    if at in unreachable then items == itemsBefore && error == Some(LoadFailed)
    else Lists(items, rows) && error == errorBefore
  }

  /** `rows` is `before` without the ids in `gone`; the rows left are as
      they were. */
  ghost predicate RemovedFrom(rows: Api.Table, before: Api.Table, gone: seq<int>) {
    && (forall id :: id in rows <==> id in before && id !in gone)
    && (forall id :: id in rows ==> rows[id] == before[id])
  }

  lemma RemovedOneMore(rows: Api.Table, before: Api.Table, gone: seq<int>, id: int)
    requires RemovedFrom(rows, before, gone)
    ensures RemovedFrom(rows - {id}, before, gone + [id])
  {
  }

  /** The number of requests, of `n` sent from position `start` on, that
      get through before the first one that does not. */
  function Delivered(start: nat, n: nat, unreachable: set<nat>): (k: nat)
    ensures k <= n
    ensures forall p: nat :: start <= p < start + k ==> p !in unreachable
    ensures k < n ==> start + k in unreachable
    decreases n
  {
    if n == 0 || start in unreachable then 0
    else 1 + Delivered(start + 1, n - 1, unreachable)
  }

  /** The number of items, imported from position `start` on, created
      before the first one that fails: unreachable, or text the server
      refuses. */
  function Created(start: nat, items: seq<TodoItem>, unreachable: set<nat>): (k: nat)
    ensures k <= |items|
    ensures forall p: nat :: start <= p < start + k ==> p !in unreachable
    ensures forall j :: 0 <= j < k ==> Api.ValidText(items[j].text)
    ensures k < |items| ==> start + k in unreachable || !Api.ValidText(items[k].text)
    decreases |items|
  {
    if items == [] || start in unreachable || !Api.ValidText(items[0].text) then 0
    else 1 + Created(start + 1, items[1..], unreachable)
  }

  /** `offsets.map { items[$0].id }`: the ids at the offsets, in ascending
      offset order. What it takes is stated by `IdsAtCovers` and
      `IdsAtDistinct`. */
  function IdsAt(items: seq<TodoItem>, offsets: set<nat>): seq<int> {
    var at := Ascending(offsets, |items|);
    seq(|at|, k requires 0 <= k < |at| => items[at[k]].id)
  }

  /** With offsets in range, one id is taken per offset, and the ids taken
      are exactly those of the items at the offsets. */
  lemma IdsAtCovers(items: seq<TodoItem>, offsets: set<nat>)
    requires forall i :: i in offsets ==> i < |items|
    ensures |IdsAt(items, offsets)| == |offsets|
    ensures forall id :: id in IdsAt(items, offsets) <==> exists i :: i in offsets && items[i].id == id
  {
    AscendingLength(offsets, |items|);
    var at, ids := Ascending(offsets, |items|), IdsAt(items, offsets);
    forall id ensures id in ids <==> exists i :: i in offsets && items[i].id == id {
      if id in ids {
        var k :| 0 <= k < |ids| && ids[k] == id;
        assert at[k] in offsets && items[at[k]].id == id;
      }
      if exists i :: i in offsets && items[i].id == id {
        var i :| i in offsets && items[i].id == id;
        assert i in at;
        var k :| 0 <= k < |at| && at[k] == i;
        assert ids[k] == id;
      }
    }
  }

  /** Items with distinct ids give distinct ids, so no id is deleted twice. */
  lemma IdsAtDistinct(items: seq<TodoItem>, offsets: set<nat>)
    requires DistinctIds(items)
    ensures forall a, b :: 0 <= a < b < |IdsAt(items, offsets)| ==> IdsAt(items, offsets)[a] != IdsAt(items, offsets)[b]
  {
    var at, ids := Ascending(offsets, |items|), IdsAt(items, offsets);
    forall a, b | 0 <= a < b < |ids| ensures ids[a] != ids[b] {
      assert at[a] < at[b];
    }
  }

  /** `rows` is `before` with one new row for each of the first `|ids|`
      items of `list`, stored under `ids`: each id is new, the ids differ,
      the old rows are kept, and there is no other row. */
  ghost predicate CreatedRows(rows: Api.Table, before: Api.Table, list: seq<TodoItem>, ids: seq<int>) {
    && |ids| <= |list|
    && |rows| == |before| + |ids|
    && FreshIds(before, ids)
    && (forall j :: 0 <= j < |ids| ==> ids[j] in rows && rows[ids[j]] == Api.Row(list[j].text, list[j].completed))
    && (forall id :: id in before ==> id in rows && rows[id] == before[id])
    && (forall id :: id in rows ==> id in before || id in ids)
  }

  /** No id of `ids` is used in `before`, and no id is used twice. */
  ghost predicate FreshIds(before: Api.Table, ids: seq<int>) {
    && (forall j :: 0 <= j < |ids| ==> ids[j] !in before)
    && (forall i, j :: 0 <= i < j < |ids| ==> ids[i] != ids[j])
  }

  /** The table `before` after the first `|ids|` items of `list` were
      created, one after the other, under `ids`. */
  ghost function Extended(before: Api.Table, list: seq<TodoItem>, ids: seq<int>): Api.Table
    requires |ids| <= |list|
    decreases |ids|
  {
    if ids == [] then before
    else
      var j := |ids| - 1;
      Extended(before, list, ids[..j])[ids[j] := Api.Row(list[j].text, list[j].completed)]
  }

  lemma CreatedOneMore(rows: Api.Table, before: Api.Table, list: seq<TodoItem>, ids: seq<int>, id: int)
    requires CreatedRows(rows, before, list, ids) && |ids| < |list|
    requires id !in rows
    ensures CreatedRows(rows[id := Api.Row(list[|ids|].text, list[|ids|].completed)], before, list, ids + [id])
  {
  }

  /** One more create extends the table by that item's row. */
  lemma ExtendedStep(before: Api.Table, list: seq<TodoItem>, ids: seq<int>, id: int)
    requires |ids| < |list|
    ensures Extended(before, list, ids + [id]) == Extended(before, list, ids)[id := Api.Row(list[|ids|].text, list[|ids|].completed)]
  {
    assert (ids + [id])[..|ids|] == ids;
  }

  /** An id not in the table after creating under fresh ids is itself
      fresh. */
  lemma ExtendedFresh(before: Api.Table, list: seq<TodoItem>, ids: seq<int>, id: int)
    requires |ids| <= |list| && FreshIds(before, ids)
    requires id !in Extended(before, list, ids)
    ensures FreshIds(before, ids + [id])
  {
    ExtendedRows(before, list, ids);
    forall j | 0 <= j < |ids| ensures ids[j] != id {
      assert ids[j] in Extended(before, list, ids);
    }
  }

  /** Creating under fresh ids grows the table by one row per id. */
  lemma ExtendedSize(before: Api.Table, list: seq<TodoItem>, ids: seq<int>)
    requires |ids| <= |list| && FreshIds(before, ids)
    ensures |Extended(before, list, ids)| == |before| + |ids|
  {
    ExtendedRows(before, list, ids);
  }

  /** Creating under fresh ids keeps every old row and adds exactly one
      row per item, holding its text and flag. */
  lemma {:induction false} ExtendedRows(before: Api.Table, list: seq<TodoItem>, ids: seq<int>)
    requires |ids| <= |list| && FreshIds(before, ids)
    ensures CreatedRows(Extended(before, list, ids), before, list, ids)
  {
    if ids != [] {
      var j := |ids| - 1;
      assert ids == ids[..j] + [ids[j]];
      ExtendedRows(before, list, ids[..j]);
      CreatedOneMore(Extended(before, list, ids[..j]), before, list, ids[..j], ids[j]);
    }
  }

  class TodoViewModel {
    var items: seq<TodoItem>
    var lastErrorMessage: Option<ErrorMessage>
    const api: ApiClient

    ghost predicate Valid()
      reads this, api, api.server
    {
      api.Valid()
    }

    /** `init()`; the load it schedules is a separate call to `Load`. */
    constructor (api: ApiClient)
      requires api.Valid()
      ensures Valid() && this.api == api && items == [] && lastErrorMessage == None
    {
      this.api := api;
      items := [];
      lastErrorMessage := None;
    }

    /** `load()`. */
    method Load()
      requires Valid()
      modifies this, api
      ensures Valid() && api.log == old(api.log) + [Get]
      ensures Reloaded(old(|api.log|), api.unreachable, api.server.rows,
                       old(items), old(lastErrorMessage), items, lastErrorMessage)
    {
      var r := api.FetchTasks();
      match r {
        case Success(list) => items := list;
        case Failure(_) => ReportError(LoadFailed);
      }
    }

    /** `add(text:)`: text that trims to nothing (blank text, by
        `TrimEmptyIffBlank`) sends nothing. Otherwise the trimmed text is
        created as not completed; success reloads, failure reports. */
    method Add(text: string)
      requires Valid()
      modifies this, api, api.server
      ensures Valid()
      ensures Trim(Swift, text) == [] ==>
        && api.log == old(api.log) && api.server.rows == old(api.server.rows)
        && items == old(items) && lastErrorMessage == old(lastErrorMessage)
      ensures Trim(Swift, text) != [] ==>
        var n, t := old(|api.log|), Trim(Swift, text);
        if n !in api.unreachable && Api.ValidText(t) then
          && api.log == old(api.log) + [Post(t, false), Get]
          && (exists id :: id !in old(api.server.rows) && api.server.rows == old(api.server.rows)[id := Api.Row(t, false)])
          && Reloaded(n + 1, api.unreachable, api.server.rows, old(items), old(lastErrorMessage), items, lastErrorMessage)
        else
          && api.log == old(api.log) + [Post(t, false)] && api.server.rows == old(api.server.rows)
          && items == old(items) && lastErrorMessage == Some(AddFailed)
    {
      var trimmed := Trim(Swift, text);
      if trimmed == [] {
        return;
      }
      var r := api.CreateTask(trimmed, false);
      match r {
        case Failure(_) =>
          ReportError(AddFailed);
        case Success(task) =>
          ghost var rows := api.server.rows;
          Load();
          assert rows == old(api.server.rows)[task.id := Api.Row(trimmed, false)];
      }
    }

    /** The loop of `delete(at:)`: one delete request per id, in order,
        stopping at the first that fails. */
    method DeleteEach(ids: seq<int>) returns (failed: bool)
      requires Valid()
      modifies api, api.server
      ensures Valid()
      ensures var k := Delivered(old(|api.log|), |ids|, api.unreachable);
        && (failed <==> k < |ids|)
        && api.log == old(api.log) + Deletes(ids[..if failed then k + 1 else k])
        && RemovedFrom(api.server.rows, old(api.server.rows), ids[..k])
    {
      ghost var k := Delivered(|api.log|, |ids|, api.unreachable);
      var j := 0;
      while j < |ids|
        invariant j <= k
        invariant Valid()
        invariant api.log == old(api.log) + Deletes(ids[..j])
        invariant RemovedFrom(api.server.rows, old(api.server.rows), ids[..j])
      {
        ghost var rows := api.server.rows;
        var r := api.DeleteTask(ids[j]);
        assert ids[..j + 1] == ids[..j] + [ids[j]];
        if r.Fail? {
          assert j == k;
          return true;
        }
        RemovedOneMore(rows, old(api.server.rows), ids[..j], ids[j]);
        j := j + 1;
      }
      return false;
    }

    /** `delete(at:)`: the ids are taken from the offsets before any request
        and deleted in ascending offset order. The first failure stops the
        deletes, skips the reload and reports. */
    method Delete(offsets: set<nat>)
      requires Valid()
      requires forall i :: i in offsets ==> i < |items|
      modifies this, api, api.server
      ensures Valid()
      ensures var ids := IdsAt(old(items), offsets);
        RemovedFrom(api.server.rows, old(api.server.rows), ids[..Delivered(old(|api.log|), |ids|, api.unreachable)])
      ensures var ids := IdsAt(old(items), offsets);
        var k := Delivered(old(|api.log|), |ids|, api.unreachable);
        k < |ids| ==>
          && api.log == old(api.log) + Deletes(ids[..k + 1])
          && items == old(items) && lastErrorMessage == Some(DeleteFailed)
      ensures var ids := IdsAt(old(items), offsets);
        Delivered(old(|api.log|), |ids|, api.unreachable) == |ids| ==>
          && api.log == old(api.log) + Deletes(ids) + [Get]
          && Reloaded(old(|api.log|) + |ids|, api.unreachable, api.server.rows, old(items), old(lastErrorMessage), items, lastErrorMessage)
    {
      var ids := IdsAt(items, offsets);
      var failed := DeleteEach(ids);
      if failed {
        ReportError(DeleteFailed);
      } else {
        assert ids[..|ids|] == ids;
        Load();
      }
    }

    /** `update(_:newText:)`: text that trims to nothing sends nothing. Otherwise the
        trimmed text is sent with the item's own `completed`. */
    method Update(item: TodoItem, newText: string)
      requires Valid()
      modifies this, api, api.server
      ensures Valid()
      ensures Trim(Swift, newText) == [] ==>
        && api.log == old(api.log) && api.server.rows == old(api.server.rows)
        && items == old(items) && lastErrorMessage == old(lastErrorMessage)
      ensures Trim(Swift, newText) != [] ==>
        var n, t := old(|api.log|), Trim(Swift, newText);
        if n !in api.unreachable && Api.ValidText(t) && item.id in old(api.server.rows) then
          && api.log == old(api.log) + [Put(item.id, t, item.completed), Get]
          && api.server.rows == old(api.server.rows)[item.id := Api.Row(t, item.completed)]
          && Reloaded(n + 1, api.unreachable, api.server.rows, old(items), old(lastErrorMessage), items, lastErrorMessage)
        else
          && api.log == old(api.log) + [Put(item.id, t, item.completed)] && api.server.rows == old(api.server.rows)
          && items == old(items) && lastErrorMessage == Some(UpdateFailed)
    {
      var trimmed := Trim(Swift, newText);
      if trimmed == [] {
        return;
      }
      var r := api.UpdateTask(item.id, trimmed, item.completed);
      match r {
        case Failure(_) => ReportError(UpdateFailed);
        case Success(_) => Load();
      }
    }

    /** `toggle(_:)`: only the id of the argument is sent. */
    method Toggle(item: TodoItem)
      requires Valid()
      modifies this, api, api.server
      ensures Valid()
      ensures var n := old(|api.log|);
        if n !in api.unreachable && item.id in old(api.server.rows) then
          var row := old(api.server.rows)[item.id];
          && api.log == old(api.log) + [PatchToggle(item.id), Get]
          && api.server.rows == old(api.server.rows)[item.id := Api.Row(row.text, !row.completed)]
          && Reloaded(n + 1, api.unreachable, api.server.rows, old(items), old(lastErrorMessage), items, lastErrorMessage)
        else
          && api.log == old(api.log) + [PatchToggle(item.id)] && api.server.rows == old(api.server.rows)
          && items == old(items) && lastErrorMessage == Some(ToggleFailed)
    {
      var r := api.ToggleTask(item.id);
      match r {
        case Failure(_) => ReportError(ToggleFailed);
        case Success(_) => Load();
      }
    }

    /** The loop of `importFromData(_:)`: one create request per item, in
        order, with its text and completed, stopping at the first that
        fails. `newIds` are the ids the server gave the tasks it created. */
    method CreateEach(list: seq<TodoItem>) returns (r: Outcome<ApiError>, ghost newIds: seq<int>)
      requires Valid()
      modifies api, api.server
      ensures Valid()
      ensures var n := old(|api.log|);
        var k := Created(n, list, api.unreachable);
        && (r.Pass? <==> k == |list|)
        && (r.Fail? ==> r.error == if n + k in api.unreachable then Transport else BadStatus(422))
        && api.log == old(api.log) + Posts(list[..if r.Fail? then k + 1 else k])
        && |newIds| == k && FreshIds(old(api.server.rows), newIds)
        && api.server.rows == Extended(old(api.server.rows), list, newIds)
    {
      ghost var k := Created(|api.log|, list, api.unreachable);
      ghost var before := api.server.rows;
      newIds := [];
      var j := 0;
      while j < |list|
        invariant j <= k
        invariant Valid()
        invariant api.log == old(api.log) + Posts(list[..j])
        invariant |newIds| == j && FreshIds(before, newIds)
        invariant api.server.rows == Extended(before, list, newIds)
      {
        var created := api.CreateTask(list[j].text, list[j].completed);
        assert list[..j + 1] == list[..j] + [list[j]];
        if created.Failure? {
          assert j == k;
          return Fail(created.error), newIds;
        }
        ExtendedStep(before, list, newIds, created.value.id);
        ExtendedFresh(before, list, newIds, created.value.id);
        newIds := newIds + [created.value.id];
        j := j + 1;
      }
      return Pass, newIds;
    }

    /** `importFromData(_:)`: `decoded` is the decoder's answer for the data.
        Nothing is sent when it fails. Otherwise each item is created with
        its text and completed (its id is ignored); the first failure is
        thrown to the caller without a reload or a report, and after the
        last create the list is reloaded. `newIds` are the ids the server
        gave the tasks it created. */
    method ImportFromData(decoded: Result<seq<TodoItem>, DecodeError>) returns (outcome: Outcome<ImportError>, ghost newIds: seq<int>)
      requires Valid()
      modifies this, api, api.server
      ensures Valid()
      ensures decoded.Failure? ==>
        && outcome == Fail(NotDecodable)
        && api.log == old(api.log) && api.server.rows == old(api.server.rows)
        && items == old(items) && lastErrorMessage == old(lastErrorMessage)
      ensures decoded.Success? ==>
        var list, n := decoded.value, old(|api.log|);
        var k := Created(n, list, api.unreachable);
        && |api.server.rows| == |old(api.server.rows)| + k
        && |newIds| == k && FreshIds(old(api.server.rows), newIds)
        && api.server.rows == Extended(old(api.server.rows), list, newIds)
        && if k < |list| then
             && api.log == old(api.log) + Posts(list[..k + 1])
             && outcome == Fail(Rejected(if n + k in api.unreachable then Transport else BadStatus(422)))
             && items == old(items) && lastErrorMessage == old(lastErrorMessage)
           else
             && outcome == Pass
             && api.log == old(api.log) + Posts(list) + [Get]
             && Reloaded(n + |list|, api.unreachable, api.server.rows, old(items), old(lastErrorMessage), items, lastErrorMessage)
    {
      if decoded.Failure? {
        return Fail(NotDecodable), [];
      }
      var list := decoded.value;
      var r;
      r, newIds := CreateEach(list);
      ExtendedSize(old(api.server.rows), list, newIds);
      if r.Fail? {
        return Fail(Rejected(r.error)), newIds;
      }
      assert list[..|list|] == list;
      Load();
      outcome := Pass;
    }

    /** `clearError()`. */
    method ClearError()
      modifies this
      ensures lastErrorMessage == None && items == old(items)
    {
      lastErrorMessage := None;
    }

    /** `reportError(_:_:)`: the message is kept for the alert. */
    method ReportError(message: ErrorMessage)
      modifies this
      ensures lastErrorMessage == Some(message) && items == old(items)
    {
      lastErrorMessage := Some(message);
    }
  }
}
