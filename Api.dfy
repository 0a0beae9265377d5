/** The REST server (Api/main.py): a table of tasks keyed by integer id and
    one handler per endpoint. The database session, commit and refresh are
    collapsed into direct updates of the table. */
module Api {
  import opened Results

  /** A row of the `tasks` table, without its key. */
  datatype Row = Row(text: string, completed: bool)

  type Table = map<int, Row>

  /** `serialize_task`'s dictionary: exactly id, text and completed. */
  datatype Task = Task(id: int, text: string, completed: bool)

  /** A JSON request body for create and update, as the client sent it;
      a field the client left out is `None`. */
  datatype Body = Body(text: Option<string>, completed: Option<bool>)

  /** A body that passed `TaskAddSchema`. */
  datatype Schema = Schema(text: string, completed: bool)

  datatype ValidationError = MissingText | TextTooShort | TextTooLong

  /** The fixed messages the handlers put in their answers. */
  datatype Message = TaskAdded | TaskUpdated | StatusChanged | TaskDeleted | TaskNotFound

  /** An HTTP answer: status code, the `message` field and the `task` field. */
  datatype Reply = Reply(status: int, message: Option<Message>, task: Option<Task>)

  const MinTextLength := 1
  const MaxTextLength := 500

  /** The framework's answer to a body that fails validation. */
  const Unprocessable := Reply(422, None, None)

  /** The length `TaskAddSchema` allows for `text`; the text is not trimmed. */
  predicate ValidText(text: string) {
    MinTextLength <= |text| <= MaxTextLength
  }

  /** `TaskAddSchema`: text of 1 to 500 characters is required (it is not
      trimmed); `completed` defaults to false. */
  function Validate(b: Body): (r: Result<Schema, ValidationError>)
    ensures r.Success? <==> b.text.Some? && ValidText(b.text.value)
    ensures r.Success? ==> r.value.text == b.text.value
    ensures r.Success? ==> (r.value.completed <==> b.completed == Some(true))
  {
    match b.text
    case None => Failure(MissingText)
    case Some(text) =>
      if |text| < MinTextLength then Failure(TextTooShort)
      else if |text| > MaxTextLength then Failure(TextTooLong)
      else Success(Schema(text, b.completed.GetOr(false)))
  }

  /** `serialize_task`: the answer carries the id and the row's fields, so
      the row can be read back from it. */
  function Serialize(id: int, row: Row): (t: Task)
    ensures t.id == id && Row(t.text, t.completed) == row
  {
    Task(id, row.text, row.completed)
  }

  /** `ts` lists every row of `rows` exactly once, serialized. The endpoint
      gives no ORDER BY, so any order is a listing. */
  predicate IsListing(ts: seq<Task>, rows: Table) {
    && |ts| == |rows|
    && (forall i :: 0 <= i < |ts| ==> ts[i].id in rows && Serialize(ts[i].id, rows[ts[i].id]) == ts[i])
    && (forall i, j :: 0 <= i < j < |ts| ==> ts[i].id != ts[j].id)
  }

  /** The table after a handler and the handler's answer. */
  datatype Step = Step(rows: Table, reply: Reply)

  /** `create_task` storing under `id`, which the database picks among the
      ids not in use. */
  function AfterCreate(rows: Table, b: Body, id: int): (r: Step)
    requires id !in rows
    ensures Validate(b).Failure? ==> r == Step(rows, Unprocessable)
    ensures Validate(b).Success? ==>
      && r.rows.Keys == rows.Keys + {id}
      && r.rows[id] == Row(Validate(b).value.text, Validate(b).value.completed)
      && (forall k :: k in rows ==> r.rows[k] == rows[k])
      && r.reply == Reply(200, Some(TaskAdded), Some(Serialize(id, r.rows[id])))
  {
    match Validate(b)
    case Failure(_) => Step(rows, Unprocessable)
    case Success(s) =>
      var row := Row(s.text, s.completed);
      Step(rows[id := row], Reply(200, Some(TaskAdded), Some(Serialize(id, row))))
  }

  /** `update_task`: both fields are overwritten; a missing id is answered
      with a message and no task. */
  function AfterUpdate(rows: Table, id: int, b: Body): (r: Step)
    ensures Validate(b).Failure? ==> r == Step(rows, Unprocessable)
    ensures Validate(b).Success? && id !in rows ==> r == Step(rows, Reply(200, Some(TaskNotFound), None))
    ensures Validate(b).Success? && id in rows ==>
      && r.rows.Keys == rows.Keys
      && r.rows[id] == Row(Validate(b).value.text, Validate(b).value.completed)
      && (forall k :: k in rows && k != id ==> r.rows[k] == rows[k])
      && r.reply == Reply(200, Some(TaskUpdated), Some(Serialize(id, r.rows[id])))
  {
    match Validate(b)
    case Failure(_) => Step(rows, Unprocessable)
    case Success(s) =>
      if id !in rows then Step(rows, Reply(200, Some(TaskNotFound), None))
      else
        var row := Row(s.text, s.completed);
        Step(rows[id := row], Reply(200, Some(TaskUpdated), Some(Serialize(id, row))))
  }

  /** `switch_completed`. */
  function AfterSwitch(rows: Table, id: int): (r: Step)
    ensures id !in rows ==> r == Step(rows, Reply(200, Some(TaskNotFound), None))
    ensures id in rows ==>
      && r.rows.Keys == rows.Keys
      && r.rows[id] == Row(rows[id].text, !rows[id].completed)
      && (forall k :: k in rows && k != id ==> r.rows[k] == rows[k])
      && r.reply == Reply(200, Some(StatusChanged), Some(Serialize(id, r.rows[id])))
  {
    if id !in rows then Step(rows, Reply(200, Some(TaskNotFound), None))
    else
      var row := rows[id].(completed := !rows[id].completed);
      Step(rows[id := row], Reply(200, Some(StatusChanged), Some(Serialize(id, row))))
  }

  /** `delete_task`: the answer never carries a task. */
  function AfterDelete(rows: Table, id: int): (r: Step)
    ensures r.rows.Keys == rows.Keys - {id}
    ensures forall k :: k in r.rows ==> r.rows[k] == rows[k]
    ensures r.reply == Reply(200, Some(if id in rows then TaskDeleted else TaskNotFound), None)
  {
    if id !in rows then Step(rows, Reply(200, Some(TaskNotFound), None))
    else Step(rows - {id}, Reply(200, Some(TaskDeleted), None))
  }

  /** Switching a task twice restores the table; on a missing id both steps
      change nothing. */
  lemma SwitchTwiceRestores(rows: Table, id: int)
    ensures AfterSwitch(AfterSwitch(rows, id).rows, id).rows == rows
  {
    if id in rows {
      var once := AfterSwitch(rows, id).rows;
      assert once[id := Row(once[id].text, !once[id].completed)] == rows;
    }
  }

  /** An update that writes back the values a task already has leaves the
      table as it was. */
  lemma UpdateWithSameValues(rows: Table, id: int)
    requires id in rows && MinTextLength <= |rows[id].text| <= MaxTextLength
    ensures AfterUpdate(rows, id, Body(Some(rows[id].text), Some(rows[id].completed))).rows == rows
  {
    var b := Body(Some(rows[id].text), Some(rows[id].completed));
    assert Validate(b).value == Schema(rows[id].text, rows[id].completed);
  }

  /** A created task is listed afterwards, and a deleted one is not. */
  lemma ListingAfterCreateAndDelete(rows: Table, b: Body, id: int, ts: seq<Task>, us: seq<Task>)
    requires id !in rows && Validate(b).Success?
    requires IsListing(ts, AfterCreate(rows, b, id).rows)
    requires IsListing(us, AfterDelete(rows, id).rows)
    ensures exists i :: 0 <= i < |ts| && ts[i] == AfterCreate(rows, b, id).reply.task.value
    ensures forall i :: 0 <= i < |us| ==> us[i].id != id
  {
    var after := AfterCreate(rows, b, id).rows;
    var i := ListedAt(ts, after, id);
  }

  /** Every key of the table is listed somewhere. */
  lemma {:induction false} ListedAt(ts: seq<Task>, rows: Table, id: int) returns (i: nat)
    requires IsListing(ts, rows) && id in rows
    ensures i < |ts| && ts[i] == Serialize(id, rows[id])
  {
    var last := |ts| - 1;
    if ts[last].id == id {
      i := last;
    } else {
      var rest := rows - {ts[last].id};
      assert |rest| == |rows| - 1 by {
        assert rest.Keys == rows.Keys - {ts[last].id};
      }
      forall k | 0 <= k < last ensures ts[k].id in rest {
        assert ts[k].id != ts[last].id;
      }
      i := ListedAt(ts[..last], rest, id);
    }
  }

  /** The table as the database holds it: the rows by key, and `order`, the
      keys in the order a full scan visits them. */
  class TaskTable {
    var rows: Table
    var order: seq<int>

    ghost predicate Valid()
      reads this
    {
      && (forall k :: k in rows <==> k in order)
      && (forall i, j :: 0 <= i < j < |order| ==> order[i] != order[j])
    }

    constructor ()
      ensures Valid() && rows == map[]
    {
      rows := map[];
      order := [];
    }

    /** `get_tasks`: every row, serialized, in scan order. */
    method GetTasks() returns (ts: seq<Task>)
      requires Valid()
      ensures IsListing(ts, rows)
    {
      ts := [];
      var n := 0;
      while n < |order|
        invariant n <= |order|
        invariant |ts| == n
        invariant forall i :: 0 <= i < n ==> ts[i] == Serialize(order[i], rows[order[i]])
      {
        ts := ts + [Serialize(order[n], rows[order[n]])];
        n := n + 1;
      }
      ScanCoversTable(order, rows);
    }

    /** `create_task`: the new row gets some id not in the table. */
    method CreateTask(b: Body) returns (reply: Reply)
      requires Valid()
      modifies this
      ensures Valid()
      ensures exists id :: id !in old(rows) && Step(rows, reply) == AfterCreate(old(rows), b, id)
    {
      var id := FreshKey(order);
      match Validate(b) {
        case Failure(_) =>
          reply := Unprocessable;
        case Success(s) =>
          var row := Row(s.text, s.completed);
          rows := rows[id := row];
          order := order + [id];
          reply := Reply(200, Some(TaskAdded), Some(Serialize(id, row)));
      }
      assert Step(rows, reply) == AfterCreate(old(rows), b, id);
    }

    /** `update_task`. */
    method UpdateTask(id: int, b: Body) returns (reply: Reply)
      requires Valid()
      modifies this
      ensures Valid()
      ensures Step(rows, reply) == AfterUpdate(old(rows), id, b)
    {
      match Validate(b) {
        case Failure(_) =>
          reply := Unprocessable;
        case Success(s) =>
          if id !in rows {
            return Reply(200, Some(TaskNotFound), None);
          }
          rows := rows[id := rows[id].(text := s.text)];
          rows := rows[id := rows[id].(completed := s.completed)];
          reply := Reply(200, Some(TaskUpdated), Some(Serialize(id, rows[id])));
      }
    }

    /** `switch_completed`. */
    method SwitchCompleted(id: int) returns (reply: Reply)
      requires Valid()
      modifies this
      ensures Valid()
      ensures Step(rows, reply) == AfterSwitch(old(rows), id)
    {
      if id !in rows {
        return Reply(200, Some(TaskNotFound), None);
      }
      rows := rows[id := rows[id].(completed := !rows[id].completed)];
      reply := Reply(200, Some(StatusChanged), Some(Serialize(id, rows[id])));
    }

    /** `delete_task`. */
    method DeleteTask(id: int) returns (reply: Reply)
      requires Valid()
      modifies this
      ensures Valid()
      ensures Step(rows, reply) == AfterDelete(old(rows), id)
    {
      if id !in rows {
        return Reply(200, Some(TaskNotFound), None);
      }
      rows := rows - {id};
      order := Without(order, id);
      reply := Reply(200, Some(TaskDeleted), None);
    }
  }

  /** A scan order that visits every key once is as long as the table. */
  lemma {:induction false} ScanCoversTable(order: seq<int>, rows: Table)
    requires forall k :: k in rows <==> k in order
    requires forall i, j :: 0 <= i < j < |order| ==> order[i] != order[j]
    ensures |order| == |rows|
  {
    if order == [] {
      assert forall k :: k in rows.Keys ==> k in order;
      assert rows.Keys == {};
    } else {
      var n := |order| - 1;
      var last := order[n];
      assert last in order;
      var rest := rows - {last};
      assert |rest| == |rows| - 1 by {
        assert rest.Keys == rows.Keys - {last};
      }
      forall k | k in order[..n] ensures k in rest {
        var i :| 0 <= i < n && order[..n][i] == k;
        assert order[i] != last;
      }
      forall k | k in rest ensures k in order[..n] {
        var i :| 0 <= i < |order| && order[i] == k;
        assert order[..n][i] == k;
      }
      ScanCoversTable(order[..n], rest);
    }
  }

  /** `s` with every occurrence of `x` dropped. */
  function Without(s: seq<int>, x: int): (r: seq<int>)
    ensures forall y :: y in r <==> y in s && y != x
    ensures (forall i, j :: 0 <= i < j < |s| ==> s[i] != s[j]) ==> forall i, j :: 0 <= i < j < |r| ==> r[i] != r[j]
  {
    if s == [] then []
    else
      var rest := Without(s[1..], x);
      assert s[0] in rest ==> exists i :: 1 <= i < |s| && s[i] == s[0] by {
        if s[0] in rest {
          assert s[0] in s[1..];
          var k :| 0 <= k < |s| - 1 && s[1..][k] == s[0];
          assert s[k + 1] == s[0];
        }
      }
      (if s[0] == x then [] else [s[0]]) + rest
  }

  /** An id larger than every key in the scan: one the table does not use. */
  method FreshKey(order: seq<int>) returns (id: int)
    ensures id !in order
  {
    id := 0;
    var n := 0;
    while n < |order|
      invariant n <= |order|
      invariant forall i :: 0 <= i < n ==> order[i] < id
    {
      if order[n] >= id {
        id := order[n] + 1;
      }
      n := n + 1;
    }
  }
}
