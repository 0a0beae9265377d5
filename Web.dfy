/** The browser client (Web/main.js): a module-level cache `tasks` of what
    the server sent, updated after each request, the in-place edit session,
    and the HTML escaping used when rendering. Server answers are parameters;
    rendering, alerts and focus handling are not modelled. */
module Web {
  import opened Results
  import opened Text
  import Api

  type Task = Api.Task

  // ---------------------------------------------------------------------
  // escapeHtml

  /** The replacement table of `escapeHtml`. */
  function EscapeChar(c: char): string {
    match c
    case '&' => "&amp;"
    case '<' => "&lt;"
    case '>' => "&gt;"
    case '"' => "&quot;"
    case '\'' => "&#039;"
    case _ => [c]
  }

  /** `escapeHtml`: every character is replaced by its table entry. */
  function EscapeHtml(s: string): (r: string)
    ensures |r| >= |s|
  {
    if s == [] then [] else EscapeChar(s[0]) + EscapeHtml(s[1..])
  }

  /** Characters that would open a tag or close an attribute value. */
  predicate IsMarkup(c: char) {
    c == '<' || c == '>' || c == '"' || c == '\''
  }

  /** Reading the five entities back: the inverse of `EscapeHtml`. */
  function Unescape(s: string): (r: string)
    ensures |r| <= |s|
  {
    if s == [] then []
    else if s[0] != '&' then [s[0]] + Unescape(s[1..])
    else if "&amp;" <= s then "&" + Unescape(s[5..])
    else if "&lt;" <= s then "<" + Unescape(s[4..])
    else if "&gt;" <= s then ">" + Unescape(s[4..])
    else if "&quot;" <= s then "\"" + Unescape(s[6..])
    else if "&#039;" <= s then "'" + Unescape(s[6..])
    else [s[0]] + Unescape(s[1..])
  }

  /** Escaping works character by character, so it distributes over
      concatenation. */
  lemma {:induction false} EscapeHtmlConcat(a: string, b: string)
    ensures EscapeHtml(a + b) == EscapeHtml(a) + EscapeHtml(b)
  {
    if a != [] {
      assert (a + b)[0] == a[0] && (a + b)[1..] == a[1..] + b;
      EscapeHtmlConcat(a[1..], b);
      assert EscapeHtml(a + b) == EscapeChar(a[0]) + (EscapeHtml(a[1..]) + EscapeHtml(b));
    } else {
      assert a + b == b;
    }
  }

  /** The escaped text never contains `<`, `>`, `"` or `'`. */
  lemma {:induction false} EscapeHtmlHasNoMarkup(s: string)
    ensures forall k :: 0 <= k < |EscapeHtml(s)| ==> !IsMarkup(EscapeHtml(s)[k])
  {
    if s != [] {
      EscapeHtmlHasNoMarkup(s[1..]);
      var head, tail := EscapeChar(s[0]), EscapeHtml(s[1..]);
      forall k | 0 <= k < |head + tail| ensures !IsMarkup((head + tail)[k]) {
        if k >= |head| {
          assert (head + tail)[k] == tail[k - |head|];
        }
      }
    }
  }

  /** Text without any of the five special characters is left as it is. */
  lemma {:induction false} EscapeHtmlKeepsPlainText(s: string)
    requires forall k :: 0 <= k < |s| ==> !IsMarkup(s[k]) && s[k] != '&'
    ensures EscapeHtml(s) == s
  {
    if s != [] {
      EscapeHtmlKeepsPlainText(s[1..]);
    }
  }

  /** Unescaping reads one escaped character back and goes on after it. */
  lemma UnescapeEscapeChar(c: char, rest: string)
    ensures Unescape(EscapeChar(c) + rest) == [c] + Unescape(rest)
  {
    var e := EscapeChar(c) + rest;
    if c == '&' {
      assert "&amp;" <= e && e[5..] == rest;
    } else if c == '<' {
      assert e[1] == 'l';
      assert "&lt;" <= e && e[4..] == rest;
    } else if c == '>' {
      assert e[1] == 'g';
      assert "&gt;" <= e && e[4..] == rest;
    } else if c == '"' {
      assert e[1] == 'q';
      assert "&quot;" <= e && e[6..] == rest;
    } else if c == '\'' {
      assert e[1] == '#';
      assert "&#039;" <= e && e[6..] == rest;
    } else {
      assert e[0] == c && e[1..] == rest;
    }
  }

  /** Escaping loses nothing: unescaping gives the original text back. */
  lemma {:induction false} UnescapeEscapeHtml(s: string)
    ensures Unescape(EscapeHtml(s)) == s
  {
    if s != [] {
      UnescapeEscapeHtml(s[1..]);
      UnescapeEscapeChar(s[0], EscapeHtml(s[1..]));
      assert s == [s[0]] + s[1..];
    }
  }

  // ---------------------------------------------------------------------
  // The `tasks` cache

  /** `tasks.filter(task => task.id !== id)`. */
  function WithoutId(s: seq<Task>, id: int): (r: seq<Task>)
    ensures |r| <= |s|
    ensures forall t :: t in r <==> t in s && t.id != id
  {
    if s == [] then []
    else (if s[0].id == id then [] else [s[0]]) + WithoutId(s[1..], id)
  }

  /** `tasks.map(task => task.id === id ? t : task)`. */
  function ReplaceById(s: seq<Task>, id: int, t: Task): (r: seq<Task>)
    ensures |r| == |s|
    ensures forall i :: 0 <= i < |s| ==> r[i] == if s[i].id == id then t else s[i]
  {
    if s == [] then []
    else [if s[0].id == id then t else s[0]] + ReplaceById(s[1..], id, t)
  }

  /** `tasks.find(item => item.id === id)`: the first task with that id. */
  function FindById(s: seq<Task>, id: int): (r: Option<Task>)
    ensures r.None? <==> forall i :: 0 <= i < |s| ==> s[i].id != id
    ensures r.Some? ==> r.value == s[IndexOfId(s, id)]
  {
    if s == [] then None
    else if s[0].id == id then Some(s[0])
    else FindById(s[1..], id)
  }

  /** Where `FindById` found its task. */
  function IndexOfId(s: seq<Task>, id: int): (i: nat)
    requires exists k :: 0 <= k < |s| && s[k].id == id
    ensures i < |s| && s[i].id == id
    ensures forall k :: 0 <= k < i ==> s[k].id != id
  {
    if s[0].id == id then 0
    else
      assert exists k :: 0 <= k < |s[1..]| && s[1..][k].id == id by {
        var k :| 0 <= k < |s| && s[k].id == id;
        assert s[1..][k - 1] == s[k];
      }
      1 + IndexOfId(s[1..], id)
  }

  /** Deleting keeps the other tasks in their order: filtering distributes
      over concatenation. */
  lemma {:induction false} WithoutIdConcat(a: seq<Task>, b: seq<Task>, id: int)
    ensures WithoutId(a + b, id) == WithoutId(a, id) + WithoutId(b, id)
  {
    if a != [] {
      assert (a + b)[0] == a[0] && (a + b)[1..] == a[1..] + b;
      WithoutIdConcat(a[1..], b, id);
      var head := if a[0].id == id then [] else [a[0]];
      assert WithoutId(a + b, id) == head + (WithoutId(a[1..], id) + WithoutId(b, id));
    } else {
      assert a + b == b;
    }
  }

  /** Deleting an id that no cached task has changes nothing, so deleting
      twice is deleting once. */
  lemma {:induction false} WithoutAbsentId(s: seq<Task>, id: int)
    requires forall i :: 0 <= i < |s| ==> s[i].id != id
    ensures WithoutId(s, id) == s
  {
    if s != [] {
      WithoutAbsentId(s[1..], id);
    }
  }

  /** Replacing the tasks of one id touches nothing else: once that id is
      filtered out, the cache before and after the replacement agree. */
  lemma {:induction false} ReplaceTouchesOnlyThatId(s: seq<Task>, id: int, t: Task)
    requires t.id == id
    ensures WithoutId(ReplaceById(s, id, t), id) == WithoutId(s, id)
  {
    if s != [] {
      ReplaceTouchesOnlyThatId(s[1..], id, t);
      assert ReplaceById(s, id, t)[1..] == ReplaceById(s[1..], id, t);
    }
  }

  // ---------------------------------------------------------------------
  // Server answers as the client sees them

  /** What `fetch` and `response.json()` give a handler: nothing when the
      request failed, otherwise `response.ok` and the parsed body. */
  datatype Answer = Unreachable | Answer(ok: bool, body: AnswerBody)

  /** An object body carries an optional `task`; a body that is not JSON
      makes `response.json()` throw. */
  datatype AnswerBody = Unparsable | Object(task: Option<Task>)

  /** `GET /api/tasks` as `loadTasks` sees it. */
  datatype ListAnswer = ListUnreachable | ListAnswer(ok: bool, body: ListBody)

  datatype ListBody = ListUnparsable | NotAnArray | TaskArray(tasks: seq<Task>)

  /** The handler went on past `await response.json()` and `response.ok`. */
  predicate Accepted(a: Answer) {
    a.Answer? && a.ok && a.body.Object?
  }

  /** The request a handler sent. */
  datatype Request = Post(body: Api.Body) | Put(id: int, body: Api.Body)

  class WebClient {
    var tasks: seq<Task>

    constructor ()
      ensures tasks == []
    {
      tasks := [];
    }

    /** `loadTasks`: any failure, and any body that is not an array, leaves
        the cache empty. */
    method LoadTasks(answer: ListAnswer)
      modifies this
      ensures tasks == if answer.ListAnswer? && answer.ok && answer.body.TaskArray?
                       then answer.body.tasks else []
    {
      match answer {
        case ListUnreachable =>
          tasks := [];
        case ListAnswer(ok, body) =>
          if !ok {
            tasks := [];
            return;
          }
          match body {
            case ListUnparsable => tasks := [];
            case NotAnArray => tasks := [];
            case TaskArray(data) => tasks := data;
          }
      }
    }

    /** `addTask`: blank input sends nothing; otherwise the trimmed text is
        posted as not completed, and the task of an accepted answer is
        appended. `alerted` says whether the user was told of a failure. */
    method AddTask(input: string, answer: Answer) returns (sent: Option<Request>, alerted: bool)
      modifies this
      ensures IsBlank(JavaScript, input) ==> sent == None && !alerted && tasks == old(tasks)
      ensures !IsBlank(JavaScript, input) ==>
        && sent == Some(Post(Api.Body(Some(Trim(JavaScript, input)), Some(false))))
        && (alerted <==> !Accepted(answer))
      ensures !IsBlank(JavaScript, input) && Accepted(answer) && answer.body.task.Some? ==>
        tasks == old(tasks) + [answer.body.task.value]
      ensures IsBlank(JavaScript, input) || !Accepted(answer) || answer.body.task.None? ==>
        tasks == old(tasks)
    {
      var text := Trim(JavaScript, input);
      TrimEmptyIffBlank(JavaScript, input);
      if text == [] {
        return None, false;
      }
      sent := Some(Post(Api.Body(Some(text), Some(false))));
      alerted := !Accepted(answer);
      if Accepted(answer) && answer.body.task.Some? {
        tasks := tasks + [answer.body.task.value];
      }
    }

    /** `deleteTask`: an accepted answer drops every cached task with that id. */
    method DeleteTask(taskId: int, answer: Answer) returns (alerted: bool)
      modifies this
      ensures alerted <==> !Accepted(answer)
      ensures tasks == if Accepted(answer) then WithoutId(old(tasks), taskId) else old(tasks)
    {
      alerted := !Accepted(answer);
      if Accepted(answer) {
        tasks := WithoutId(tasks, taskId);
      }
    }

    /** `toggleTask`: the task of an accepted answer replaces every cached
        task with that id. */
    method ToggleTask(taskId: int, answer: Answer) returns (alerted: bool)
      modifies this
      ensures alerted <==> !Accepted(answer)
      ensures Accepted(answer) && answer.body.task.Some? ==>
        tasks == ReplaceById(old(tasks), taskId, answer.body.task.value)
      ensures !Accepted(answer) || answer.body.task.None? ==> tasks == old(tasks)
    {
      alerted := !Accepted(answer);
      if Accepted(answer) && answer.body.task.Some? {
        tasks := ReplaceById(tasks, taskId, answer.body.task.value);
      }
    }

    /** `startEdit`: no session for an id that is not cached; otherwise a
        session on the first cached task with that id, its input holding
        the task's text and both listeners installed. */
    method StartEdit(taskId: int) returns (session: EditSession?)
      ensures FindById(tasks, taskId).None? <==> session == null
      ensures session != null ==>
        && fresh(session)
        && session.taskId == taskId && session.task == FindById(tasks, taskId).value
        && session.value == session.task.text && session.listening
    {
      var task := FindById(tasks, taskId);
      if task.None? {
        return null;
      }
      session := new EditSession(taskId, task.value);
    }

    /** `finishEdit`: an empty text or the task's own text sends nothing;
        otherwise the text is put with the task's `completed`, and the task
        of an accepted answer replaces the cached tasks with that id. */
    method FinishEdit(taskId: int, newText: string, task: Task, answer: Answer) returns (sent: Option<Request>, alerted: bool)
      modifies this
      ensures newText == [] || newText == task.text ==> sent == None && !alerted && tasks == old(tasks)
      ensures newText != [] && newText != task.text ==>
        && sent == Some(Put(taskId, Api.Body(Some(newText), Some(task.completed))))
        && (alerted <==> !Accepted(answer))
        && tasks == if Accepted(answer) && answer.body.task.Some?
                    then ReplaceById(old(tasks), taskId, answer.body.task.value)
                    else old(tasks)
    {
      if newText == [] || newText == task.text {
        return None, false;
      }
      sent := Some(Put(taskId, Api.Body(Some(newText), Some(task.completed))));
      alerted := !Accepted(answer);
      if Accepted(answer) && answer.body.task.Some? {
        tasks := ReplaceById(tasks, taskId, answer.body.task.value);
      }
    }
  }

  // ---------------------------------------------------------------------
  // The edit session

  datatype Event = Blur | KeyDown(key: string)

  /** What a listener asks for: nothing, a re-render that drops the edit,
      or `finishEdit` with these arguments. */
  datatype EditAction = Ignored | Discard | Finish(taskId: int, newText: string, task: Task)

  /** The decision rule of the listeners: `Some(commit)` when the event ends
      the session. */
  function Finalization(e: Event): (r: Option<bool>)
    ensures r == Some(true) <==> e == Blur || e == KeyDown("Enter")
    ensures r == Some(false) <==> e == KeyDown("Escape")
  {
    match e
    case Blur => Some(true)
    case KeyDown(key) =>
      if key == "Enter" then Some(true)
      else if key == "Escape" then Some(false)
      else None
  }

  /** One in-place edit: the task captured when it started, the input's
      current value, and whether its listeners are still installed. */
  class EditSession {
    const taskId: int
    const task: Task
    var value: string
    var listening: bool

    constructor (taskId: int, task: Task)
      ensures this.taskId == taskId && this.task == task
      ensures value == task.text && listening
    {
      this.taskId := taskId;
      this.task := task;
      value := task.text;
      listening := true;
    }

    /** The user types into the input. */
    method Input(v: string)
      modifies this
      ensures value == v && listening == old(listening)
    {
      value := v;
    }

    /** A listener fires. Blur or Enter finishes with the trimmed value,
        Escape discards; either removes both listeners, so the session acts
        at most once. Other keys do nothing. */
    method Handle(e: Event) returns (action: EditAction)
      modifies this
      ensures value == old(value)
      ensures !old(listening) ==> action == Ignored && !listening
      ensures old(listening) && Finalization(e) == Some(true) ==>
        action == Finish(taskId, Trim(JavaScript, value), task) && !listening
      ensures old(listening) && Finalization(e) == Some(false) ==> action == Discard && !listening
      ensures old(listening) && Finalization(e).None? ==> action == Ignored && listening
    {
      if !listening {
        return Ignored;
      }
      match Finalization(e) {
        case None =>
          action := Ignored;
        case Some(commit) =>
          listening := false;
          if !commit {
            return Discard;
          }
          action := Finish(taskId, Trim(JavaScript, value), task);
      }
    }
  }
}
