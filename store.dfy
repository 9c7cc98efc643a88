/**
  The bot's reminder objects and the `user_tasks` dictionary that holds
  them, with the handlers that change them: recording a reminder from a
  message, the "done" and "snooze" buttons, and the reminder list. The view
  of the whole store is a `Tasks.Board`, and each handler is proved to do
  to that view what the functions of the `Tasks` module say.
 */
module Store {
  import opened Wrappers
  import opened Text
  import opened TimeParser
  import opened Describe
  import opened Callback
  import opened Tasks
  import opened Listing
  import ParseProperties

  /** One reminder. Only its due moment and its done flag change after it
      is made. */
  class ReminderTask {
    const id: TaskId
    const user: UserId
    const text: string
    const createdAt: int
    var due: int
    var completed: bool

    /** A new reminder, not done, made at `now`. */
    constructor(user: UserId, text: string, due: int, id: TaskId, now: int)
      ensures View() == TaskView(id, user, text, due, now, false)
    {
      this.id := id;
      this.user := user;
      this.text := text;
      this.due := due;
      this.createdAt := now;
      this.completed := false;
    }

    function View(): TaskView
      reads this
    {
      TaskView(id, user, text, due, createdAt, completed)
    }
  }

  /** The answer to a message: none for a command, the "cannot understand
      the time" answer, or the confirmation with the description and the
      due moment. The confirmation shows `Confirmation(due - later)`, where
      `later >= now` is the clock reading taken after recording. */
  datatype Reply = Command | NotUnderstood | Recorded(description: string, due: int)

  /** The answer the message handler gives to `text` at `now`. */
  function Answer(text: string, now: int): Reply {
    if StartsWith(text, "/") then Command
    else
      match Parse(text, now)
      case None => NotUnderstood
      case Some(due) => Recorded(Description(text), due)
  }

  /** The handler reads the clock twice: `now` for reading the time and
      `later`, after recording, for the confirmation. A confirmation names a
      description and a due moment that is not before `now`; its minutes
      are in 0..59, and the hours and minutes it shows never exceed the
      time left at `later` and fall short of it by less than a minute. The
      due moment can have passed by `later`, so the hours can be negative;
      they are at least -1 when no more than an hour went by between the
      two readings. */
  lemma AnswerBounds(text: string, now: int, later: int)
    requires Answer(text, now).Recorded?
    requires now <= later
    ensures var r := Answer(text, now);
      var left := Confirmation(r.due - later);
      r.description != [] && r.due >= now && 0 <= left.minutes < 60
      && Seconds(left) <= r.due - later < Seconds(left) + Minute
      && (later - now <= Hour ==> left.hours >= -1)
  {
    var due := Parse(text, now).value;
    ConfirmationSpec(due - later);
    if later - now <= Hour {
      assert due - later >= -Hour;
    }
  }

  /** Bare "0" is read as due at the moment of reading. */
  lemma ZeroParse(t: string, now: int)
    requires t == "0"
    ensures !StartsWith(t, "/") && Parse(t, now) == Some(now)
  {
    ParseProperties.NormalizeKeeps(t);
    assert Value(t) == 0 by { assert t[..0] == ""; }
    ParseProperties.ParseBare(t, now);
  }

  /** Bare "0" is recorded as due at the moment it is read, so a
      confirmation one second later shows -1 hours and 59 minutes. */
  lemma AnswerLateExample(now: int)
    ensures Answer("0", now).Recorded? && Answer("0", now).due == now
    ensures Confirmation(Answer("0", now).due - (now + 1)) == Remaining(-1, 59)
  {
    ZeroParse("0", now);
  }

  /** A command gets no answer. */
  lemma AnswerCommand(text: string, now: int)
    requires StartsWith(text, "/")
    ensures Answer(text, now) == Command
  {
  }

  /** A message whose time cannot be read is refused. */
  lemma AnswerUnparsed(text: string, now: int)
    requires !StartsWith(text, "/") && Parse(text, now) == None
    ensures Answer(text, now) == NotUnderstood
  {
  }

  /** A message whose time is read is answered with a confirmation. */
  lemma AnswerRecorded(text: string, now: int, due: int)
    requires !StartsWith(text, "/") && Parse(text, now) == Some(due)
    ensures Answer(text, now) == Recorded(Description(text), due)
  {
  }

  /** `s` is the list of user `u` and `vs` its views: one view per
      reminder, in order, each reminder filed under `u`, none twice. */
  ghost predicate ListValid(u: UserId, s: seq<ReminderTask>, vs: seq<TaskView>)
    reads s
  {
    && |s| == |vs|
    && (forall i :: 0 <= i < |s| ==> s[i].user == u && s[i].View() == vs[i])
    && (forall i, j :: 0 <= i < j < |s| ==> s[i] != s[j])
  }

  /** The lists `m`, whose views are `b` and all of whose reminders are
      among `r`. */
  ghost predicate Filed(m: map<UserId, seq<ReminderTask>>, b: Board, r: set<ReminderTask>)
    reads r
  {
    && m.Keys == b.Keys
    && (forall u, i :: u in m && 0 <= i < |m[u]| ==> m[u][i] in r)
    && (forall u :: u in m ==> ListValid(u, m[u], b[u]))
  }

  /** The list of user `u` in `m`, empty when there is none. */
  function Objects(m: map<UserId, seq<ReminderTask>>, u: UserId): seq<ReminderTask> {
    if u in m then m[u] else []
  }

  /** A new reminder of `u` at the end of the list keeps it valid. */
  lemma ListAppend(u: UserId, s: seq<ReminderTask>, vs: seq<TaskView>, t: ReminderTask)
    requires ListValid(u, s, vs) && t.user == u && t !in s
    ensures ListValid(u, s + [t], vs + [t.View()])
  {
    var s2, vs2 := s + [t], vs + [t.View()];
    forall i | 0 <= i < |s2| ensures s2[i].user == u && s2[i].View() == vs2[i] {
      if i < |s| {
        assert s2[i] == s[i] && vs2[i] == vs[i];
      }
    }
    forall i, j | 0 <= i < j < |s2| ensures s2[i] != s2[j] {
      assert s2[i] == s[i];
      if j < |s| {
        assert s2[j] == s[j];
      }
    }
  }

  class ReminderStore {
    var userTasks: map<UserId, seq<ReminderTask>>
    /** The store as a value. */
    ghost var board: Board
    /** The reminders on the lists. */
    ghost var Repr: set<ReminderTask>

    /** The store starts empty. */
    constructor()
      ensures Valid() && board == map[] && Repr == {}
    {
      userTasks := map[];
      board := map[];
      Repr := {};
    }

    /** `board` holds the views of the lists, every reminder on a list is
        one of `Repr`, and each list is valid for its user. */
    ghost predicate Valid()
      reads this, Repr
    {
      Filed(userTasks, board, Repr)
    }

    /** Filing a reminder made since the old state at the end of its
        user's list keeps the store valid. */
    twostate lemma FiledAdd(new t: ReminderTask)
      requires old(Valid()) && unchanged(old(Repr)) && old(!allocated(t))
      requires userTasks == old(userTasks)[t.user := Objects(old(userTasks), t.user) + [t]]
      requires board == Added(old(board), t.View()) && Repr == old(Repr) + {t}
      ensures Valid()
    {
      var m, b, r := old(userTasks), old(board), old(Repr);
      var u := t.user;
      var s := Objects(m, u);
      assert old(ListValid(u, s, ListOf(b, u)));
      assert ListValid(u, s, ListOf(b, u));
      assert t !in s by {
        forall i | 0 <= i < |s| ensures s[i] != t {
          assert s[i] in r;
        }
      }
      ListAppend(u, s, ListOf(b, u), t);
      forall v | v in userTasks ensures ListValid(v, userTasks[v], board[v]) {
        if v != u {
          assert old(ListValid(v, m[v], b[v]));
        }
      }
      forall v, i | v in userTasks && 0 <= i < |userTasks[v]| ensures userTasks[v][i] in Repr {
        if v == u && i < |s| {
          assert userTasks[v][i] == s[i];
        }
      }
    }

    /** Changing reminder `i` of user `u`, and no other, keeps the store
        valid once that reminder's view is replaced on the board. */
    twostate lemma FiledSet(new u: UserId, new i: nat)
      requires old(Valid()) && u in old(userTasks) && i < |old(userTasks)[u]|
      requires unchanged(old(Repr) - {old(userTasks)[u][i]})
      requires userTasks == old(userTasks) && Repr == old(Repr)
      requires board == old(board)[u := old(board)[u][i := userTasks[u][i].View()]]
      ensures Valid()
    {
      var m, b := userTasks, old(board);
      var o := m[u][i];
      forall v | v in m ensures ListValid(v, m[v], board[v]) {
        var s := m[v];
        assert old(ListValid(v, s, b[v]));
        forall j | 0 <= j < |s| ensures s[j].user == v && s[j].View() == board[v][j] {
          assert old(s[j].View()) == b[v][j];
          if v == u && j == i {
          } else {
            assert s[j] != o && s[j] in Repr;
          }
        }
      }
    }

    /** The delivery guard evaluated when a reminder fires: its user has a
        list, the reminder is in it, and it is not done. The due moment is
        not looked at. */
    predicate GuardHolds(task: ReminderTask)
      reads this, task
    {
      task.user in userTasks && task in userTasks[task.user] && !task.completed
    }

    /** A reminder firing: the notice it sends when the guard lets it
        through, which is the notice of its view on the board. */
    method Fire(task: ReminderTask) returns (notice: Option<Notice>)
      requires Valid()
      ensures notice.Some? <==> GuardHolds(task)
      ensures notice.Some? ==> notice.value == Notice(task.user, task.text, DoneToken(task.id), SnoozeToken(task.id))
      ensures forall j :: task.user in userTasks && 0 <= j < |userTasks[task.user]| && userTasks[task.user][j] == task ==>
        notice == Delivery(board, task.user, j)
    {
      if task.user in userTasks && task in userTasks[task.user] && !task.completed {
        notice := Some(Notice(task.user, task.text, DoneToken(task.id), SnoozeToken(task.id)));
      } else {
        notice := None;
      }
      forall j | task.user in userTasks && 0 <= j < |userTasks[task.user]| && userTasks[task.user][j] == task
        ensures notice == Delivery(board, task.user, j)
      {
        assert task.View() == board[task.user][j];
      }
    }

    /** The message handler: commands are ignored, a text whose time cannot
        be read is refused, anything else is recorded at the end of the
        sender's list, which is created on the first message. */
    method Submit(user: UserId, text: string, now: int, id: TaskId) returns (reply: Reply)
      requires Valid()
      modifies this
      ensures Valid() && old(Repr) <= Repr
      ensures reply == Answer(text, now)
      ensures reply.Recorded? ==>
        board == Apply(old(board), Submitted(TaskView(id, user, reply.description, reply.due, now, false)))
      ensures !reply.Recorded? ==> userTasks == old(userTasks) && board == old(board) && Repr == old(Repr)
    {
      if StartsWith(text, "/") {
        AnswerCommand(text, now);
        return Command;
      }
      reply := Understand(user, text, now, id);
    }

    /** The message handler past the command test: read the time, and
        record the reminder when there is one. */
    method Understand(user: UserId, text: string, now: int, id: TaskId) returns (reply: Reply)
      requires Valid() && !StartsWith(text, "/")
      modifies this
      ensures Valid() && old(Repr) <= Repr
      ensures reply == Answer(text, now)
      ensures reply.Recorded? ==> board == Added(old(board), TaskView(id, user, reply.description, reply.due, now, false))
      ensures !reply.Recorded? ==> userTasks == old(userTasks) && board == old(board) && Repr == old(Repr)
    {
      var due := Parse(text, now);
      if due.None? {
        AnswerUnparsed(text, now);
        return NotUnderstood;
      }
      var description := ExtractDescription(text);
      var task := Record(user, description, due.value, id, now);
      reply := Recorded(description, due.value);
      AnswerRecorded(text, now, due.value);
    }

    /** Makes the reminder and files it at the end of its user's list,
        creating the list on the user's first reminder. */
    method Record(user: UserId, text: string, due: int, id: TaskId, now: int) returns (task: ReminderTask)
      requires Valid()
      modifies this
      ensures Valid() && fresh(task) && Repr == old(Repr) + {task}
      ensures board == Added(old(board), TaskView(id, user, text, due, now, false))
      ensures userTasks == old(userTasks)[user := Objects(old(userTasks), user) + [task]]
      ensures GuardHolds(task)
    {
      task := new ReminderTask(user, text, due, id, now);
      userTasks := userTasks[task.user := Objects(userTasks, task.user) + [task]];
      Repr := Repr + {task};
      board := Added(board, task.View());
      FiledAdd(task);
    }

    /** The "done" button: the first reminder of the user with that id, if
        any, is marked done, and its text is shown. */
    method MarkDone(user: UserId, id: TaskId) returns (shown: Option<string>)
      requires Valid()
      modifies this, Repr
      ensures Valid() && userTasks == old(userTasks) && Repr == old(Repr)
      ensures board == Done(old(board), user, id)
      ensures shown.Some? <==> user in old(board) && FindTask(old(board)[user], id).Some?
      ensures shown.Some? ==> shown.value == old(board)[user][FindTask(old(board)[user], id).value].text
    {
      shown := None;
      if user in userTasks {
        var tasks := userTasks[user];
        var i := 0;
        while i < |tasks|
          invariant 0 <= i <= |tasks| && shown.None?
          invariant unchanged(this) && unchanged(Repr)
          invariant forall j :: 0 <= j < i ==> board[user][j].id != id
        {
          if tasks[i].id == id {
            tasks[i].completed := true;
            shown := Some(tasks[i].text);
            break;
          }
          assert tasks[i].View() == board[user][i];
          i := i + 1;
        }
        if shown.Some? {
          ghost var v := board[user][i];
          assert old(tasks[i].View()) == v;
          assert tasks[i].View() == v.(completed := true);
          FindIs(board[user], id, i);
          board := board[user := board[user][i := tasks[i].View()]];
          FiledSet(user, i);
        } else {
          NoMatchNoChange(board, user, id);
        }
      }
    }

    /** The "snooze" button: the first reminder of the user with that id,
        if any, is moved one hour later, whether or not it is done, and its
        text is shown. */
    method Snooze(user: UserId, id: TaskId) returns (shown: Option<string>)
      requires Valid()
      modifies this, Repr
      ensures Valid() && userTasks == old(userTasks) && Repr == old(Repr)
      ensures board == Snoozed(old(board), user, id)
      ensures shown.Some? <==> user in old(board) && FindTask(old(board)[user], id).Some?
      ensures shown.Some? ==> shown.value == old(board)[user][FindTask(old(board)[user], id).value].text
    {
      shown := None;
      if user in userTasks {
        var tasks := userTasks[user];
        var i := 0;
        while i < |tasks|
          invariant 0 <= i <= |tasks| && shown.None?
          invariant unchanged(this) && unchanged(Repr)
          invariant forall j :: 0 <= j < i ==> board[user][j].id != id
        {
          if tasks[i].id == id {
            tasks[i].due := tasks[i].due + Hour;
            shown := Some(tasks[i].text);
            break;
          }
          assert tasks[i].View() == board[user][i];
          i := i + 1;
        }
        if shown.Some? {
          ghost var v := board[user][i];
          assert old(tasks[i].View()) == v;
          assert tasks[i].View() == v.(due := v.due + Hour);
          FindIs(board[user], id, i);
          board := board[user := board[user][i := tasks[i].View()]];
          assert board == Shifted(old(board), user, i, Hour);
          FiledSet(user, i);
        } else {
          NoMatchNoChange(board, user, id);
        }
      }
    }

    /** The button handler: data starting with "done_" is the "done" button
        of the id after it, other data starting with "snooze_" the "snooze"
        button, anything else is ignored. The text shown is that of the
        reminder the press lands on, if any. */
    method Press(user: UserId, data: string) returns (shown: Option<string>)
      requires Valid()
      modifies this, Repr
      ensures Valid() && userTasks == old(userTasks) && Repr == old(Repr)
      ensures board == Apply(old(board), Pressed(user, data))
      ensures StartsWith(data, DonePrefix) ==>
        (shown.Some? <==> user in old(board) && FindTask(old(board)[user], data[5..]).Some?)
      ensures !StartsWith(data, DonePrefix) && StartsWith(data, SnoozePrefix) ==>
        (shown.Some? <==> user in old(board) && FindTask(old(board)[user], data[7..]).Some?)
      ensures StartsWith(data, DonePrefix) && shown.Some? ==>
        shown.value == old(board)[user][FindTask(old(board)[user], data[5..]).value].text
      ensures !StartsWith(data, DonePrefix) && StartsWith(data, SnoozePrefix) && shown.Some? ==>
        shown.value == old(board)[user][FindTask(old(board)[user], data[7..]).value].text
      ensures !StartsWith(data, DonePrefix) && !StartsWith(data, SnoozePrefix) ==> shown.None?
    {
      if StartsWith(data, DonePrefix) {
        shown := MarkDone(user, data[5..]);
      } else if StartsWith(data, SnoozePrefix) {
        shown := Snooze(user, data[7..]);
      } else {
        shown := None;
      }
    }

    /** The reminder list command: the lines of the user's reminders at
        `now`, or `None` for the "no reminders" answer. */
    method List(user: UserId, now: int) returns (rows: Option<seq<Row>>)
      requires Valid()
      ensures rows == ListFor(board, user, now)
    {
      if user !in userTasks || |userTasks[user]| == 0 {
        return None;
      }
      var tasks := userTasks[user];
      var lines: seq<Row> := [];
      var k := 0;
      while k < |tasks|
        invariant 0 <= k <= |tasks| && |lines| == k
        invariant forall j :: 0 <= j < k ==> lines[j] == RowOf(j + 1, board[user][j], now)
      {
        var task := tasks[k];
        assert task.View() == board[user][k];
        lines := lines + [Row(k + 1, task.text, task.completed, TimeLeft(task.due - now))];
        k := k + 1;
      }
      rows := Some(lines);
      assert rows.value == ListFor(board, user, now).value;
    }
  }
}
