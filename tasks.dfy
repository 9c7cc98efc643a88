/**
  The reminder board as a value: each user's reminders in the order they
  were recorded, and what recording one, pressing "done" and pressing
  "snooze" do to it. The objects of the bot itself live in the `Store`
  module; their views are the values here.
 */
module Tasks {
  import opened Wrappers
  import opened TimeParser
  import opened Callback

  type UserId = int
  type TaskId = string

  /** The fields of one reminder. */
  datatype TaskView = TaskView(id: TaskId, user: UserId, text: string, due: int, createdAt: int, completed: bool)

  /** Every user's reminders, in recording order. */
  type Board = map<UserId, seq<TaskView>>

  /** The reminders of user `u`, none when the user has no entry yet. */
  function ListOf(b: Board, u: UserId): seq<TaskView> {
    if u in b then b[u] else []
  }

  /** The position of the first reminder with id `id`, in list order. */
  function FindTask(tasks: seq<TaskView>, id: TaskId): (r: Option<nat>)
    ensures r.Some? ==> r.value < |tasks| && tasks[r.value].id == id
    ensures r.Some? ==> forall j :: 0 <= j < r.value ==> tasks[j].id != id
    ensures r.None? ==> forall j :: 0 <= j < |tasks| ==> tasks[j].id != id
    decreases |tasks|
  {
    if tasks == [] then None
    else if tasks[0].id == id then Some(0)
    else
      match FindTask(tasks[1..], id)
      case None => None
      case Some(k) => Some(k + 1)
  }

  /** A reminder with id `id` that no earlier one has is the one found. */
  lemma FindIs(tasks: seq<TaskView>, id: TaskId, i: nat)
    requires i < |tasks| && tasks[i].id == id
    requires forall j :: 0 <= j < i ==> tasks[j].id != id
    ensures FindTask(tasks, id) == Some(i)
  {
    var r := FindTask(tasks, id);
    assert r.Some?;
    assert !(r.value < i) && !(i < r.value);
  }

  /** Whether position `j` of user `v` holds the reminder that a button
      press of user `u` for id `id` acts on: the first one of `u` with that
      id. */
  predicate Matched(b: Board, u: UserId, id: TaskId, v: UserId, j: nat) {
    v == u && u in b && FindTask(b[u], id) == Some(j)
  }

  /** Recording reminder `t`: it goes at the end of its user's list, which
      is created when the user has none. */
  function Added(b: Board, t: TaskView): (r: Board)
    ensures r.Keys == b.Keys + {t.user}
    ensures r[t.user] == ListOf(b, t.user) + [t]
    ensures forall u :: u in b && u != t.user ==> r[u] == b[u]
  {
    b[t.user := ListOf(b, t.user) + [t]]
  }

  /** The "done" button of user `u` for id `id`. */
  function Done(b: Board, u: UserId, id: TaskId): Board {
    if u !in b then b
    else
      match FindTask(b[u], id)
      case None => b
      case Some(i) => b[u := b[u][i := b[u][i].(completed := true)]]
  }

  /** The "snooze" button of user `u` for id `id`: one hour later,
      whether or not the reminder is already done. */
  function Snoozed(b: Board, u: UserId, id: TaskId): Board {
    if u !in b then b
    else
      match FindTask(b[u], id)
      case None => b
      case Some(i) => Shifted(b, u, i, Hour)
  }

  /** Whether a reminder firing now is shown: its user has a list, it is
      in it, and it is not done. */
  predicate Deliverable(b: Board, u: UserId, j: nat) {
    u in b && j < |b[u]| && !b[u][j].completed
  }

  /** The message a firing reminder sends: to the chat of its user, with
      its text and the data of its "done" and "snooze" buttons. */
  datatype Notice = Notice(chat: UserId, text: string, done: string, snooze: string)

  /** What reminder `j` of user `u` sends when it fires: nothing unless it
      is deliverable, and otherwise buttons that act on that very
      reminder's id. */
  function Delivery(b: Board, u: UserId, j: nat): (r: Option<Notice>)
    ensures r.Some? <==> Deliverable(b, u, j)
    ensures r.Some? ==> r.value.chat == u && r.value.text == b[u][j].text
    ensures r.Some? ==> Route(r.value.done) == Complete(b[u][j].id) && Route(r.value.snooze) == Postpone(b[u][j].id)
  {
    if Deliverable(b, u, j) then
      var t := b[u][j];
      RouteDone(t.id);
      RouteSnooze(t.id);
      Some(Notice(u, t.text, DoneToken(t.id), SnoozeToken(t.id)))
    else None
  }

  /** "done" marks the first reminder of the user with that id as done and
      changes nothing else: no other reminder, no field but `completed`, no
      list length, no other user. */
  lemma DoneChanges(b: Board, u: UserId, id: TaskId)
    ensures Done(b, u, id).Keys == b.Keys
    ensures forall v :: v in b ==> |Done(b, u, id)[v]| == |b[v]|
    ensures forall v, j :: v in b && 0 <= j < |b[v]| ==>
      Done(b, u, id)[v][j] == if Matched(b, u, id, v, j) then b[v][j].(completed := true) else b[v][j]
  {
  }

  /** "snooze" moves the first reminder of the user with that id one hour
      later, done or not, and changes nothing else. */
  lemma SnoozeChanges(b: Board, u: UserId, id: TaskId)
    ensures Snoozed(b, u, id).Keys == b.Keys
    ensures forall v :: v in b ==> |Snoozed(b, u, id)[v]| == |b[v]|
    ensures forall v, j :: v in b && 0 <= j < |b[v]| ==>
      Snoozed(b, u, id)[v][j] == if Matched(b, u, id, v, j) then b[v][j].(due := b[v][j].due + Hour) else b[v][j]
  {
  }

  /** A press for an id the user does not have, or by a user without a
      list, changes nothing. */
  lemma NoMatchNoChange(b: Board, u: UserId, id: TaskId)
    requires u !in b || forall j :: 0 <= j < |b[u]| ==> b[u][j].id != id
    ensures Done(b, u, id) == b && Snoozed(b, u, id) == b
  {
    if u in b {
      assert FindTask(b[u], id) == None;
    }
  }

  /** The ids of a list decide where a press lands. */
  lemma FindSameIds(s: seq<TaskView>, t: seq<TaskView>, id: TaskId)
    requires |s| == |t| && forall j :: 0 <= j < |s| ==> s[j].id == t[j].id
    ensures FindTask(s, id) == FindTask(t, id)
  {
    var r := FindTask(s, id);
    var q := FindTask(t, id);
    if r.Some? && q.Some? {
      assert !(r.value < q.value) && !(q.value < r.value);
    }
  }

  /** Pressing "done" twice is pressing it once. */
  lemma DoneIdempotent(b: Board, u: UserId, id: TaskId)
    ensures Done(Done(b, u, id), u, id) == Done(b, u, id)
  {
    if u in b && FindTask(b[u], id).Some? {
      var i := FindTask(b[u], id).value;
      var x := b[u][i].(completed := true);
      var d := Done(b, u, id);
      assert d[u] == b[u][i := x];
      FindSameIds(b[u], d[u], id);
      assert d[u][i] == x && x.(completed := true) == x;
      assert d[u][i := x] == d[u];
      assert d[u := d[u]] == d;
    }
  }

  /** "done" and "snooze" on the same reminder give the same board in
      either order. */
  lemma DoneSnoozeCommute(b: Board, u: UserId, id: TaskId)
    ensures Done(Snoozed(b, u, id), u, id) == Snoozed(Done(b, u, id), u, id)
  {
    if u in b && FindTask(b[u], id).Some? {
      var i := FindTask(b[u], id).value;
      var t := b[u][i];
      var s, d := Snoozed(b, u, id), Done(b, u, id);
      assert s[u] == b[u][i := t.(due := t.due + Hour)];
      assert d[u] == b[u][i := t.(completed := true)];
      FindSameIds(b[u], s[u], id);
      FindSameIds(b[u], d[u], id);
      assert Done(s, u, id)[u] == b[u][i := t.(due := t.due + Hour, completed := true)];
      assert Snoozed(d, u, id)[u] == b[u][i := t.(due := t.due + Hour, completed := true)];
    }
  }

  /** `n` presses of "snooze". */
  function SnoozedTimes(b: Board, u: UserId, id: TaskId, n: nat): Board
    decreases n
  {
    if n == 0 then b else Snoozed(SnoozedTimes(b, u, id, n - 1), u, id)
  }

  /** The board with reminder `i` of user `u` moved `d` seconds later. */
  function Shifted(b: Board, u: UserId, i: nat, d: int): Board
    requires u in b && i < |b[u]|
  {
    b[u := b[u][i := b[u][i].(due := b[u][i].due + d)]]
  }

  /** One more "snooze" on a reminder already moved `d` seconds later moves
      it one more hour. */
  lemma SnoozeShifted(b: Board, u: UserId, id: TaskId, i: nat, d: int)
    requires u in b && FindTask(b[u], id) == Some(i)
    ensures Snoozed(Shifted(b, u, i, d), u, id) == Shifted(b, u, i, d + Hour)
  {
    var c := Shifted(b, u, i, d);
    FindSameIds(b[u], c[u], id);
    assert c[u][i := c[u][i].(due := c[u][i].due + Hour)] == b[u][i := b[u][i].(due := b[u][i].due + (d + Hour))];
  }

  /** `n` presses of "snooze" move the matched reminder `n` hours later
      and leave everything else as it was. */
  lemma {:induction false} SnoozeRepeat(b: Board, u: UserId, id: TaskId, n: nat)
    requires u in b && FindTask(b[u], id).Some?
    ensures SnoozedTimes(b, u, id, n) == Shifted(b, u, FindTask(b[u], id).value, n * Hour)
    decreases n
  {
    var i := FindTask(b[u], id).value;
    if n == 0 {
      assert b[u][i].(due := b[u][i].due + 0) == b[u][i];
      assert b[u][i := b[u][i]] == b[u];
      assert b[u := b[u]] == b;
    } else {
      SnoozeRepeat(b, u, id, n - 1);
      SnoozeShifted(b, u, id, i, (n - 1) * Hour);
      assert (n - 1) * Hour + Hour == n * Hour;
    }
  }

  /** What happens to the board: a reminder is recorded, or a user presses
      a button whose data is `data`. */
  datatype Event = Submitted(task: TaskView) | Pressed(user: UserId, data: string)

  /** An event applied to the board; a press is routed by its data. */
  function Apply(b: Board, e: Event): Board {
    match e
    case Submitted(t) => Added(b, t)
    case Pressed(u, data) =>
      match Route(data)
      case Complete(id) => Done(b, u, id)
      case Postpone(id) => Snoozed(b, u, id)
      case Ignore => b
  }

  /** Events applied in order. */
  function Run(b: Board, es: seq<Event>): Board
    decreases |es|
  {
    if es == [] then b else Run(Apply(b, es[0]), es[1..])
  }

  /** One event keeps every reminder where it is and keeps a done reminder
      done. */
  lemma ApplyKeeps(b: Board, e: Event, u: UserId, j: nat)
    requires u in b && j < |b[u]|
    ensures var c := Apply(b, e);
      u in c && j < |c[u]| && c[u][j].id == b[u][j].id
      && (b[u][j].completed ==> c[u][j].completed)
  {
    match e
    case Submitted(t) =>
    case Pressed(v, data) =>
      match Route(data)
      case Complete(id) => DoneChanges(b, v, id);
      case Postpone(id) => SnoozeChanges(b, v, id);
      case Ignore =>
  }

  /** Once a reminder is done it stays in its place and stays done, so it
      is never delivered again, whatever happens afterwards. */
  lemma {:induction false} DoneStays(b: Board, es: seq<Event>, u: UserId, j: nat)
    requires u in b && j < |b[u]| && b[u][j].completed
    ensures var c := Run(b, es);
      u in c && j < |c[u]| && c[u][j].completed && !Deliverable(c, u, j)
    decreases |es|
  {
    if es != [] {
      ApplyKeeps(b, es[0], u, j);
      DoneStays(Apply(b, es[0]), es[1..], u, j);
    }
  }

  /** The "done" button makes the reminder it was made for undeliverable
      from then on. */
  lemma DonePressed(b: Board, u: UserId, j: nat, es: seq<Event>)
    requires u in b && j < |b[u]| && FindTask(b[u], b[u][j].id) == Some(j)
    ensures !Deliverable(Run(Apply(b, Pressed(u, DoneToken(b[u][j].id))), es), u, j)
  {
    var id := b[u][j].id;
    RouteDone(id);
    DoneChanges(b, u, id);
    assert Matched(b, u, id, u, j);
    DoneStays(Apply(b, Pressed(u, DoneToken(id))), es, u, j);
  }
}
