/**
  The time-left arithmetic of the reminder list and of the confirmation
  sent when a reminder is recorded: whole hours and the minutes that remain
  after them, with Python's floor division and modulo (which agree with
  Dafny's for the positive divisors 3600 and 60).
 */
module Listing {
  import opened Wrappers
  import opened TimeParser
  import opened Tasks

  /** Hours and minutes shown to the user. */
  datatype Remaining = Remaining(hours: int, minutes: int)

  /** The seconds that `r` stands for. */
  function Seconds(r: Remaining): int {
    r.hours * Hour + r.minutes * Minute
  }

  /** The confirmation numbers: `diff // 3600` hours and
      `(diff % 3600) // 60` minutes, which together are `diff` rounded down
      to a whole minute. */
  function Confirmation(diff: int): Remaining {
    Remaining(diff / Hour, (diff % Hour) / Minute)
  }

  lemma ConfirmationSpec(diff: int)
    ensures var r := Confirmation(diff);
      0 <= r.minutes < 60 && Seconds(r) <= diff < Seconds(r) + Minute
  {
    var h, m := diff / Hour, (diff % Hour) / Minute;
    assert diff == h * Hour + diff % Hour;
    assert diff % Hour == m * Minute + (diff % Hour) % Minute;
  }

  /** The list's numbers as the handler computes them: each of the two
      confirmation numbers clamped at 0 on its own. For a reminder that is
      not yet due they are the confirmation numbers. */
  function TimeLeftAsWritten(left: int): (r: Remaining)
    ensures r.hours >= 0 && 0 <= r.minutes < 60
    ensures left >= 0 ==> r == Confirmation(left)
  {
    var hours := left / Hour;
    var minutes := (left % Hour) / Minute;
    Remaining(if hours < 0 then 0 else hours, if minutes < 0 then 0 else minutes)
  }

  /** A reminder ten minutes overdue is listed as due in 50 minutes: the
      hours clamp to 0 but the Euclidean remainder of -600 is 3000. */
  lemma OverdueAsWritten()
    ensures TimeLeftAsWritten(-600) == Remaining(0, 50)
  {
    assert -600 / Hour == -1 && -600 % Hour == 3000;
  }

  /** The list's numbers with the clamp applied to the time left itself:
      an overdue reminder shows 0 h 0 min, a pending one its confirmation
      numbers. */
  function TimeLeft(left: int): (r: Remaining)
    ensures r.hours >= 0 && 0 <= r.minutes < 60
    ensures left <= 0 ==> r == Remaining(0, 0)
    ensures left >= 0 ==> r == Confirmation(left)
    ensures Seconds(r) <= if left < 0 then 0 else left
  {
    ConfirmationSpec(if left < 0 then 0 else left);
    Confirmation(if left < 0 then 0 else left)
  }

  /** One line of the reminder list. */
  datatype Row = Row(number: nat, text: string, completed: bool, left: Remaining)

  /** The line of the `n`-th reminder (counting from 1) at `now`, with the
      corrected clamp `TimeLeft`. */
  function RowOf(n: nat, t: TaskView, now: int): (r: Row)
    ensures r.number == n && r.text == t.text && r.completed == t.completed
    ensures t.due <= now ==> r.left == Remaining(0, 0)
    ensures t.due >= now ==> Seconds(r.left) <= t.due - now < Seconds(r.left) + Minute
  {
    Row(n, t.text, t.completed, TimeLeft(t.due - now))
  }

  /** The reminder list of user `u`: `None` for the "no reminders" answer
      when the user has no list or an empty one, otherwise one line per
      reminder in order, numbered from 1. */
  function ListFor(b: Board, u: UserId, now: int): (r: Option<seq<Row>>)
    ensures r.None? <==> ListOf(b, u) == []
    ensures r.Some? ==> |r.value| == |b[u]|
    ensures r.Some? ==> forall i :: 0 <= i < |r.value| ==>
      r.value[i].number == i + 1 && r.value[i].text == b[u][i].text && r.value[i].completed == b[u][i].completed
    ensures r.Some? ==> forall i :: 0 <= i < |r.value| ==>
      && (b[u][i].due <= now ==> r.value[i].left == Remaining(0, 0))
      && (b[u][i].due >= now ==> Seconds(r.value[i].left) <= b[u][i].due - now < Seconds(r.value[i].left) + Minute)
  {
    var tasks := ListOf(b, u);
    if tasks == [] then None
    else Some(seq(|tasks|, i requires 0 <= i < |tasks| => RowOf(i + 1, tasks[i], now)))
  }
}
