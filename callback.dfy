/**
  The data carried by the two buttons of a delivered reminder, and how the
  button handler reads it back: `"done_" + id` marks the task done,
  `"snooze_" + id` postpones it; the handler tests the "done_" prefix first
  and cuts the id off at the fixed offsets 5 and 7.
 */
module Callback {
  import opened Text

  const DonePrefix: string := "done_"
  const SnoozePrefix: string := "snooze_"

  /** What the button handler does with the data of a pressed button. */
  datatype Action = Complete(id: string) | Postpone(id: string) | Ignore

  /** The data of the "done" button of task `id`. */
  function DoneToken(id: string): (t: string)
    ensures StartsWith(t, DonePrefix) && t[|DonePrefix|..] == id
  {
    DonePrefix + id
  }

  /** The data of the "snooze" button of task `id`. */
  function SnoozeToken(id: string): (t: string)
    ensures StartsWith(t, SnoozePrefix) && t[|SnoozePrefix|..] == id
  {
    SnoozePrefix + id
  }

  /** The branch the button handler takes on `data`, with the id it cuts
      off: `data[5:]` under the "done_" test, `data[7:]` under the
      "snooze_" test that is only reached when the first one fails. */
  function Route(data: string): (a: Action)
    ensures a.Complete? <==> StartsWith(data, DonePrefix)
    ensures a.Postpone? <==> !StartsWith(data, DonePrefix) && StartsWith(data, SnoozePrefix)
    ensures a.Complete? ==> data == DoneToken(a.id)
    ensures a.Postpone? ==> data == SnoozeToken(a.id)
  {
    if StartsWith(data, DonePrefix) then Complete(data[5..])
    else if StartsWith(data, SnoozePrefix) then Postpone(data[7..])
    else Ignore
  }

  /** The "done" button completes the task it was made for. */
  lemma RouteDone(id: string)
    ensures Route(DoneToken(id)) == Complete(id)
  {
    assert DoneToken(id)[5..] == id;
  }

  /** The "snooze" button postpones the task it was made for: its data does
      not start with "done_", so the first test lets it through. */
  lemma RouteSnooze(id: string)
    ensures Route(SnoozeToken(id)) == Postpone(id)
  {
    var t := SnoozeToken(id);
    assert t[0] == 's' && DonePrefix[0] == 'd';
    assert !StartsWith(t, DonePrefix);
    assert t[7..] == id;
  }

  /** No "done" data is the "snooze" data of any task. */
  lemma TokensDiffer(a: string, b: string)
    ensures DoneToken(a) != SnoozeToken(b)
  {
    assert DoneToken(a)[0] != SnoozeToken(b)[0];
  }

  /** Different tasks get different button data. */
  lemma TokensInjective(a: string, b: string)
    requires a != b
    ensures DoneToken(a) != DoneToken(b) && SnoozeToken(a) != SnoozeToken(b)
  {
    assert DoneToken(a)[5..] == a && DoneToken(b)[5..] == b;
    assert SnoozeToken(a)[7..] == a && SnoozeToken(b)[7..] == b;
  }
}
