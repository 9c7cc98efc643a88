/**
  The description of a reminder, taken from the request text: the text in
  front of the first time phrase, in the priority order "через", "завтра",
  "в ", lower-cased and stripped; the whole text, unchanged, when no phrase
  occurs; and a placeholder when that leaves nothing.
 */
module Describe {
  import opened Wrappers
  import opened Text

  /** The time phrases in priority order. */
  const Phrases: seq<string> := ["через", "завтра", "в "]

  /** The description used when the text in front of the phrase is empty. */
  const Placeholder: string := "Напоминание"

  /** The first phrase of `phrases`, by position, that occurs in `s`. */
  function FirstIn(s: string, phrases: seq<string>): (r: Option<nat>)
    ensures r.Some? ==> r.value < |phrases| && Contains(s, phrases[r.value])
    ensures r.Some? ==> forall j :: 0 <= j < r.value ==> !Contains(s, phrases[j])
    ensures r.None? ==> forall j :: 0 <= j < |phrases| ==> !Contains(s, phrases[j])
    decreases |phrases|
  {
    if phrases == [] then None
    else if Contains(s, phrases[0]) then Some(0)
    else
      match FirstIn(s, phrases[1..])
      case None => None
      case Some(k) => Some(k + 1)
  }

  /** What the description of `text` is. */
  function Description(text: string): (d: string)
    ensures d != []
  {
    var low := LowerStr(text);
    var kept :=
      match FirstIn(low, Phrases)
      case None => text
      case Some(k) => Strip(Split(low, Phrases[k])[0]);
    if kept == [] then Placeholder else kept
  }

  /** The extraction loop of the message handler: try the phrases in order,
      cut at the first one that occurs and stop. */
  method ExtractDescription(text: string) returns (desc: string)
    ensures desc == Description(text)
  {
    var taskText := text;
    var i := 0;
    while i < |Phrases|
      invariant 0 <= i <= |Phrases| && taskText == text
      invariant forall j :: 0 <= j < i ==> !Contains(LowerStr(text), Phrases[j])
    {
      var phrase := Phrases[i];
      if Contains(LowerStr(taskText), phrase) {
        FirstIs(LowerStr(text), i);
        taskText := Strip(Split(LowerStr(taskText), phrase)[0]);
        break;
      }
      i := i + 1;
    }
    if i == |Phrases| {
      NoneIn(LowerStr(text));
    }
    if taskText == [] {
      taskText := Placeholder;
    }
    desc := taskText;
  }

  lemma FirstIs(low: string, i: nat)
    requires i < |Phrases| && Contains(low, Phrases[i])
    requires forall j :: 0 <= j < i ==> !Contains(low, Phrases[j])
    ensures FirstIn(low, Phrases) == Some(i)
  {
    var r := FirstIn(low, Phrases);
    if r.Some? {
      assert !(r.value < i);
      assert !(i < r.value);
    }
  }

  lemma NoneIn(low: string)
    requires forall j :: 0 <= j < |Phrases| ==> !Contains(low, Phrases[j])
    ensures FirstIn(low, Phrases) == None
  {
  }

  /** When phrase `k` is the first of the phrases in the lower-cased text,
      the description is the stripped lower-case text in front of its first
      occurrence, or the placeholder when that is empty. */
  lemma DescriptionCut(text: string, k: nat)
    requires k < |Phrases|
    requires Contains(LowerStr(text), Phrases[k])
    requires forall j :: 0 <= j < k ==> !Contains(LowerStr(text), Phrases[j])
    ensures var low := LowerStr(text);
      var p := Strip(low[..IndexOf(low, Phrases[k]).value]);
      Description(text) == if p == [] then Placeholder else p
  {
    FirstIs(LowerStr(text), k);
    SplitHead(LowerStr(text), Phrases[k]);
  }

  /** Text that has none of the phrases is its own description, unless it
      is empty. */
  lemma DescriptionKeeps(text: string)
    requires forall j :: 0 <= j < |Phrases| ==> !Contains(LowerStr(text), Phrases[j])
    ensures Description(text) == if text == [] then Placeholder else text
  {
    NoneIn(LowerStr(text));
  }

  /** A cut description is stripped and holds neither the phrase it was
      cut at nor any phrase of higher priority. */
  lemma DescriptionFree(text: string, k: nat)
    requires k < |Phrases|
    requires Contains(LowerStr(text), Phrases[k])
    requires forall j :: 0 <= j < k ==> !Contains(LowerStr(text), Phrases[j])
    ensures var d := Description(text);
      d == Placeholder || (Trimmed(d) && forall j :: 0 <= j <= k ==> !Contains(d, Phrases[j]))
  {
    var low := LowerStr(text);
    var i := IndexOf(low, Phrases[k]).value;
    var p := Strip(low[..i]);
    DescriptionCut(text, k);
    HeadFree(low, k);
    StripFree(low[..i], Phrases[..k + 1]);
    if p != [] {
      assert Description(text) == p;
      forall j | 0 <= j <= k ensures !Contains(p, Phrases[j]) {
        assert Phrases[..k + 1][j] == Phrases[j];
      }
    }
  }

  /** Stripping text keeps it free of every phrase it was free of. */
  lemma StripFree(head: string, ps: seq<string>)
    requires forall j :: 0 <= j < |ps| ==> !Contains(head, ps[j])
    ensures Trimmed(Strip(head))
    ensures forall j :: 0 <= j < |ps| ==> !Contains(Strip(head), ps[j])
  {
    var p := Strip(head);
    var b := Leading(head);
    forall j | 0 <= j < |ps| ensures !Contains(p, ps[j]) {
      NotContainsSlice(head, ps[j], b, b + |p|);
    }
  }

  /** The text in front of the first occurrence of the first phrase holds
      none of the phrases up to it. */
  lemma HeadFree(low: string, k: nat)
    requires k < |Phrases| && Contains(low, Phrases[k])
    requires forall j :: 0 <= j < k ==> !Contains(low, Phrases[j])
    ensures var i := IndexOf(low, Phrases[k]).value;
      forall j :: 0 <= j <= k ==> !Contains(low[..i], Phrases[j])
  {
    var i := IndexOf(low, Phrases[k]).value;
    forall j | 0 <= j <= k ensures !Contains(low[..i], Phrases[j]) {
      if j < k {
        NotContainsSlice(low, Phrases[j], 0, i);
        assert low[0..i] == low[..i];
      } else {
        PrefixFree(low, Phrases[k], i);
      }
    }
  }
}
