/**
  The few Python `str` operations the reminder bot relies on, over `seq<char>`:
  `isspace`, `isdigit`, `lower`, `strip`, `in` (substring search),
  `startswith`, `split(sep)`, `split()`, `filter` and `int`.
 */
module Text {
  import opened Wrappers

  /** `str.isspace` on one character, restricted to ASCII: the space, the
      characters 0x09-0x0D and the separators 0x1C-0x1F. */
  predicate IsSpace(c: char) {
    c == ' ' || (9 <= c as int <= 13) || (28 <= c as int <= 31)
  }

  /** `str.isdigit` on one character, restricted to the ASCII digits. */
  predicate IsDigit(c: char) {
    '0' <= c <= '9'
  }

  predicate AllSpace(s: string) {
    forall i :: 0 <= i < |s| ==> IsSpace(s[i])
  }

  predicate NoSpace(s: string) {
    forall i :: 0 <= i < |s| ==> !IsSpace(s[i])
  }

  predicate AllDigits(s: string) {
    forall i :: 0 <= i < |s| ==> IsDigit(s[i])
  }

  /** `str.lower` on one character: ASCII capitals and the Cyrillic capitals
      U+0400-U+042F map to their small letters; everything else is kept. */
  function Lower(c: char): char {
    if 'A' <= c <= 'Z' then (c as int + 32) as char
    else if 0x410 <= c as int <= 0x42F then (c as int + 32) as char
    else if 0x400 <= c as int <= 0x40F then (c as int + 80) as char
    else c
  }

  /** A character that `Lower` leaves alone. */
  predicate IsLowered(c: char) {
    !('A' <= c <= 'Z') && !(0x400 <= c as int <= 0x42F)
  }

  /** `str.lower` on a string, character by character. */
  function LowerStr(s: string): (r: string)
    ensures |r| == |s|
    ensures forall i :: 0 <= i < |s| ==> r[i] == Lower(s[i])
  {
    if s == [] then [] else [Lower(s[0])] + LowerStr(s[1..])
  }

  predicate AllLowered(s: string) {
    forall i :: 0 <= i < |s| ==> IsLowered(s[i])
  }

  /** Text that is already in lower case is left as it is. */
  lemma LowerStrKeeps(s: string)
    requires AllLowered(s)
    ensures LowerStr(s) == s
  {
  }

  /** The number of whitespace characters at the start of `s`. */
  function Leading(s: string): (n: nat)
    ensures n <= |s|
    decreases |s|
  {
    if s != [] && IsSpace(s[0]) then 1 + Leading(s[1..]) else 0
  }

  /** `Leading` counts exactly the run of whitespace at the front. */
  lemma {:induction false} LeadingSpec(s: string)
    ensures forall i :: 0 <= i < Leading(s) ==> IsSpace(s[i])
    ensures Leading(s) < |s| ==> !IsSpace(s[Leading(s)])
    decreases |s|
  {
    if s != [] && IsSpace(s[0]) {
      LeadingSpec(s[1..]);
      forall i | 1 <= i < Leading(s) ensures IsSpace(s[i]) {
        assert s[i] == s[1..][i - 1];
      }
    }
  }

  /** The number of whitespace characters at the end of `s`. */
  function Trailing(s: string): (n: nat)
    ensures n <= |s|
    decreases |s|
  {
    if s != [] && IsSpace(s[|s| - 1]) then 1 + Trailing(s[..|s| - 1]) else 0
  }

  /** `Trailing` counts exactly the run of whitespace at the end. */
  lemma {:induction false} TrailingSpec(s: string)
    ensures forall i :: |s| - Trailing(s) <= i < |s| ==> IsSpace(s[i])
    ensures Trailing(s) < |s| ==> !IsSpace(s[|s| - Trailing(s) - 1])
    decreases |s|
  {
    if s != [] && IsSpace(s[|s| - 1]) {
      var s' := s[..|s| - 1];
      TrailingSpec(s');
      forall i | |s| - Trailing(s) <= i < |s| - 1 ensures IsSpace(s[i]) {
        assert s[i] == s'[i];
      }
    }
  }

  /** `str.lstrip()`. */
  function LStrip(s: string): string {
    s[Leading(s)..]
  }

  /** `str.rstrip()`. */
  function RStrip(s: string): string {
    s[..|s| - Trailing(s)]
  }

  /** Neither end of `s` is whitespace. */
  predicate Trimmed(s: string) {
    s == [] || (!IsSpace(s[0]) && !IsSpace(s[|s| - 1]))
  }

  /** `str.strip()`: the slice of `s` that starts after its leading
      whitespace, has no whitespace at either end and is followed by
      whitespace only; it is empty exactly when `s` is all whitespace. */
  function Strip(s: string): (r: string)
    ensures Leading(s) + |r| <= |s| && r == s[Leading(s)..Leading(s) + |r|]
    ensures Trimmed(r)
    ensures AllSpace(s[Leading(s) + |r|..])
    ensures r == [] <==> AllSpace(s)
  {
    StripSpec(s);
    RStrip(LStrip(s))
  }

  lemma StripSpec(s: string)
    ensures var r := RStrip(LStrip(s));
      && r == s[Leading(s)..Leading(s) + |r|]
      && Trimmed(r)
      && AllSpace(s[Leading(s) + |r|..])
      && (r == [] <==> AllSpace(s))
  {
    var t := LStrip(s);
    var r := RStrip(t);
    assert AllSpace(s[Leading(s) + |r|..]) by {
      TrailingSpec(t);
      var z := s[Leading(s) + |r|..];
      forall i | 0 <= i < |z| ensures IsSpace(z[i]) {
        assert z[i] == t[|r| + i];
      }
    }
    assert Trimmed(r) by {
      LeadingSpec(s);
      TrailingSpec(t);
      if r != [] {
        assert r[0] == t[0] && t[0] == s[Leading(s)];
        assert r[|r| - 1] == t[|t| - Trailing(t) - 1];
      }
    }
    assert r == [] <==> AllSpace(s) by {
      LeadingSpec(s);
      TrailingSpec(t);
      if t != [] {
        assert t[0] == s[Leading(s)];
      }
    }
  }

  /** Text with no whitespace at either end is left as it is. */
  lemma StripTrimmed(s: string)
    requires Trimmed(s)
    ensures Strip(s) == s
  {
    assert Leading(s) == 0;
    assert Trailing(s) == 0;
  }

  /** `p` occurs in `s` at index `i`. */
  predicate OccursAt(s: string, p: string, i: int) {
    0 <= i && i + |p| <= |s| && s[i..i + |p|] == p
  }

  lemma OccursAtTail(s: string, p: string, j: int)
    requires s != [] && j >= 1
    ensures OccursAt(s, p, j) <==> OccursAt(s[1..], p, j - 1)
  {
    if j + |p| <= |s| {
      assert s[1..][j - 1..j - 1 + |p|] == s[j..j + |p|];
    }
  }

  /** The index of the first occurrence of `p` in `s`, if there is one. */
  function IndexOf(s: string, p: string): (r: Option<nat>)
    ensures r.Some? ==> OccursAt(s, p, r.value)
    ensures r.Some? ==> forall j :: 0 <= j < r.value ==> !OccursAt(s, p, j)
    ensures r.None? ==> forall j :: 0 <= j ==> !OccursAt(s, p, j)
    decreases |s|
  {
    if |s| < |p| then None
    else if s[..|p|] == p then Some(0)
    else
      var r := IndexOf(s[1..], p);
      assert forall j :: j >= 1 ==> (OccursAt(s, p, j) <==> OccursAt(s[1..], p, j - 1)) by {
        forall j | j >= 1 ensures OccursAt(s, p, j) <==> OccursAt(s[1..], p, j - 1) {
          OccursAtTail(s, p, j);
        }
      }
      match r
      case None => None
      case Some(i) => Some(i + 1)
  }

  lemma OccursAtJoin(x: string, y: string)
    ensures OccursAt(x + y, y, |x|)
  {
    assert (x + y)[|x|..|x| + |y|] == y;
  }

  lemma OccursAtExtend(a: string, b: string, p: string, i: int)
    requires OccursAt(a, p, i)
    ensures OccursAt(a + b, p, i)
  {
    assert (a + b)[i..i + |p|] == a[i..i + |p|];
  }

  lemma OccursAtShorter(s: string, p: string, k: nat, i: int)
    requires OccursAt(s, p, i) && k <= |p|
    ensures OccursAt(s, p[..k], i)
  {
    assert s[i..i + k] == s[i..i + |p|][..k];
  }

  /** Python's `p in s` for strings. */
  predicate Contains(s: string, p: string) {
    IndexOf(s, p).Some?
  }

  lemma ContainsAt(s: string, p: string, i: int)
    requires OccursAt(s, p, i)
    ensures Contains(s, p)
  {
  }

  /** `p` is found at `i` and nowhere before: `IndexOf` then returns `i`. */
  lemma IndexOfIs(s: string, p: string, i: nat)
    requires OccursAt(s, p, i)
    requires forall j :: 0 <= j < i ==> !OccursAt(s, p, j)
    ensures IndexOf(s, p) == Some(i)
  {
    var r := IndexOf(s, p);
    assert r.Some? by {
      assert OccursAt(s, p, i);
    }
    var v := r.value;
    assert OccursAt(s, p, v);
    assert !(v < i);
    assert !(i < v);
  }

  /** A string that lacks some character of `p` cannot contain `p`. */
  lemma NotContains(s: string, p: string, k: nat)
    requires k < |p|
    requires forall i :: 0 <= i < |s| ==> s[i] != p[k]
    ensures !Contains(s, p)
  {
    forall j | 0 <= j ensures !OccursAt(s, p, j) {
      if j + |p| <= |s| {
        assert s[j..j + |p|][k] != p[k];
      }
    }
  }

  /** The same, with the missing character stated by membership. */
  lemma NotContainsChar(s: string, p: string, k: nat)
    requires k < |p| && p[k] !in s
    ensures !Contains(s, p)
  {
    NotContains(s, p, k);
  }

  /** Two texts without `p` joined at a seam no occurrence can straddle
      (the last character of `a` is none of `p`'s characters but the last)
      have no `p` either. */
  lemma NotContainsJoin(a: string, b: string, p: string)
    requires p != [] && !Contains(a, p) && !Contains(b, p)
    requires a != [] ==> forall k :: 0 <= k < |p| - 1 ==> p[k] != a[|a| - 1]
    ensures !Contains(a + b, p)
  {
    var s := a + b;
    forall j | 0 <= j ensures !OccursAt(s, p, j) {
      if j + |p| <= |s| {
        if j + |p| <= |a| {
          assert s[j..j + |p|] == a[j..j + |p|];
          assert !OccursAt(a, p, j);
        } else if j < |a| {
          assert s[j..j + |p|][|a| - 1 - j] == a[|a| - 1];
        } else {
          assert s[j..j + |p|] == b[j - |a|..j - |a| + |p|];
          assert !OccursAt(b, p, j - |a|);
        }
      }
    }
  }

  /** A slice of text without `p` has no `p` either. */
  lemma NotContainsSlice(s: string, p: string, b: nat, e: nat)
    requires b <= e <= |s| && !Contains(s, p)
    ensures !Contains(s[b..e], p)
  {
    forall j | 0 <= j ensures !OccursAt(s[b..e], p, j) {
      if j + |p| <= e - b {
        var u := s[b..e][j..j + |p|];
        var v := s[b + j..b + j + |p|];
        forall m | 0 <= m < |p| ensures u[m] == v[m] {
        }
        assert u == v;
        assert !OccursAt(s, p, b + j);
      }
    }
  }

  /** The first piece of a split on a separator that occurs is the text
      before its first occurrence. */
  lemma SplitHead(s: string, sep: string)
    requires sep != [] && Contains(s, sep)
    ensures Split(s, sep)[0] == s[..IndexOf(s, sep).value]
  {
  }

  /** `s.startswith(p)`. */
  predicate StartsWith(s: string, p: string) {
    |p| <= |s| && s[..|p|] == p
  }

  /** Text without `p` does not start with `p`. */
  lemma NotStartsWith(s: string, p: string)
    requires !Contains(s, p)
    ensures !StartsWith(s, p)
  {
    assert !OccursAt(s, p, 0);
  }

  /** Text without a suffix of `p` does not contain `p`. */
  lemma NotContainsWider(s: string, p: string, k: nat)
    requires k <= |p| && !Contains(s, p[k..])
    ensures !Contains(s, p)
  {
    forall j | 0 <= j ensures !OccursAt(s, p, j) {
      if j + |p| <= |s| {
        assert !OccursAt(s, p[k..], j + k);
        assert s[j + k..j + k + |p[k..]|] == s[j..j + |p|][k..];
      }
    }
  }

  /** When `pre` does not contain `p`, and its last character is none of
      `p`'s characters but the last (so no occurrence can start in `pre` and
      end past it), the first occurrence of `p` in `pre + p + rest` is the one
      right after `pre`. */
  lemma IndexOfAfter(pre: string, p: string, rest: string)
    requires p != [] && !Contains(pre, p)
    requires pre != [] ==> forall k :: 0 <= k < |p| - 1 ==> p[k] != pre[|pre| - 1]
    ensures IndexOf(pre + p + rest, p) == Some(|pre|)
  {
    var s := pre + p + rest;
    assert s[|pre|..|pre| + |p|] == p;
    forall j | 0 <= j < |pre| ensures !OccursAt(s, p, j) {
      if j + |p| <= |pre| {
        assert s[j..j + |p|] == pre[j..j + |p|];
        assert !OccursAt(pre, p, j);
      } else if j + |p| <= |s| {
        assert s[j..j + |p|][|pre| - 1 - j] == pre[|pre| - 1];
      }
    }
    IndexOfIs(s, p, |pre|);
  }

  /** `s.split(sep)` with a non-empty separator: the pieces between the
      occurrences of `sep` found by scanning from the left. The first piece is
      the text before the first occurrence, or all of `s` when there is none. */
  function Split(s: string, sep: string): (parts: seq<string>)
    requires sep != []
    ensures |parts| >= 1
    decreases |s|
  {
    match IndexOf(s, sep)
    case None => [s]
    case Some(i) => [s[..i]] + Split(s[i + |sep|..], sep)
  }

  /** The first piece of a split is the text before the first occurrence of
      the separator; there is only one piece when the separator is absent. */
  lemma SplitFirst(s: string, sep: string)
    requires sep != []
    ensures var head := Split(s, sep)[0];
      && |head| <= |s| && head == s[..|head|]
      && (forall j :: 0 <= j < |head| ==> !OccursAt(s, sep, j))
      && (Contains(s, sep) <==> |Split(s, sep)| > 1)
      && (Contains(s, sep) ==> OccursAt(s, sep, |head|))
      && (!Contains(s, sep) ==> Split(s, sep) == [s])
  {
  }

  /** `sep.join(parts)`. */
  function Join(parts: seq<string>, sep: string): string
    requires |parts| >= 1
    decreases |parts|
  {
    if |parts| == 1 then parts[0] else parts[0] + sep + Join(parts[1..], sep)
  }

  /** Splitting and joining again gives back the text. */
  lemma {:induction false} SplitJoin(s: string, sep: string)
    requires sep != []
    ensures Join(Split(s, sep), sep) == s
    decreases |s|
  {
    match IndexOf(s, sep)
    case None =>
    case Some(i) =>
      var rest := s[i + |sep|..];
      var tail := Split(rest, sep);
      SplitJoin(rest, sep);
      assert Split(s, sep) == [s[..i]] + tail;
      JoinCons(s[..i], tail, sep);
      assert s[i..i + |sep|] == sep;
      Concat3(s, i, i + |sep|);
  }

  lemma JoinCons(a: string, tail: seq<string>, sep: string)
    requires |tail| >= 1
    ensures Join([a] + tail, sep) == a + sep + Join(tail, sep)
  {
    assert ([a] + tail)[1..] == tail;
  }

  /** Text holding the separator once, with no occurrence straddling the
      left seam, splits into the two sides. */
  lemma SplitOnce(a: string, sep: string, b: string)
    requires sep != [] && !Contains(a, sep) && !Contains(b, sep)
    requires a != [] ==> forall k :: 0 <= k < |sep| - 1 ==> sep[k] != a[|a| - 1]
    ensures Split(a + sep + b, sep) == [a, b]
  {
    var s := a + sep + b;
    IndexOfAfter(a, sep, b);
    assert s[..|a|] == a;
    assert s[|a| + |sep|..] == b;
    assert Split(b, sep) == [b];
  }

  lemma Concat3(s: string, i: nat, j: nat)
    requires i <= j <= |s|
    ensures s[..i] + s[i..j] + s[j..] == s
  {
  }

  /** No piece of a split contains the separator. */
  lemma {:induction false} SplitPiecesFree(s: string, sep: string, k: nat)
    requires sep != []
    requires k < |Split(s, sep)|
    ensures !Contains(Split(s, sep)[k], sep)
    decreases |s|
  {
    match IndexOf(s, sep)
    case None =>
    case Some(i) =>
      if k == 0 {
        PrefixFree(s, sep, i);
      } else {
        SplitPiecesFree(s[i + |sep|..], sep, k - 1);
      }
  }

  /** The text before the first occurrence does not contain `p`. */
  lemma PrefixFree(s: string, p: string, i: nat)
    requires p != [] && i <= |s|
    requires forall j :: 0 <= j < i ==> !OccursAt(s, p, j)
    ensures !Contains(s[..i], p)
  {
    forall j | 0 <= j ensures !OccursAt(s[..i], p, j) {
      if j + |p| <= i {
        assert s[..i][j..j + |p|] == s[j..j + |p|];
        assert j < i && !OccursAt(s, p, j);
      }
    }
  }

  /** The number of non-whitespace characters just before position `e`. */
  function WordBefore(s: string, e: nat): (n: nat)
    requires e <= |s|
    ensures n <= e
    decreases e
  {
    if e > 0 && !IsSpace(s[e - 1]) then 1 + WordBefore(s, e - 1) else 0
  }

  /** `WordBefore` counts exactly the run of non-whitespace ending at `e`. */
  lemma {:induction false} WordBeforeSpec(s: string, e: nat)
    requires e <= |s|
    ensures forall i :: e - WordBefore(s, e) <= i < e ==> !IsSpace(s[i])
    ensures WordBefore(s, e) < e ==> IsSpace(s[e - WordBefore(s, e) - 1])
    decreases e
  {
    if e > 0 && !IsSpace(s[e - 1]) {
      WordBeforeSpec(s, e - 1);
    }
  }

  /** A run of non-whitespace from `b` to `e` with whitespace (or the start of
      `s`) before it is the word before `e`. */
  lemma {:induction false} WordBeforeRun(s: string, b: nat, e: nat)
    requires b <= e <= |s|
    requires forall i :: b <= i < e ==> !IsSpace(s[i])
    requires b == 0 || IsSpace(s[b - 1])
    ensures WordBefore(s, e) == e - b
    decreases e
  {
    if e > b {
      WordBeforeRun(s, b, e - 1);
    }
  }

  /** `s.split()[-1]`: the last maximal run of non-whitespace characters, or
      `None` where Python raises `IndexError` because `s` has no words at all. */
  function LastWord(s: string): Option<string> {
    var e := |s| - Trailing(s);
    if e == 0 then None else Some(s[e - WordBefore(s, e)..e])
  }

  /** Text that is all whitespace has no last word. */
  lemma LastWordNone(s: string)
    requires AllSpace(s)
    ensures LastWord(s) == None
  {
    TrailingSpec(s);
  }

  /** The last word is a non-empty whitespace-free slice `s[b..e]` with only
      whitespace after it and whitespace (or the start of `s`) before it. */
  lemma LastWordSpec(s: string)
    requires !AllSpace(s)
    ensures LastWord(s).Some?
    ensures var w := LastWord(s).value;
      var e := |s| - Trailing(s);
      && |w| <= e && w == s[e - |w|..e]
      && w != [] && NoSpace(w)
      && AllSpace(s[e..])
      && (e == |w| || IsSpace(s[e - |w| - 1]))
  {
    var e := |s| - Trailing(s);
    TrailingLess(s);
    var n := WordBefore(s, e);
    assert n > 0;
    WordNoSpace(s, e);
    SpaceAfter(s, e);
    WordBeforeSpec(s, e);
  }

  /** The word before `e` has no whitespace in it. */
  lemma WordNoSpace(s: string, e: nat)
    requires e <= |s|
    ensures NoSpace(s[e - WordBefore(s, e)..e])
  {
    WordBeforeSpec(s, e);
    NoSpaceSlice(s, e - WordBefore(s, e), e);
  }

  /** Whitespace from `e` on makes the rest of `s` all whitespace. */
  lemma SpaceAfter(s: string, e: nat)
    requires e <= |s| && forall i :: e <= i < |s| ==> IsSpace(s[i])
    ensures AllSpace(s[e..])
  {
    AllSpaceSlice(s, e, |s|);
    assert s[e..|s|] == s[e..];
  }



  /** Text with a word in it does not end in whitespace only, and its
      last non-whitespace character sits just before the trailing run. */
  lemma TrailingLess(s: string)
    requires !AllSpace(s)
    ensures Trailing(s) < |s| && !IsSpace(s[|s| - Trailing(s) - 1])
    ensures forall i :: |s| - Trailing(s) <= i < |s| ==> IsSpace(s[i])
  {
    var i :| 0 <= i < |s| && !IsSpace(s[i]);
    TrailingSpec(s);
    assert i < |s| - Trailing(s);
  }

  lemma NoSpaceSlice(s: string, b: nat, e: nat)
    requires b <= e <= |s|
    requires forall i :: b <= i < e ==> !IsSpace(s[i])
    ensures NoSpace(s[b..e])
  {
    forall i | 0 <= i < e - b ensures !IsSpace(s[b..e][i]) {
      assert s[b..e][i] == s[b + i];
    }
  }

  lemma AllSpaceSlice(s: string, b: nat, e: nat)
    requires b <= e <= |s|
    requires forall i :: b <= i < e ==> IsSpace(s[i])
    ensures AllSpace(s[b..e])
  {
    forall i | 0 <= i < e - b ensures IsSpace(s[b..e][i]) {
      assert s[b..e][i] == s[b + i];
    }
  }

  lemma TrailingAppend(x: string, z: string)
    requires AllSpace(z)
    ensures Trailing(x + z) == Trailing(x) + |z|
    decreases |z|
  {
    if z == [] {
      assert x + z == x;
    } else {
      var z' := z[..|z| - 1];
      assert (x + z)[..|x + z| - 1] == x + z';
      assert (x + z)[|x + z| - 1] == z[|z| - 1];
      TrailingAppend(x, z');
    }
  }

  /** A word preceded by whitespace (or nothing) and followed only by
      whitespace is the last word. */
  lemma LastWordOf(a: string, w: string, z: string)
    requires a == [] || IsSpace(a[|a| - 1])
    requires w != [] && NoSpace(w) && AllSpace(z)
    ensures LastWord(a + w + z) == Some(w)
  {
    var s := a + w + z;
    TrailingAppend(a + w, z);
    assert (a + w)[|a + w| - 1] == w[|w| - 1];
    assert Trailing(a + w) == 0;
    var e := |a| + |w|;
    forall i | |a| <= i < e ensures !IsSpace(s[i]) {
      assert s[i] == w[i - |a|];
    }
    if a != [] {
      assert s[|a| - 1] == a[|a| - 1];
    }
    WordBeforeRun(s, |a|, e);
    assert s[|a|..e] == w;
  }


  /** Python's `filter(f, s)` joined back into a string. */
  function Filter(f: char -> bool, s: string): (r: string)
    ensures |r| <= |s|
    ensures forall i :: 0 <= i < |r| ==> f(r[i])
    decreases |s|
  {
    if s == [] then [] else (if f(s[0]) then [s[0]] else []) + Filter(f, s[1..])
  }

  lemma FilterAppend(f: char -> bool, a: string, b: string)
    ensures Filter(f, a + b) == Filter(f, a) + Filter(f, b)
    decreases |a|
  {
    if a == [] {
      assert a + b == b;
    } else {
      assert (a + b)[1..] == a[1..] + b;
      assert (a + b)[0] == a[0];
      FilterAppend(f, a[1..], b);
    }
  }

  lemma FilterNone(f: char -> bool, s: string)
    requires forall i :: 0 <= i < |s| ==> !f(s[i])
    ensures Filter(f, s) == []
    decreases |s|
  {
    if s != [] {
      FilterNone(f, s[1..]);
    }
  }

  lemma FilterAll(f: char -> bool, s: string)
    requires forall i :: 0 <= i < |s| ==> f(s[i])
    ensures Filter(f, s) == s
    decreases |s|
  {
    if s != [] {
      FilterAll(f, s[1..]);
    }
  }

  /** The value of an ASCII decimal digit string. */
  function Value(s: string): nat
    requires AllDigits(s)
    decreases |s|
  {
    if s == [] then 0 else Value(s[..|s| - 1]) * 10 + (s[|s| - 1] as int - '0' as int)
  }

  /** `int(s)` on the strings the bot hands it: a non-empty run of ASCII
      digits has its decimal value; anything else, the empty string first of
      all, raises ValueError (here `None`). */
  function IntOf(s: string): (r: Option<nat>)
    ensures r.Some? <==> s != [] && AllDigits(s)
  {
    if s == [] || !AllDigits(s) then None else Some(Value(s))
  }

  /** The decimal rendering of `n`, without leading zeros. */
  function Show(n: nat): (s: string)
    ensures s != [] && AllDigits(s)
    decreases n
  {
    if n < 10 then [('0' as int + n) as char]
    else Show(n / 10) + [('0' as int + n % 10) as char]
  }

  /** Reading back a rendered number gives the number. */
  lemma IntOfShow(n: nat)
    ensures IntOf(Show(n)) == Some(n)
  {
    ShowValue(n);
  }

  /** Reading back a rendered number gives the number. */
  lemma {:induction false} ShowValue(n: nat)
    ensures Value(Show(n)) == n
    decreases n
  {
    if n >= 10 {
      ShowValue(n / 10);
      var s := Show(n);
      assert s[..|s| - 1] == Show(n / 10);
    }
  }
}
