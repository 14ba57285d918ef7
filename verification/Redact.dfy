/** What a log line never shows: onion addresses and the listener secret, taken out of any text. */
module Redact {
  import opened Wrappers
  import opened RelayList

  const ONION := ".onion"
  const ONION_OUT := "<onion>"
  const LISTENER_SECRET_ARG := "listener-secret="
  const SECRET_OUT := "<redacted>"

  // ---------------------------------------------------------------- finding text in text

  predicate At(s: string, i: int, mark: string) {
    0 <= i && i + |mark| <= |s| && s[i..i + |mark|] == mark
  }

  ghost predicate Clear(s: string, mark: string) {
    forall i :: !At(s, i, mark)
  }

  /** The first place from `i` on that `mark` is in `s`. */
  function FindFrom(s: string, mark: string, i: nat): (r: Option<nat>)
    decreases |s| - i
  {
    if At(s, i, mark) then Some(i) else if i >= |s| then None else FindFrom(s, mark, i + 1)
  }

  function Find(s: string, mark: string): Option<nat> {
    FindFrom(s, mark, 0)
  }

  lemma AtShift(s: string, i: int, mark: string, k: nat)
    requires k <= |s| && i >= k
    ensures At(s, i, mark) <==> At(s[k..], i - k, mark)
  {
    if i + |mark| <= |s| {
      assert s[k..][i - k..i - k + |mark|] == s[i..i + |mark|];
    }
  }

  lemma {:induction false} FindFromExact(s: string, mark: string, i: nat)
    ensures FindFrom(s, mark, i).Some? ==>
              var k := FindFrom(s, mark, i).value;
              i <= k && At(s, k, mark) && forall j :: i <= j < k ==> !At(s, j, mark)
    ensures FindFrom(s, mark, i).None? ==> forall j :: i <= j ==> !At(s, j, mark)
    decreases |s| - i
  {
    if !At(s, i, mark) && i < |s| {
      FindFromExact(s, mark, i + 1);
    }
  }

  lemma FindExact(s: string, mark: string)
    ensures Find(s, mark).Some? ==>
              && At(s, Find(s, mark).value, mark)
              && forall j :: 0 <= j < Find(s, mark).value ==> !At(s, j, mark)
    ensures Find(s, mark).None? ==> Clear(s, mark)
  {
    FindFromExact(s, mark, 0);
  }

  lemma FindIs(s: string, mark: string, i: nat)
    requires At(s, i, mark) && forall j :: 0 <= j < i ==> !At(s, j, mark)
    ensures Find(s, mark) == Some(i)
  {
    FindExact(s, mark);
  }

  /** A character that is not in the mark keeps it from lying across the seam. */
  predicate Seam(a: string, b: string, mark: string) {
    a == "" || b == "" || a[|a| - 1] !in mark || b[0] !in mark
  }

  lemma Across(a: string, b: string, i: int, mark: string)
    requires At(a + b, i, mark) && i < |a| < i + |mark|
    ensures a[|a| - 1] in mark && b[0] in mark
  {
    assert mark[|a| - 1 - i] == (a + b)[|a| - 1] == a[|a| - 1];
    assert mark[|a| - i] == (a + b)[|a|] == b[0];
  }

  lemma AtJoin(a: string, b: string, i: int, mark: string)
    requires Seam(a, b, mark) && mark != "" && At(a + b, i, mark)
    ensures At(a, i, mark) || (i >= |a| && At(b, i - |a|, mark))
  {
    var s := a + b;
    if i + |mark| <= |a| {
      assert a[i..i + |mark|] == s[i..i + |mark|];
    } else if i >= |a| {
      AtShift(s, i, mark, |a|);
      assert s[|a|..] == b;
    } else {
      Across(a, b, i, mark);
    }
  }

  lemma AtHolds(s: string, i: int, mark: string, k: nat)
    requires At(s, i, mark) && k < |mark|
    ensures s[i + k] == mark[k]
  {
    assert s[i..i + |mark|][k] == s[i + k];
  }

  lemma ClearWithout(s: string, mark: string, c: char)
    requires c in mark && c !in s
    ensures Clear(s, mark)
  {
    var k :| 0 <= k < |mark| && mark[k] == c;
    forall i ensures !At(s, i, mark) {
      if At(s, i, mark) {
        AtHolds(s, i, mark, k);
      }
    }
  }

  lemma ClearSuffix(s: string, k: nat, mark: string)
    requires k <= |s| && Clear(s, mark)
    ensures Clear(s[k..], mark)
  {
    forall i ensures !At(s[k..], i, mark) {
      if At(s[k..], i, mark) {
        AtShift(s, i + k, mark, k);
      }
    }
  }

  lemma ClearJoin(a: string, b: string, mark: string)
    requires Seam(a, b, mark) && mark != "" && Clear(a, mark) && Clear(b, mark)
    ensures Clear(a + b, mark)
  {
    forall i ensures !At(a + b, i, mark) {
      if At(a + b, i, mark) {
        AtJoin(a, b, i, mark);
      }
    }
  }

  lemma ClearPrefix(s: string, n: nat, mark: string)
    requires n <= |s| && forall j :: 0 <= j && j + |mark| <= n ==> !At(s, j, mark)
    ensures Clear(s[..n], mark)
  {
    forall i ensures !At(s[..n], i, mark) {
      if 0 <= i && i + |mark| <= n {
        assert s[..n][i..i + |mark|] == s[i..i + |mark|];
        assert !At(s, i, mark);
      }
    }
  }

  // ---------------------------------------------------------------- onion addresses

  predicate IsBase32(c: char) {
    'a' <= c <= 'z' || '2' <= c <= '7'
  }

  /** Where the base32 label that ends the first `n` characters starts. */
  function LabelStart(s: string, n: nat): (k: nat)
    requires n <= |s|
    ensures k <= n
  {
    if n > 0 && IsBase32(s[n - 1]) then LabelStart(s, n - 1) else n
  }

  /** `s` without the base32 label it ends with. */
  function Unlabelled(s: string): string {
    s[..LabelStart(s, |s|)]
  }

  /** `s` with every `mark` and the base32 label before it replaced by `out`. */
  function MarksOut(s: string, mark: string, out: string): string
    requires mark != ""
    decreases |s|, 1
  {
    FindExact(s, mark);
    var i := Find(s, mark);
    if i.None? then s else MarkOut(s, mark, out, i.value)
  }

  /** The mark at `k` replaced, and every one after it. */
  function MarkOut(s: string, mark: string, out: string, k: nat): string
    requires mark != "" && k + |mark| <= |s|
    decreases |s|, 0
  {
    Unlabelled(s[..k]) + out + MarksOut(s[k + |mark|..], mark, out)
  }

  function OnionsOut(s: string): string {
    MarksOut(s, ONION, ONION_OUT)
  }

  /** The text between the marks. */
  function Split(s: string, mark: string): (pieces: seq<string>)
    requires mark != ""
    ensures pieces != []
    decreases |s|, 1
  {
    FindExact(s, mark);
    var i := Find(s, mark);
    if i.None? then [s] else SplitOut(s, mark, i.value)
  }

  function SplitOut(s: string, mark: string, k: nat): (pieces: seq<string>)
    requires mark != "" && k + |mark| <= |s|
    ensures pieces != []
    decreases |s|, 0
  {
    [s[..k]] + Split(s[k + |mark|..], mark)
  }

  function Joined(pieces: seq<string>, mark: string): string
    requires pieces != []
  {
    if |pieces| == 1 then pieces[0] else pieces[0] + mark + Joined(pieces[1..], mark)
  }

  function UnlabelledAll(pieces: seq<string>): (r: seq<string>)
    requires pieces != []
    ensures |r| == |pieces|
  {
    if |pieces| == 1 then pieces else [Unlabelled(pieces[0])] + UnlabelledAll(pieces[1..])
  }

  /** `out` is `s` with each mark, and the label before it, replaced. */
  ghost predicate KeepsText(s: string, mark: string, mask: string, pieces: seq<string>, out: string)
    requires pieces != []
  {
    Joined(pieces, mark) == s && out == Joined(UnlabelledAll(pieces), mask)
  }

  lemma {:induction false} MarksOutKeeps(s: string, mark: string, mask: string)
    requires mark != ""
    ensures KeepsText(s, mark, mask, Split(s, mark), MarksOut(s, mark, mask))
    decreases |s|
  {
    FindExact(s, mark);
    if Find(s, mark).Some? {
      var k := Find(s, mark).value;
      MarksOutKeeps(s[k + |mark|..], mark, mask);
      OneMoreMark(s, mark, mask, k);
    }
  }

  lemma OneMoreMark(s: string, mark: string, mask: string, k: nat)
    requires mark != "" && At(s, k, mark)
    requires KeepsText(s[k + |mark|..], mark, mask, Split(s[k + |mark|..], mark), MarksOut(s[k + |mark|..], mark, mask))
    ensures KeepsText(s, mark, mask, SplitOut(s, mark, k), MarkOut(s, mark, mask, k))
  {
    var front, rest := s[..k], s[k + |mark|..];
    var pieces := Split(rest, mark);
    JoinedFirst(front, pieces, mark);
    JoinedFirst(Unlabelled(front), UnlabelledAll(pieces), mask);
    UnlabelledFirst(front, pieces);
    assert s == front + mark + rest;
  }

  lemma JoinedFirst(piece: string, pieces: seq<string>, mark: string)
    requires pieces != []
    ensures Joined([piece] + pieces, mark) == piece + mark + Joined(pieces, mark)
  {
    assert ([piece] + pieces)[1..] == pieces;
  }

  lemma UnlabelledFirst(piece: string, pieces: seq<string>)
    requires pieces != []
    ensures UnlabelledAll([piece] + pieces) == [Unlabelled(piece)] + UnlabelledAll(pieces)
  {
    assert ([piece] + pieces)[1..] == pieces;
  }

  /** All text is kept in order but for the marks and the base32 label before each. */
  lemma OnionsOutKeeps(s: string)
    ensures KeepsText(s, ONION, ONION_OUT, Split(s, ONION), OnionsOut(s))
  {
    MarksOutKeeps(s, ONION, ONION_OUT);
  }

  lemma {:induction false} LabelStartExact(s: string, n: nat)
    requires n <= |s|
    ensures LabelStart(s, n) == 0 || !IsBase32(s[LabelStart(s, n) - 1])
    ensures forall k :: LabelStart(s, n) <= k < n ==> IsBase32(s[k])
  {
    if n > 0 && IsBase32(s[n - 1]) {
      LabelStartExact(s, n - 1);
    }
  }

  /** What is taken off is the whole label, and nothing but a label. */
  lemma UnlabelledExact(s: string)
    ensures Unlabelled(s) <= s
    ensures Unlabelled(s) == "" || !IsBase32(Unlabelled(s)[|Unlabelled(s)| - 1])
    ensures forall k :: |Unlabelled(s)| <= k < |s| ==> IsBase32(s[k])
  {
    LabelStartExact(s, |s|);
  }

  lemma FirstPieceClear(s: string, mark: string, i: nat, n: nat)
    requires mark != "" && Find(s, mark) == Some(i) && n <= i
    ensures i <= |s| && Clear(s[..n], mark)
  {
    FindExact(s, mark);
    ClearPrefix(s, n, mark);
  }

  /** `out` can stand for a label and `mark`: no mark comes of it, and no label runs into it. */
  ghost predicate Replaces(mark: string, out: string) {
    && mark != "" && out != "" && Clear(out, mark)
    && out[0] !in mark && out[|out| - 1] !in mark && !IsBase32(out[|out| - 1])
  }

  lemma OnionReplaces()
    ensures Replaces(ONION, ONION_OUT)
  {
    ClearWithout(ONION_OUT, ONION, '.');
  }

  lemma {:induction false} NoMarksLeft(s: string, mark: string, out: string)
    requires Replaces(mark, out)
    ensures Clear(MarksOut(s, mark, out), mark)
    decreases |s|
  {
    FindExact(s, mark);
    var i := Find(s, mark);
    if i.Some? {
      var front, rest := Unlabelled(s[..i.value]), s[i.value + |mark|..];
      NoMarksLeft(rest, mark, out);
      FirstPieceClear(s, mark, i.value, |front|);
      assert front == s[..|front|];
      ClearAround(front, out, MarksOut(rest, mark, out), mark);
    }
  }

  // ---------------------------------------------------------------- the listener secret

  predicate IsSeparator(c: char) {
    IsWhitespace(c) || c == '"' || c == '\'' || c == ']' || c == ')' || c == ','
  }

  function SeparatorFrom(s: string, i: nat): (n: nat)
    requires i <= |s|
    ensures i <= n <= |s| && (n < |s| ==> IsSeparator(s[n]))
    ensures forall k :: i <= k < n ==> !IsSeparator(s[k])
    decreases |s| - i
  {
    if i == |s| || IsSeparator(s[i]) then i else SeparatorFrom(s, i + 1)
  }

  /** How far a value runs: to the next separator, or the end. */
  function ValueLength(s: string): (n: nat)
    ensures n <= |s| && (n < |s| ==> IsSeparator(s[n]))
    ensures forall k :: 0 <= k < n ==> !IsSeparator(s[k])
  {
    SeparatorFrom(s, 0)
  }

  /** `s` with the value after every `arg` replaced by `out`. */
  function ValuesOut(s: string, arg: string, out: string): string
    requires arg != ""
    decreases |s|
  {
    FindExact(s, arg);
    var i := Find(s, arg);
    if i.None? then s
    else
      var value := i.value + |arg|;
      s[..value] + out + ValuesOut(s[value + ValueLength(s[value..])..], arg, out)
  }

  function SecretsOut(s: string): string {
    ValuesOut(s, LISTENER_SECRET_ARG, SECRET_OUT)
  }

  /** Every `arg` is followed by `out`, and that by a separator or the end. */
  ghost predicate Hidden(s: string, arg: string, out: string) {
    forall i :: At(s, i, arg) ==> HiddenAt(s, i + |arg|, out)
  }

  predicate HiddenAt(s: string, value: int, out: string) {
    At(s, value, out) && (value + |out| == |s| || IsSeparator(s[value + |out|]))
  }

  predicate StartsApart(s: string) {
    s == "" || IsSeparator(s[0])
  }

  /**
   * `out` can stand for a value of `arg`: neither meets the other or a separator, and `arg` ends like no part of it.
   */
  ghost predicate Stands(arg: string, out: string) {
    && arg != "" && out != "" && Clear(out, arg)
    && out[0] !in arg && out[|out| - 1] !in arg
    && (forall k :: 0 <= k < |arg| - 1 ==> arg[k] != arg[|arg| - 1])
    && (forall c :: c in arg || c in out ==> !IsSeparator(c))
  }

  lemma SecretStands()
    ensures Stands(LISTENER_SECRET_ARG, SECRET_OUT)
  {
    ClearWithout(SECRET_OUT, LISTENER_SECRET_ARG, '=');
    ListenerHasNoSeparator();
  }

  lemma ListenerHasNoSeparator()
    ensures forall c :: c in LISTENER_SECRET_ARG || c in SECRET_OUT ==> !IsSeparator(c)
  {
    assert forall c :: c in LISTENER_SECRET_ARG || c in SECRET_OUT ==> '-' <= c <= '>' || 'a' <= c <= 'z';
  }

  lemma FindAt(s: string, arg: string)
    requires Find(s, arg).Some?
    ensures At(s, Find(s, arg).value, arg)
  {
    FindExact(s, arg);
  }

  function AfterValue(s: string, start: nat): string
    requires start <= |s|
  {
    s[start + ValueLength(s[start..])..]
  }

  lemma ValuesOutStep(s: string, arg: string, out: string)
    requires arg != "" && Find(s, arg).Some?
    ensures var start := Find(s, arg).value + |arg|;
      start <= |s| && ValuesOut(s, arg, out) == s[..start] + out + ValuesOut(AfterValue(s, start), arg, out)
  {
    FindAt(s, arg);
  }

  lemma AfterValueStarts(s: string, start: nat)
    requires start <= |s|
    ensures StartsApart(AfterValue(s, start)) && |AfterValue(s, start)| <= |s| - start
  {
    var n := ValueLength(s[start..]);
    if n < |s[start..]| {
      assert s[start..][n] == s[start + n];
    }
  }

  lemma FindsLater(s: string, arg: string)
    requires arg != "" && Find(s, arg).Some? && StartsApart(s) && forall c :: c in arg ==> !IsSeparator(c)
    ensures Find(s, arg).value > 0
  {
    FindAt(s, arg);
    AtHolds(s, Find(s, arg).value, arg, 0);
    assert s[Find(s, arg).value] in arg;
  }

  lemma ValuesOutStarts(s: string, arg: string, out: string)
    requires Stands(arg, out) && StartsApart(s)
    ensures StartsApart(ValuesOut(s, arg, out))
  {
    if Find(s, arg).Some? {
      FindsLater(s, arg);
      ValuesOutStep(s, arg, out);
    }
  }

  lemma AtLeft(a: string, b: string, i: int, mark: string)
    requires At(a + b, i, mark) && i + |mark| <= |a|
    ensures At(a, i, mark)
  {
    assert a[i..i + |mark|] == (a + b)[i..i + |mark|];
  }

  /** In clear text ended by the mark, the mark is only at the end. */
  lemma OnlyOwn(front: string, arg: string, i: int)
    requires arg != "" && forall k :: 0 <= k < |arg| - 1 ==> arg[k] != arg[|arg| - 1]
    requires Clear(front, arg) && At(front + arg, i, arg)
    ensures i == |front|
  {
    if i + |arg| <= |front| {
      AtLeft(front, arg, i, arg);
    } else {
      AtHolds(front + arg, i, arg, |arg| - 1);
    }
  }

  lemma HiddenShift(tail: string, k: nat, s: string, value: int, out: string)
    requires k <= |s| && s[k..] == tail && value >= k && HiddenAt(tail, value - k, out)
    ensures HiddenAt(s, value, out)
  {
    AtShift(s, value, out, k);
  }

  lemma HiddenHere(head: string, out: string, tail: string)
    requires StartsApart(tail)
    ensures HiddenAt(head + (out + tail), |head|, out)
  {
    var s := head + (out + tail);
    assert s[|head|..|head| + |out|] == out;
    assert tail != "" ==> s[|head| + |out|] == tail[0];
  }

  lemma HiddenThere(head: string, out: string, tail: string, arg: string, i: int)
    requires Stands(arg, out) && Hidden(tail, arg, out) && At(out + tail, i, arg)
    ensures HiddenAt(head + (out + tail), |head| + i + |arg|, out)
  {
    AtJoin(out, tail, i, arg);
    var s, k := head + (out + tail), |head| + |out|;
    assert s[k..] == tail;
    assert At(tail, i - |out|, arg);
    HiddenShift(tail, k, s, |head| + i + |arg|, out);
  }

  lemma HiddenJoin(front: string, tail: string, arg: string, out: string)
    requires Stands(arg, out) && Clear(front, arg) && Hidden(tail, arg, out) && StartsApart(tail)
    ensures Hidden(front + arg + (out + tail), arg, out)
  {
    var head := front + arg;
    forall i | At(head + (out + tail), i, arg) ensures HiddenAt(head + (out + tail), i + |arg|, out) {
      AtJoin(head, out + tail, i, arg);
      if At(head, i, arg) {
        OnlyOwn(front, arg, i);
        HiddenHere(head, out, tail);
      } else {
        HiddenThere(head, out, tail, arg, i - |head|);
      }
    }
  }

  /** The text before the first `arg`, and it with the `arg`. */
  lemma FirstCut(s: string, arg: string) returns (front: string)
    requires arg != "" && Find(s, arg).Some?
    ensures Clear(front, arg) && |front| == Find(s, arg).value && |front| + |arg| <= |s|
    ensures s[..|front| + |arg|] == front + arg
  {
    FindAt(s, arg);
    var i := Find(s, arg).value;
    front := s[..i];
    FirstPieceClear(s, arg, i, i);
  }

  lemma {:induction false} ValuesAreHidden(s: string, arg: string, out: string)
    requires Stands(arg, out)
    ensures Hidden(ValuesOut(s, arg, out), arg, out)
    decreases |s|
  {
    if Find(s, arg).Some? {
      var front := FirstCut(s, arg);
      var rest := AfterValue(s, |front| + |arg|);
      AfterValueStarts(s, |front| + |arg|);
      ValuesAreHidden(rest, arg, out);
      ValuesOutStarts(rest, arg, out);
      HiddenJoin(front, ValuesOut(rest, arg, out), arg, out);
      ValuesOutStep(s, arg, out);
      Regroup(front + arg, out, ValuesOut(rest, arg, out));
    } else {
      FindExact(s, arg);
    }
  }

  lemma Regroup(a: string, b: string, c: string)
    ensures a + b + c == a + (b + c)
  {
  }

  // ---------------------------------------------------------------- doing it twice

  lemma ValueLengthIs(s: string, n: nat)
    requires n <= |s| && (n == |s| || IsSeparator(s[n])) && forall k :: 0 <= k < n ==> !IsSeparator(s[k])
    ensures ValueLength(s) == n
  {
  }

  lemma AfterHidden(s: string, out: string, start: nat)
    requires HiddenAt(s, start, out) && forall c :: c in out ==> !IsSeparator(c)
    ensures AfterValue(s, start) == s[start + |out|..]
    ensures s == s[..start] + out + s[start + |out|..]
  {
    var tail, k := s[start..], start + |out|;
    assert tail[..|out|] == out;
    assert k < |s| ==> tail[|out|] == s[k];
    forall j | 0 <= j < |out| ensures !IsSeparator(tail[j]) {
      assert tail[j] == out[j] && out[j] in out;
    }
    ValueLengthIs(tail, |out|);
  }

  lemma HiddenUnshift(s: string, k: nat, value: int, out: string)
    requires k <= |s| && value >= k && HiddenAt(s, value, out)
    ensures HiddenAt(s[k..], value - k, out)
  {
    AtShift(s, value, out, k);
  }

  lemma SuffixHidden(s: string, k: nat, arg: string, out: string)
    requires k <= |s| && Hidden(s, arg, out)
    ensures Hidden(s[k..], arg, out)
  {
    forall i | At(s[k..], i, arg) ensures HiddenAt(s[k..], i + |arg|, out) {
      AtShift(s, i + k, arg, k);
      HiddenUnshift(s, k, i + k + |arg|, out);
    }
  }

  /** After a hidden value, the rest is hidden too, and it is where a value's end is looked for. */
  lemma RestHidden(s: string, arg: string, out: string, start: nat)
    requires Stands(arg, out) && Hidden(s, arg, out) && HiddenAt(s, start, out)
    ensures AfterValue(s, start) == s[start + |out|..] && Hidden(AfterValue(s, start), arg, out)
    ensures s == s[..start] + out + AfterValue(s, start)
  {
    AfterHidden(s, out, start);
    SuffixHidden(s, start + |out|, arg, out);
  }

  /** Text whose values are all hidden already is left as it is. */
  lemma {:induction false} HiddenIsKept(s: string, arg: string, out: string)
    requires Stands(arg, out) && Hidden(s, arg, out)
    ensures ValuesOut(s, arg, out) == s
    decreases |s|
  {
    if Find(s, arg).Some? {
      FindAt(s, arg);
      var start := Find(s, arg).value + |arg|;
      RestHidden(s, arg, out, start);
      ValuesOutStep(s, arg, out);
      HiddenIsKept(AfterValue(s, start), arg, out);
    }
  }

  lemma FirstStays(front: string, arg: string, out: string, tail: string)
    requires Stands(arg, out) && Clear(front, arg)
    ensures var s := front + arg + (out + tail);
      Find(s, arg).Some? && Find(s, arg).value == |front|
  {
    var head := front + arg;
    var s := head + (out + tail);
    assert s[|front|..|front| + |arg|] == arg;
    forall j | 0 <= j < |front| ensures !At(s, j, arg) {
      if At(s, j, arg) {
        AtJoin(head, out + tail, j, arg);
        OnlyOwn(front, arg, j);
      }
    }
    FindIs(s, arg, |front|);
  }

  lemma MaskedTail(head: string, out: string, tail: string)
    ensures var s := head + (out + tail);
      s[..|head|] == head && s[|head| + |out|..] == tail
  {
  }

  /** Hiding changes nothing but values: take every value away, and the line and its redacted form are the same. */
  lemma {:induction false} OtherTextKept(s: string, arg: string, out: string)
    requires Stands(arg, out)
    ensures ValuesOut(ValuesOut(s, arg, out), arg, "") == ValuesOut(s, arg, "")
    decreases |s|
  {
    if Find(s, arg).Some? {
      var front := FirstCut(s, arg);
      var start := |front| + |arg|;
      var rest := AfterValue(s, start);
      AfterValueStarts(s, start);
      OtherTextKept(rest, arg, out);
      ValuesOutStep(s, arg, out);
      ValuesOutStep(s, arg, "");
      var hidden, tail := ValuesOut(s, arg, out), ValuesOut(rest, arg, out);
      Regroup(front + arg, out, tail);
      FirstStays(front, arg, out, tail);
      ValuesAreHidden(s, arg, out);
      FindAt(hidden, arg);
      RestHidden(hidden, arg, out, start);
      MaskedTail(front + arg, out, tail);
      ValuesOutStep(hidden, arg, "");
    }
  }

  lemma ClearIsKept(s: string)
    requires Clear(s, ONION)
    ensures OnionsOut(s) == s
  {
    FindExact(s, ONION);
  }

  // ---------------------------------------------------------------- both together

  function RedactText(s: string): string {
    SecretsOut(OnionsOut(s))
  }

  lemma ClearAround(head: string, out: string, tail: string, mark: string)
    requires mark != "" && out != "" && out[0] !in mark && out[|out| - 1] !in mark
    requires Clear(head, mark) && Clear(out, mark) && Clear(tail, mark)
    ensures Clear(head + out + tail, mark)
  {
    ClearJoin(out, tail, mark);
    ClearJoin(head, out + tail, mark);
    Regroup(head, out, tail);
  }

  /** Hiding values puts no onion mark together. */
  lemma {:induction false} ValuesOutClear(s: string, arg: string, out: string, mark: string)
    requires Stands(arg, out) && Clear(s, mark) && mark != ""
    requires out[0] !in mark && out[|out| - 1] !in mark && Clear(out, mark)
    ensures Clear(ValuesOut(s, arg, out), mark)
    decreases |s|
  {
    if Find(s, arg).Some? {
      ValuesOutStep(s, arg, out);
      var start := Find(s, arg).value + |arg|;
      AfterValueStarts(s, start);
      var rest := AfterValue(s, start);
      ClearSuffix(s, start + ValueLength(s[start..]), mark);
      ValuesOutClear(rest, arg, out, mark);
      ClearPrefix(s, start, mark);
      ClearAround(s[..start], out, ValuesOut(rest, arg, out), mark);
    }
  }

  /** A redacted line holds no onion mark and no listener secret, and redacting it again changes nothing. */
  lemma RedactedForGood(s: string)
    ensures Clear(RedactText(s), ONION)
    ensures Hidden(RedactText(s), LISTENER_SECRET_ARG, SECRET_OUT)
    ensures RedactText(RedactText(s)) == RedactText(s)
  {
    SecretStands();
    OnionReplaces();
    NoMarksLeft(s, ONION, ONION_OUT);
    ClearWithout(SECRET_OUT, ONION, '.');
    ValuesOutClear(OnionsOut(s), LISTENER_SECRET_ARG, SECRET_OUT, ONION);
    ValuesAreHidden(OnionsOut(s), LISTENER_SECRET_ARG, SECRET_OUT);
    ClearIsKept(RedactText(s));
    HiddenIsKept(RedactText(s), LISTENER_SECRET_ARG, SECRET_OUT);
  }

  /** And a line with nothing to hide is left alone. */
  lemma CleanLineIsKept(s: string)
    ensures RedactText(s) == s <==> Clear(s, ONION) && Hidden(s, LISTENER_SECRET_ARG, SECRET_OUT)
  {
    SecretStands();
    RedactedForGood(s);
    if Clear(s, ONION) && Hidden(s, LISTENER_SECRET_ARG, SECRET_OUT) {
      ClearIsKept(s);
      HiddenIsKept(s, LISTENER_SECRET_ARG, SECRET_OUT);
    }
  }

  lemma OnionAfter(name: string)
    requires Clear(name, ONION)
    ensures At(name + ONION, |name|, ONION) && forall j :: 0 <= j < |name| ==> !At(name + ONION, j, ONION)
  {
    var s := name + ONION;
    assert s[|name|..] == ONION;
    forall j | 0 <= j < |name| ensures !At(s, j, ONION) {
      if j + |ONION| <= |name| {
        assert s[j..j + |ONION|] == name[j..j + |ONION|];
        assert !At(name, j, ONION);
      } else if At(s, j, ONION) {
        AtHolds(s, j, ONION, |name| - j);
        DotLeads(|name| - j);
      }
    }
  }

  lemma DotLeads(k: nat)
    requires 0 < k < |ONION|
    ensures ONION[k] != ONION[0]
  {
    assert ONION[0] == '.' && ONION[1..] == "onion";
    assert ONION[k] == ONION[1..][k - 1];
  }

  lemma OnionOut(name: string)
    requires Clear(name, ONION)
    ensures OnionsOut(name + ONION) == Unlabelled(name) + ONION_OUT
  {
    var s := name + ONION;
    OnionAfter(name);
    MarksOutAt(s, ONION, ONION_OUT, |name|);
    assert s[..|name|] == name && s[|name| + |ONION|..] == "";
    FindExact("", ONION);
    assert MarksOut("", ONION, ONION_OUT) == "";
  }

  /** What is hidden of an address: all of it exactly when its label is lowercase base32 throughout. */
  lemma AddressHiddenIff(name: string)
    requires Clear(name, ONION)
    ensures OnionsOut(name + ONION) == ONION_OUT <==> forall k :: 0 <= k < |name| ==> IsBase32(name[k])
  {
    OnionOut(name);
    UnlabelledExact(name);
    var kept := Unlabelled(name);
    if kept != "" {
      assert !IsBase32(name[|kept| - 1]);
      assert |kept + ONION_OUT| > |ONION_OUT|;
    }
  }

  /** An address in capitals, or with its mark in capitals, stays readable. */
  lemma CapitalsStay()
    ensures OnionsOut("ABC" + ONION) == "ABC" + ONION_OUT
    ensures RedactText("abc.ONION") == "abc.ONION"
  {
    ClearWithout("ABC", ONION, 'o');
    OnionOut("ABC");
    ClearWithout("abc.ONION", ONION, 'o');
    ClearWithout("abc.ONION", LISTENER_SECRET_ARG, '=');
    CleanLineIsKept("abc.ONION");
  }

  // ---------------------------------------------------------------- the scanners

  /** Drop the base32 label just copied out; `piece` is the text copied since the last mark. */
  method PopLabel(out: string, ghost done: string, ghost piece: string) returns (popped: string)
    requires out == done + piece && (done == "" || !IsBase32(done[|done| - 1]))
    ensures popped == done + Unlabelled(piece)
  {
    popped := out;
    ghost var n: nat := |piece|;
    while popped != "" && IsBase32(popped[|popped| - 1])
      invariant n <= |piece| && popped == done + piece[..n]
      invariant LabelStart(piece, n) == LabelStart(piece, |piece|)
      decreases |popped|
    {
      assert n > 0 && piece[n - 1] == popped[|popped| - 1];
      popped, n := popped[..|popped| - 1], n - 1;
    }
    assert n > 0 ==> piece[n - 1] == popped[|popped| - 1];
  }

  /** How far the scan is: `done` is finished, `rest` is the text from there on, and `k` of it is copied. */
  ghost predicate Scanned(s: string, mark: string, mask: string, out: string, done: string, rest: string, k: nat)
    requires mark != ""
  {
    && k <= |rest| <= |s| && rest == s[|s| - |rest|..]
    && out == done + rest[..k]
    && (done == "" || !IsBase32(done[|done| - 1]))
    && MarksOut(s, mark, mask) == done + MarksOut(rest, mark, mask)
    && (forall j :: 0 <= j < k ==> !At(rest, j, mark))
  }

  lemma MarksOutAt(s: string, mark: string, mask: string, k: nat)
    requires mark != "" && At(s, k, mark) && forall j :: 0 <= j < k ==> !At(s, j, mark)
    ensures MarksOut(s, mark, mask) == MarkOut(s, mark, mask, k)
  {
    FindIs(s, mark, k);
  }

  lemma Chained(whole: string, done: string, rest: string, a: string, b: string, c: string)
    requires whole == done + rest && rest == a + b + c
    ensures whole == done + a + b + c
    ensures b != "" ==> (done + a + b)[|done + a + b| - 1] == b[|b| - 1]
  {
  }

  lemma TakenText(s: string, mark: string, mask: string, done: string, rest: string, k: nat)
    requires Replaces(mark, mask) && At(rest, k, mark) && forall j :: 0 <= j < k ==> !At(rest, j, mark)
    requires MarksOut(s, mark, mask) == done + MarksOut(rest, mark, mask)
    ensures MarksOut(s, mark, mask) == done + Unlabelled(rest[..k]) + mask + MarksOut(rest[k + |mark|..], mark, mask)
  {
    MarksOutAt(rest, mark, mask, k);
    Chained(MarksOut(s, mark, mask), done, MarksOut(rest, mark, mask), Unlabelled(rest[..k]), mask,
            MarksOut(rest[k + |mark|..], mark, mask));
  }

  lemma TailOfTail(s: string, rest: string, n: nat)
    requires n <= |rest| <= |s| && rest == s[|s| - |rest|..]
    ensures rest[n..] == s[|s| - |rest[n..]|..]
  {
  }

  lemma EndsWith(a: string, b: string)
    requires b != ""
    ensures (a + b)[|a + b| - 1] == b[|b| - 1]
  {
  }

  lemma ScannedAfresh(s: string, mark: string, mask: string, done: string, rest: string)
    requires mark != "" && |rest| <= |s| && rest == s[|s| - |rest|..]
    requires done != "" && !IsBase32(done[|done| - 1])
    requires MarksOut(s, mark, mask) == done + MarksOut(rest, mark, mask)
    ensures Scanned(s, mark, mask, done, done, rest, 0)
  {
    assert rest[..0] == "";
    assert done + "" == done;
  }

  /** A mark found: the text before it loses its label, and the scan goes on behind it. */
  lemma MarkTaken(s: string, mark: string, mask: string, done: string, rest: string, k: nat, done': string,
                  rest': string)
    requires Replaces(mark, mask) && At(rest, k, mark) && forall j :: 0 <= j < k ==> !At(rest, j, mark)
    requires |rest| <= |s| && rest == s[|s| - |rest|..]
    requires MarksOut(s, mark, mask) == done + MarksOut(rest, mark, mask)
    requires done' == done + Unlabelled(rest[..k]) + mask && rest' == rest[k + |mark|..]
    ensures Scanned(s, mark, mask, done', done', rest', 0)
  {
    TakenText(s, mark, mask, done, rest, k);
    TailOfTail(s, rest, k + |mark|);
    EndsWith(done + Unlabelled(rest[..k]), mask);
    ScannedAfresh(s, mark, mask, done', rest');
  }

  method TakeMark(s: string, mark: string, mask: string, out: string, ghost done: string, ghost rest: string,
                  ghost k: nat)
    returns (out': string)
    requires Replaces(mark, mask) && Scanned(s, mark, mask, out, done, rest, k) && At(rest, k, mark)
    ensures Scanned(s, mark, mask, out', out', rest[k + |mark|..], 0)
  {
    out' := PopLabel(out, done, rest[..k]);
    out' := out' + mask;
    MarkTaken(s, mark, mask, done, rest, k, out', rest[k + |mark|..]);
  }

  lemma Appended(a: string, b: string, c: string, d: string)
    ensures a + (b + c + d) == a + b + c + d
  {
  }

  lemma CharTaken(s: string, mark: string, mask: string, out: string, done: string, rest: string, k: nat)
    requires mark != "" && Scanned(s, mark, mask, out, done, rest, k) && k < |rest| && !At(rest, k, mark)
    ensures Scanned(s, mark, mask, out + [rest[k]], done, rest, k + 1)
  {
    OneMore(rest, k, done);
  }

  lemma OneMore(rest: string, k: nat, done: string)
    requires k < |rest|
    ensures done + rest[..k] + [rest[k]] == done + rest[..k + 1]
  {
  }

  lemma ScanEnds(s: string, mark: string, mask: string, out: string, done: string, rest: string)
    requires mark != "" && Scanned(s, mark, mask, out, done, rest, |rest|)
    ensures out == MarksOut(s, mark, mask)
  {
    assert rest[..|rest|] == rest;
    FindExact(rest, mark);
    assert Find(rest, mark).None?;
  }

  /** One turn of the scan: a mark taken, or one character copied. */
  method ScanOn(s: string, mark: string, mask: string, out: string, i: nat, ghost done: string, ghost rest: string,
                ghost k: nat)
    returns (out': string, i': nat, ghost done': string, ghost rest': string, ghost k': nat)
    requires Replaces(mark, mask) && Scanned(s, mark, mask, out, done, rest, k) && i + |rest| == |s| + k && i < |s|
    ensures Scanned(s, mark, mask, out', done', rest', k') && i' + |rest'| == |s| + k' && i < i' <= |s|
  {
    AtShift(s, i, mark, |s| - |rest|);
    if At(s, i, mark) {
      out' := TakeMark(s, mark, mask, out, done, rest, k);
      i', done', rest', k' := i + |mark|, out', rest[k + |mark|..], 0;
    } else {
      CharTaken(s, mark, mask, out, done, rest, k);
      out', i', done', rest', k' := out + [s[i]], i + 1, done, rest, k + 1;
    }
  }

  /** Every `mark` in `s`, and the base32 label before it, replaced by `mask`. */
  method ReplaceMarks(s: string, mark: string, mask: string) returns (out: string)
    requires Replaces(mark, mask)
    ensures out == MarksOut(s, mark, mask)
  {
    out := "";
    var i: nat := 0;
    ghost var done, rest := "", s;
    ghost var k: nat := 0;
    while i < |s|
      invariant i <= |s| && i + |rest| == |s| + k
      invariant Scanned(s, mark, mask, out, done, rest, k)
      decreases |s| - i
    {
      out, i, done, rest, k := ScanOn(s, mark, mask, out, i, done, rest, k);
    }
    ScanEnds(s, mark, mask, out, done, rest);
  }

  method RedactOnions(s: string) returns (out: string)
    ensures out == OnionsOut(s)
  {
    FindExact(s, ONION);
    if Find(s, ONION).None? {
      return s;
    }
    OnionReplaces();
    out := ReplaceMarks(s, ONION, ONION_OUT);
  }

  /** Every value after `arg` replaced by `mask`. */
  method ReplaceValues(s: string, arg: string, mask: string) returns (out: string)
    requires arg != ""
    ensures out == ValuesOut(s, arg, mask)
  {
    out := "";
    var rest := s;
    while Find(rest, arg).Some?
      invariant ValuesOut(s, arg, mask) == out + ValuesOut(rest, arg, mask)
      decreases |rest|
    {
      ValuesOutStep(rest, arg, mask);
      var value := Find(rest, arg).value + |arg|;
      AfterValueStarts(rest, value);
      Appended(out, rest[..value], mask, ValuesOut(AfterValue(rest, value), arg, mask));
      out := out + rest[..value] + mask;
      rest := AfterValue(rest, value);
    }
    out := out + rest;
  }

  method RedactListenerSecret(s: string) returns (out: string)
    ensures out == SecretsOut(s)
  {
    FindExact(s, LISTENER_SECRET_ARG);
    if Find(s, LISTENER_SECRET_ARG).None? {
      return s;
    }
    out := ReplaceValues(s, LISTENER_SECRET_ARG, SECRET_OUT);
  }

  method RedactLine(s: string) returns (out: string)
    ensures out == RedactText(s)
    ensures Clear(out, ONION) && Hidden(out, LISTENER_SECRET_ARG, SECRET_OUT)
  {
    out := RedactOnions(s);
    out := RedactListenerSecret(out);
    RedactedForGood(s);
  }
}
