/**
 * What each byte does to the line, told on the text and the cursor position
 * only: which characters are there afterwards and where the cursor stands.
 */
module LineLaws {
  import opened Division
  import opened LineEdit

  /** No completion is on offer and the byte asks for none. */
  predicate Quiet(e: Edit, c: char, completes: bool) { !(completes && (e.offering || c == TAB)) }

  predicate SameHistory(e: Edit, e': Edit) { e'.hist == e.hist && e'.index == e.index }

  predicate Same(e: Edit, e': Edit) { TextOf(e') == TextOf(e) && |e'.left| == |e.left| && SameHistory(e, e') }

  /** The newest entry, which stood for the line being edited, is gone. */
  predicate NewestDropped(e: Edit, e': Edit) {
    e'.index == e.index && e'.hist == if e.hist == [] then [] else e.hist[..|e.hist| - 1]
  }

  // ----- moving and killing

  predicate IsMove(c: char) { c as int in {1, 2, 5, 6} }

  /** To the start, one left, to the end, one right; the text stays. */
  lemma MoveLaw(e: Edit, input: seq<char>, completer: Completer, completes: bool, multi: bool)
    requires input != [] && IsMove(input[0]) && Quiet(e, input[0], completes)
    ensures var (e', out, used) := Feed(e, input, completer, completes, multi);
      var t, p, c := TextOf(e), |e.left|, input[0] as int;
      && out == More && used == 1 && TextOf(e') == t && SameHistory(e, e')
      && |e'.left| == if c == 1 then 0 else if c == 5 then |t|
                      else if c == 2 then (if p > 0 then p - 1 else 0)
                      else if p < |t| then p + 1 else p
  {
    if e.left != "" {
      assert e.left == e.left[..|e.left| - 1] + [e.left[|e.left| - 1]];
    }
    if e.right != "" {
      assert e.right == [e.right[0]] + e.right[1..];
    }
    MovesKeepText(e);
  }

  lemma MovesKeepText(e: Edit)
    ensures TextOf(MoveLeft(e)) == TextOf(e) == TextOf(MoveRight(e))
  {
    if e.left != "" {
      assert e.left == e.left[..|e.left| - 1] + [e.left[|e.left| - 1]];
    }
    if e.right != "" {
      assert e.right == [e.right[0]] + e.right[1..];
    }
  }

  /** Byte 11 keeps exactly what is before the cursor; byte 21 keeps nothing. */
  lemma KillLaw(e: Edit, input: seq<char>, completer: Completer, completes: bool, multi: bool)
    requires input != [] && input[0] as int in {11, 21} && Quiet(e, input[0], completes)
    ensures var (e', out, used) := Feed(e, input, completer, completes, multi);
      var t, p := TextOf(e), |e.left|;
      && out == More && used == 1 && SameHistory(e, e')
      && TextOf(e') == (if input[0] as int == 11 then t[..p] else "") && |e'.left| == |TextOf(e')|
  {
    assert TextOf(e)[..|e.left|] == e.left;
  }

  // ----- deleting

  /** Bytes 8 and 127 take the character before the cursor, if there is one. */
  lemma BackspaceLaw(e: Edit, input: seq<char>, completer: Completer, completes: bool, multi: bool)
    requires input != [] && input[0] as int in {8, 127} && Quiet(e, input[0], completes)
    ensures var (e', out, used) := Feed(e, input, completer, completes, multi);
      var t, p := TextOf(e), |e.left|;
      && out == More && used == 1 && SameHistory(e, e')
      && if p == 0 then Same(e, e') else TextOf(e') == t[..p - 1] + t[p..] && |e'.left| == p - 1
  {
    var t, p := TextOf(e), |e.left|;
    assert t[p..] == e.right;
    if p > 0 {
      assert t[..p - 1] == e.left[..p - 1];
    }
  }

  /** Byte 4 takes the character at the cursor; on an empty line it ends the input. */
  lemma CtrlDLaw(e: Edit, input: seq<char>, completer: Completer, completes: bool, multi: bool)
    requires input != [] && input[0] as int == 4 && Quiet(e, input[0], completes)
    ensures var (e', out, used) := Feed(e, input, completer, completes, multi);
      var t, p := TextOf(e), |e.left|;
      && used == 1
      && (t == "" ==> out == EndOfInput && TextOf(e') == "" && NewestDropped(e, e'))
      && (t != "" && p == |t| ==> out == More && Same(e, e'))
      && (p < |t| ==> out == More && TextOf(e') == t[..p] + t[p + 1..] && |e'.left| == p && SameHistory(e, e'))
  {
    var t, p := TextOf(e), |e.left|;
    if p < |t| {
      assert t[..p] == e.left && t[p + 1..] == e.right[1..];
    }
  }

  /** The characters from q to the cursor p: a word, then blanks up to the cursor, with a blank or nothing before. */
  ghost predicate WordBefore(t: string, q: nat, r: nat, p: nat) {
    && q <= r <= p <= |t|
    && (forall i :: r <= i < p ==> t[i] == ' ') && (forall i :: q <= i < r ==> t[i] != ' ')
    && (r > 0 ==> t[r - 1] != ' ') && (q > 0 ==> t[q - 1] == ' ')
  }

  /** There is only one such word. */
  lemma WordUnique(t: string, q: nat, r: nat, q': nat, r': nat, p: nat)
    requires WordBefore(t, q, r, p) && WordBefore(t, q', r', p)
    ensures q == q' && r == r'
  {
  }

  lemma {:induction false} LastWord(s: string) returns (q: nat, r: nat)
    ensures WordBefore(s, q, r, |s|) && DropWord(DropSpaces(s)) == s[..q]
  {
    DropSpacesIs(s);
    var mid := DropSpaces(s);
    DropWordIs(mid);
    var kept := DropWord(mid);
    q, r := |kept|, |mid|;
    assert kept <= mid <= s;
    assert forall i :: r <= i < |s| ==> s[i] == s[r..][i - r];
    assert forall i :: q <= i < r ==> s[i] == mid[q..][i - q];
  }

  /** Byte 23 takes the word before the cursor with the blanks after it. */
  lemma {:induction false} WordLaw(e: Edit, input: seq<char>, completer: Completer, completes: bool, multi: bool)
    returns (q: nat, r: nat)
    requires input != [] && input[0] as int == 23 && Quiet(e, input[0], completes)
    ensures var (e', out, used) := Feed(e, input, completer, completes, multi);
      var t, p := TextOf(e), |e.left|;
      && out == More && used == 1 && SameHistory(e, e')
      && WordBefore(t, q, r, p) && TextOf(e') == t[..q] + t[p..] && |e'.left| == q
  {
    var t, p := TextOf(e), |e.left|;
    q, r := LastWord(e.left);
    assert forall i :: 0 <= i < p ==> t[i] == e.left[i];
    hide DropWord, DropSpaces;
    assert t[..q] == e.left[..q] && t[p..] == e.right;
  }

  // ----- changing characters

  /** Byte 20 exchanges the neighbours of the cursor and steps on, unless that is the last character. */
  lemma {:induction false} SwapLaw(e: Edit, input: seq<char>, completer: Completer, completes: bool, multi: bool)
    requires input != [] && input[0] as int == 20 && Quiet(e, input[0], completes)
    ensures var (e', out, used) := Feed(e, input, completer, completes, multi);
      var t, p := TextOf(e), |e.left|;
      && out == More && used == 1 && SameHistory(e, e')
      && if 0 < p < |t| then
           TextOf(e') == t[p - 1 := t[p]][p := t[p - 1]] && |e'.left| == if p == |t| - 1 then p else p + 1
         else Same(e, e')
  {
    if 0 < |e.left| < |TextOf(e)| {
      TransposeIs(e);
    }
  }

  predicate IsControl(c: char) {
    c as int in {1, 2, 3, 4, 5, 6, 8, 11, 12, 13, 14, 16, 20, 21, 23, 27, 127}
  }

  /** Any other byte is inserted at the cursor as long as the buffer has room, a tab among them. */
  lemma InsertLaw(e: Edit, input: seq<char>, completer: Completer, completes: bool, multi: bool)
    requires input != [] && !IsControl(input[0]) && Quiet(e, input[0], completes)
    ensures var (e', out, used) := Feed(e, input, completer, completes, multi);
      var t, p := TextOf(e), |e.left|;
      && out == More && used == 1 && SameHistory(e, e')
      && if |t| < e.cap then TextOf(e') == t[..p] + [input[0]] + t[p..] && |e'.left| == p + 1 else Same(e, e')
  {
    assert TextOf(e)[..|e.left|] == e.left && TextOf(e)[|e.left|..] == e.right;
    assert e.left + [input[0]] + e.right == e.left + ([input[0]] + e.right);
  }

  // ----- ending

  /** Enter returns the text and byte 3 interrupts; byte 12 touches nothing. */
  lemma EndLaw(e: Edit, input: seq<char>, completer: Completer, completes: bool, multi: bool)
    requires input != [] && input[0] as int in {3, 12, 13} && Quiet(e, input[0], completes)
    ensures var (e', out, used) := Feed(e, input, completer, completes, multi);
      var t, c := TextOf(e), input[0] as int;
      && used == 1 && TextOf(e') == t
      && out == (if c == 13 then Line(t) else if c == 3 then Interrupted else More)
      && (c == 13 ==> NewestDropped(e, e') && |e'.left| == if multi then |t| else |e.left|)
      && (c != 13 ==> Same(e, e'))
  {
  }

  // ----- history

  /**
   * Bytes 16 and 14 keep the text in the entry it came from and load the
   * neighbour, older or newer, cut to one character less than the buffer holds,
   * with the cursor at its end; past either end they load nothing.
   */
  lemma {:induction false} HistoryLaw(e: Edit, input: seq<char>, completer: Completer, completes: bool, multi: bool)
    requires input != [] && input[0] as int in {14, 16} && Quiet(e, input[0], completes)
    requires e.cap >= 1 && (|e.hist| <= 1 || e.index < |e.hist|)
    ensures var (e', out, used) := Feed(e, input, completer, completes, multi);
      var t, n, to := TextOf(e), |e.hist|, if input[0] as int == 16 then e.index + 1 else e.index - 1;
      && out == More && used == 1
      && (n <= 1 ==> Same(e, e'))
      && (n > 1 ==> e'.hist == e.hist[n - 1 - e.index := t])
      && (n > 1 && !(0 <= to < n) ==> e'.index == e.index && TextOf(e') == t && |e'.left| == |e.left|)
      && (n > 1 && 0 <= to < n ==>
            var entry := e.hist[n - 1 - to];
            && e'.index == to && |e'.left| == |TextOf(e')|
            && TextOf(e') == if |entry| < e.cap then entry else entry[..e.cap - 1])
  {
  }

  // ----- escape sequences

  /** The control byte that does the same as this sequence, if any does. */
  function ControlFor(a: char, b: char): (c: nat)
    ensures c < 32
  {
    if a == '[' && b == 'A' then 16
    else if a == '[' && b == 'B' then 14
    else if a == '[' && b == 'C' then 6
    else if a == '[' && b == 'D' then 2
    else if (a == '[' || a == 'O') && b == 'H' then 1
    else if (a == '[' || a == 'O') && b == 'F' then 5
    else 12
  }

  /** Arrows, Home and End do what their control bytes do; an unknown or cut sequence only takes its bytes. */
  lemma {:induction false} EscapeLaw(e: Edit, rest: seq<char>, completer: Completer, completes: bool, multi: bool)
    requires Quiet(e, ESC, completes)
    ensures var (e', out, used) := Feed(e, [ESC] + rest, completer, completes, multi);
      && (|rest| < 2 ==> e' == e && out == More && used == 1 + |rest|)
      && (|rest| >= 2 && !(rest[0] == '[' && '0' <= rest[1] <= '9') ==>
            var (f, o, _) := Feed(e, [ControlFor(rest[0], rest[1]) as char], completer, completes, multi);
            e' == f && out == o && used == 3)
  {
    assert ([ESC] + rest)[1..] == rest;
    if |rest| >= 2 && !(rest[0] == '[' && '0' <= rest[1] <= '9') {
      EscapeKey(rest);
      hide EscapeOf, PlainKey, ControlFor;
    }
  }

  lemma EscapeKey(rest: seq<char>)
    requires |rest| >= 2 && !(rest[0] == '[' && '0' <= rest[1] <= '9')
    ensures var (key, used) := EscapeOf(rest);
      && used == 2 && ControlFor(rest[0], rest[1]) in {1, 2, 5, 6, 12, 14, 16}
      && PlainKey(ControlFor(rest[0], rest[1]) as char) == if key == Nothing then KeyClear else key
  {
  }

  /** ESC [ 3 ~ takes the character at the cursor; with another digit or ending nothing happens. */
  lemma DeleteKeyLaw(e: Edit, rest: seq<char>, completer: Completer, completes: bool, multi: bool)
    requires Quiet(e, ESC, completes) && |rest| >= 2 && rest[0] == '[' && '0' <= rest[1] <= '9'
    ensures var (e', out, used) := Feed(e, [ESC] + rest, completer, completes, multi);
      var t, p := TextOf(e), |e.left|;
      && out == More && used == (if |rest| == 2 then 3 else 4) && SameHistory(e, e')
      && if |rest| >= 3 && rest[1] == '3' && rest[2] == '~' && p < |t| then
           TextOf(e') == t[..p] + t[p + 1..] && |e'.left| == p
         else Same(e, e')
  {
    assert ([ESC] + rest)[1..] == rest;
    var t, p := TextOf(e), |e.left|;
    if p < |t| {
      assert t[..p] == e.left && t[p + 1..] == e.right[1..];
    }
  }

  // ----- completion

  /** n tabs, one after the other. */
  function AfterTabs(e: Edit, n: nat, completer: Completer, multi: bool): Edit {
    if n == 0 then e else Feed(AfterTabs(e, n - 1, completer, multi), [TAB], completer, true, multi).0
  }

  /** Tabs go round the k offers and the text itself: after n of them offer (n - 1) mod (k + 1) is shown. */
  lemma {:induction false} TabsOffer(e: Edit, n: nat, completer: Completer, multi: bool)
    requires !e.offering && n >= 1 && completer(TextOf(e)) != []
    ensures var e', k := AfterTabs(e, n, completer, multi), |completer(TextOf(e))|;
      e' == e.(offering := true, offer := (n - 1) % (k + 1))
  {
    if n > 1 {
      TabsOffer(e, n - 1, completer, multi);
      NextTurn(n - 2, |completer(TextOf(e))| + 1);
    }
  }

  lemma NextTurn(m: nat, k: nat)
    requires k >= 1
    ensures (m % k + 1) % k == (m + 1) % k
  {
    DivStep(m, k);
    if m % k < k - 1 {
      DivUnique(m % k + 1, k, 0, m % k + 1);
    } else {
      DivUnique(k, k, 1, 0);
    }
  }

  /**
   * The key after n tabs: ESC leaves the text alone; any other below 128 first
   * puts the offer on show in place of the text, cursor at its end, and then
   * does what it does without completion.
   */
  lemma {:induction false} KeyAfterTabs(e: Edit, n: nat, input: seq<char>, completer: Completer, multi: bool)
    requires !e.offering && n >= 1 && completer(TextOf(e)) != [] && input != [] && input[0] != TAB
    ensures var e1, k, c := AfterTabs(e, n, completer, multi), |completer(TextOf(e))|, input[0];
      var r, j := Feed(e1, input, completer, true, multi), (n - 1) % (k + 1);
      var shown := if j < k then completer(TextOf(e))[j] else TextOf(e);
      && (c == ESC ==> r == (e1.(offering := false), More, 1))
      && (c as int >= 128 ==> r.1 == Failed && r.2 == 1 && TextOf(r.0) == shown)
      && (c != ESC && c as int < 128 ==>
            exists f: Edit {:trigger TextOf(f)} ::
              && TextOf(f) == shown && |f.left| == (if j < k then |shown| else |e.left|) && f.cap == e.cap
              && SameHistory(e, f) && !f.offering && r == Feed(f, input, completer, true, multi))
  {
    TabsOffer(e, n, completer, multi);
    var offers := completer(TextOf(e));
    var j := (n - 1) % (|offers| + 1);
    var f := (if j < |offers| then e.(left := offers[j], right := "") else e).(offering := false, offer := j);
    assert TextOf(f) == if j < |offers| then offers[j] else TextOf(e);
  }

  /** A tab where nothing can be completed is a character like any other. */
  lemma TabAlone(e: Edit, completer: Completer, multi: bool)
    requires completer(TextOf(e)) == []
    ensures var (e', out, used) := Feed(e, [TAB], completer, true, multi);
      var t, p := TextOf(e), |e.left|;
      && out == More && used == 1 && !e'.offering
      && if |t| < e.cap then TextOf(e') == t[..p] + [TAB] + t[p..] && |e'.left| == p + 1 else Same(e, e')
  {
    assert TextOf(e)[..|e.left|] == e.left && TextOf(e)[|e.left|..] == e.right;
    assert e.left + [TAB] + e.right == e.left + ([TAB] + e.right);
  }

  // ----- a whole line

  ghost predicate Ordinary(s: seq<char>) { forall i :: 0 <= i < |s| ==> !IsControl(s[i]) && s[i] != TAB }

  /** Typing characters and Enter returns them where the cursor was, as many as there is room for. */
  lemma {:induction false} TypedLine(e: Edit, s: string, completer: Completer, completes: bool, multi: bool)
    requires Ordinary(s) && !e.offering && |TextOf(e)| <= e.cap
    ensures var t, p, room := TextOf(e), |e.left|, e.cap - |TextOf(e)|;
      FeedAll(e, s + [13 as char], completer, completes, multi).1 ==
      Line(t[..p] + (if |s| <= room then s else s[..room]) + t[p..])
    decreases |s|
  {
    hide Feed;
    var t, p, room := TextOf(e), |e.left|, e.cap - |TextOf(e)|;
    var input := s + [13 as char];
    assert t[..p] == e.left && t[p..] == e.right;
    if s == "" {
      EndLaw(e, input, completer, completes, multi);
      assert t == t[..p] + s + t[p..];
    } else {
      InsertLaw(e, input, completer, completes, multi);
      TypedKeeps(e, input, completer, completes, multi);
      var (e', _, _) := Feed(e, input, completer, completes, multi);
      var t', p' := TextOf(e'), |e'.left|;
      assert input[1..] == s[1..] + [13 as char];
      TypedLine(e', s[1..], completer, completes, multi);
      if |t| < e.cap {
        var q := t[..p] + [s[0]];
        assert t' == q + t[p..] && t'[..p'] == q && t'[p'..] == t[p..];
        if |s| <= room {
          assert [s[0]] + s[1..] == s;
          assert q + s[1..] == t[..p] + s;
        } else {
          assert [s[0]] + s[1..][..room - 1] == s[..room];
          assert q + s[1..][..room - 1] == t[..p] + s[..room];
        }
      }
    }
  }

  lemma TypedKeeps(e: Edit, input: seq<char>, completer: Completer, completes: bool, multi: bool)
    requires input != [] && !IsControl(input[0]) && Quiet(e, input[0], completes)
    ensures var e' := Feed(e, input, completer, completes, multi).0; e'.cap == e.cap && e'.offering == e.offering
  {
  }
}
