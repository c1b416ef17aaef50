/**
 * Line editing as a pure interpreter: the text to the left and to the right of
 * the cursor, the history with the entry being edited, and the completion being
 * offered. Bytes come in one at a time; an escape sequence takes up to three
 * more, and a read past the end of the input fails.
 */
module LineEdit {
  const NUL: char := 0 as char
  const ESC: char := 27 as char
  const TAB: char := 9 as char

  datatype Outcome = More | Line(text: string) | Interrupted | EndOfInput | Failed

  /** `cap` is the number of characters that fit the buffer beside its terminator. */
  datatype Edit = Edit(left: string, right: string, cap: nat, hist: seq<string>, index: nat, offering: bool, offer: nat)

  function TextOf(e: Edit): string { e.left + e.right }

  // ----- editing commands

  function Insert(e: Edit, c: char): Edit {
    if |e.left| + |e.right| < e.cap then e.(left := e.left + [c]) else e
  }

  function MoveLeft(e: Edit): Edit {
    if e.left == "" then e
    else e.(left := e.left[..|e.left| - 1], right := [e.left[|e.left| - 1]] + e.right)
  }

  function MoveRight(e: Edit): Edit {
    if e.right == "" then e else e.(left := e.left + [e.right[0]], right := e.right[1..])
  }

  function MoveHome(e: Edit): Edit { e.(left := "", right := TextOf(e)) }

  function MoveEnd(e: Edit): Edit { e.(left := TextOf(e), right := "") }

  function Delete(e: Edit): Edit {
    if e.right == "" then e else e.(right := e.right[1..])
  }

  function Backspace(e: Edit): Edit {
    if e.left == "" then e else e.(left := e.left[..|e.left| - 1])
  }

  function DropSpaces(s: string): (r: string)
    ensures r <= s
  {
    if s != "" && s[|s| - 1] == ' ' then DropSpaces(s[..|s| - 1]) else s
  }

  function DropWord(s: string): (r: string)
    ensures r <= s
  {
    if s != "" && s[|s| - 1] != ' ' then DropWord(s[..|s| - 1]) else s
  }

  function DeleteWord(e: Edit): Edit { e.(left := DropWord(DropSpaces(e.left))) }

  /** Swap the characters around the cursor and step over them, unless at the last one. */
  function Transpose(e: Edit): Edit {
    if e.left == "" || e.right == "" then e
    else
      var a, b, keep := e.left[|e.left| - 1], e.right[0], e.left[..|e.left| - 1];
      if |e.right| == 1 then e.(left := keep + [b], right := [a])
      else e.(left := keep + [b, a], right := e.right[1..])
  }

  function KillLine(e: Edit): Edit { e.(left := "", right := "") }

  function KillEnd(e: Edit): Edit { e.(right := "") }

  /** History entries are shown with one character less than the buffer holds. */
  function Fit(s: string, cap: nat): string { if cap == 0 || |s| < cap then s else s[..cap - 1] }

  function HistorySlot(e: Edit, index: nat): nat { if index < |e.hist| then |e.hist| - 1 - index else 0 }

  function HistoryMove(e: Edit, back: bool): Edit {
    if |e.hist| <= 1 then e
    else
      var e1 := e.(hist := e.hist[HistorySlot(e, e.index) := TextOf(e)]);
      if !back && e.index == 0 then e1
      else if back && e.index + 1 >= |e.hist| then e1.(index := |e.hist| - 1)
      else
        var index := if back then e.index + 1 else e.index - 1;
        e1.(index := index, left := Fit(e1.hist[HistorySlot(e, index)], e.cap), right := "")
  }

  function DropNewest(e: Edit): Edit {
    if e.hist == [] then e else e.(hist := e.hist[..|e.hist| - 1])
  }

  // ----- keys

  datatype Key =
    | Enter | CtrlC | CtrlD | KeyBackspace | KeyTranspose | KeyLeft | KeyRight | KeyPrev | KeyNext | KeyHome | KeyEnd
    | KeyDelete | Nothing | Char(c: char) | KeyKillLine | KeyKillEnd | KeyClear | KeyDeleteWord

  /** An escape sequence and the number of bytes after ESC that it takes. */
  function EscapeOf(rest: seq<char>): (Key, nat) {
    if |rest| < 2 then (Nothing, |rest|)
    else if rest[0] == '[' then
      if '0' <= rest[1] <= '9' then
        if |rest| < 3 then (Nothing, 2)
        else (if rest[2] == '~' && rest[1] == '3' then KeyDelete else Nothing, 3)
      else
        (match rest[1]
           case 'A' => KeyPrev
           case 'B' => KeyNext
           case 'C' => KeyRight
           case 'D' => KeyLeft
           case 'H' => KeyHome
           case 'F' => KeyEnd
           case _ => Nothing, 2)
    else if rest[0] == 'O' then
      (match rest[1] case 'H' => KeyHome case 'F' => KeyEnd case _ => Nothing, 2)
    else (Nothing, 2)
  }

  function PlainKey(c: char): Key {
    match c as int
    case 13 => Enter
    case 3 => CtrlC
    case 127 => KeyBackspace
    case 8 => KeyBackspace
    case 4 => CtrlD
    case 20 => KeyTranspose
    case 2 => KeyLeft
    case 6 => KeyRight
    case 16 => KeyPrev
    case 14 => KeyNext
    case 21 => KeyKillLine
    case 11 => KeyKillEnd
    case 1 => KeyHome
    case 5 => KeyEnd
    case 12 => KeyClear
    case 23 => KeyDeleteWord
    case _ => Char(c)
  }

  function ApplyKey(e: Edit, key: Key, multi: bool): (Edit, Outcome) {
    match key
    case Enter => (DropNewest(if multi then MoveEnd(e) else e), Line(TextOf(e)))
    case CtrlC => (e, Interrupted)
    case CtrlD => if TextOf(e) != "" then (Delete(e), More) else (DropNewest(e), EndOfInput)
    case KeyBackspace => (Backspace(e), More)
    case KeyTranspose => (Transpose(e), More)
    case KeyLeft => (MoveLeft(e), More)
    case KeyRight => (MoveRight(e), More)
    case KeyPrev => (HistoryMove(e, true), More)
    case KeyNext => (HistoryMove(e, false), More)
    case KeyHome => (MoveHome(e), More)
    case KeyEnd => (MoveEnd(e), More)
    case KeyDelete => (Delete(e), More)
    case Nothing => (e, More)
    case Char(c) => (Insert(e, c), More)
    case KeyKillLine => (KillLine(e), More)
    case KeyKillEnd => (KillEnd(e), More)
    case KeyClear => (e, More)
    case KeyDeleteWord => (DeleteWord(e), More)
  }

  // ----- completion

  /** The completions offered for a text; none at all when no callback is set. */
  type Completer = string -> seq<string>

  datatype AfterCompletion = Consumed | Pass | Abort

  /** What a key does to an offered completion, and whether it is then handled as usual. */
  function Complete(e: Edit, c: char, offers: seq<string>): (Edit, AfterCompletion) {
    if offers == [] then (e.(offering := false), if c as int >= 128 then Abort else Pass)
    else if c == TAB then
      (if !e.offering then e.(offering := true, offer := 0) else e.(offer := (e.offer + 1) % (|offers| + 1)), Consumed)
    else if c == ESC then (e.(offering := false), Consumed)
    else
      var e1 := if e.offer < |offers| then e.(left := offers[e.offer], right := "") else e;
      (e1.(offering := false), if c as int >= 128 then Abort else Pass)
  }

  // ----- bytes

  /** One call of the editor on the bytes that are waiting: new state, outcome, bytes taken. */
  function Feed(e: Edit, input: seq<char>, completer: Completer, completes: bool, multi: bool): (Edit, Outcome, nat) {
    if input == [] then (e, Failed, 0)
    else
      var c := input[0];
      var (e1, after) := if completes && (e.offering || c == TAB) then Complete(e, c, completer(TextOf(e)))
        else (e, Pass);
      match after
      case Consumed => (e1, More, 1)
      case Abort => (e1, Failed, 1)
      case Pass =>
        var (key, used) := if c == ESC then EscapeOf(input[1..]) else (PlainKey(c), 0);
        var (e2, out) := ApplyKey(e1, key, multi);
        (e2, out, 1 + used)
  }

  /** Feeding until the line is finished. */
  function FeedAll(e: Edit, input: seq<char>, completer: Completer, completes: bool, multi: bool): (Edit, Outcome)
    decreases |input|
  {
    var (e1, out, used) := Feed(e, input, completer, completes, multi);
    if out != More || used > |input| || used == 0 then (e1, out)
    else FeedAll(e1, input[used..], completer, completes, multi)
  }

  lemma FeedUses(e: Edit, input: seq<char>, completer: Completer, completes: bool, multi: bool)
    ensures var (_, out, used) := Feed(e, input, completer, completes, multi);
      used <= |input| && (used == 0 <==> input == []) && (input == [] ==> out == Failed)
  {
  }

  /** A byte ends the edit as an error exactly when a completion is on offer and the byte is above 127. */
  lemma {:induction false} HighByteIff(e: Edit, input: seq<char>, completer: Completer, completes: bool, multi: bool)
    requires input != []
    ensures Feed(e, input, completer, completes, multi).1 == Failed <==>
      completes && e.offering && input[0] as int >= 128
  {
    hide EscapeOf, PlainKey, TextOf;
    var c := input[0];
    var (e1, after) := if completes && (e.offering || c == TAB) then Complete(e, c, completer(TextOf(e)))
      else (e, Pass);
    if after == Pass {
      var (key, used) := if c == ESC then EscapeOf(input[1..]) else (PlainKey(c), 0);
      NeverFails(e1, key, multi);
    }
  }

  lemma NeverFails(e: Edit, key: Key, multi: bool)
    ensures ApplyKey(e, key, multi).1 != Failed
  {
    hide HistoryMove, Transpose, DeleteWord;
  }

  /** A tab and then the first byte of an accented letter; without the tab the byte is just inserted. */
  lemma HighByte()
    ensures var e, b := Edit("", "", 80, [""], 0, false, 0), 195 as char;
      && (var (e1, out, _) := Feed(e, [TAB], _ => ["ab"], true, false);
          out == More && Feed(e1, [b], _ => ["ab"], true, false).1 == Failed)
      && Feed(e, [b], _ => ["ab"], true, false) == (Insert(e, b), More, 1)
  {
    var e := Edit("", "", 80, [""], 0, false, 0);
    var (e1, _, _) := Feed(e, [TAB], _ => ["ab"], true, false);
    HighByteIff(e1, [195 as char], _ => ["ab"], true, false);
  }

  // ----- history

  function HistoryAdd(hist: seq<string>, max: nat, line: string): seq<string> {
    if max == 0 || (hist != [] && hist[|hist| - 1] == line) then hist
    else if |hist| == max then hist[1..] + [line]
    else hist + [line]
  }

  function SetMaxLen(hist: seq<string>, len: int): seq<string> {
    if len < 1 || |hist| <= len then hist else hist[|hist| - len..]
  }

  // ----- laws of the interpreter

  /** Left and right undo each other; backspace undoes an insertion that fitted, and is left then delete. */
  lemma {:induction false} UndoLaws(e: Edit, c: char)
    ensures e.left != "" ==> MoveRight(MoveLeft(e)) == e
    ensures e.right != "" ==> MoveLeft(MoveRight(e)) == e
    ensures |TextOf(e)| < e.cap ==> Backspace(Insert(e, c)) == e
    ensures e.left != "" ==> Delete(MoveLeft(e)) == Backspace(e)
  {
    assert e.left != "" ==> e.left == e.left[..|e.left| - 1] + [e.left[|e.left| - 1]];
    assert e.right != "" ==> e.right == [e.right[0]] + e.right[1..];
    assert (e.left + [c])[..|e.left|] == e.left;
    if e.right != "" {
      assert (e.left + [e.right[0]])[..|e.left|] == e.left;
    }
    if e.left != "" {
      assert ([e.left[|e.left| - 1]] + e.right)[1..] == e.right;
    }
  }

  predicate AllSpaces(s: string) { forall i :: 0 <= i < |s| ==> s[i] == ' ' }

  predicate NoSpaces(s: string) { forall i :: 0 <= i < |s| ==> s[i] != ' ' }

  lemma {:induction false} DropSpacesIs(s: string)
    ensures var r := DropSpaces(s); AllSpaces(s[|r|..]) && (r == "" || r[|r| - 1] != ' ')
  {
    if s != "" && s[|s| - 1] == ' ' {
      DropSpacesIs(s[..|s| - 1]);
    }
  }

  lemma {:induction false} DropWordIs(s: string)
    ensures var r := DropWord(s); NoSpaces(s[|r|..]) && (r == "" || r[|r| - 1] == ' ')
  {
    if s != "" && s[|s| - 1] != ' ' {
      DropWordIs(s[..|s| - 1]);
    }
  }

  /** Word delete takes the blanks before the cursor and the whole word before them, and nothing else. */
  lemma {:induction false} DeleteWordIs(e: Edit) returns (word: string, blanks: string)
    ensures e.left == DeleteWord(e).left + word + blanks && NoSpaces(word) && AllSpaces(blanks)
    ensures word == "" ==> DeleteWord(e).left == ""
    ensures DeleteWord(e).left == "" || DeleteWord(e).left[|DeleteWord(e).left| - 1] == ' '
    ensures DeleteWord(e).right == e.right
  {
    var mid := DropSpaces(e.left);
    DropSpacesIs(e.left);
    DropWordIs(mid);
    var kept := DropWord(mid);
    word, blanks := mid[|kept|..], e.left[|mid|..];
    assert e.left == mid + blanks && mid == kept + word;
  }

  /** Transposing exchanges the two neighbours of the cursor, and moves on unless at the last character. */
  lemma {:induction false} TransposeIs(e: Edit)
    requires e.left != "" && e.right != ""
    ensures var p, t := |e.left|, TextOf(e);
      TextOf(Transpose(e)) == t[p - 1 := t[p]][p := t[p - 1]]
    ensures |Transpose(e).left| == if |e.right| == 1 then |e.left| else |e.left| + 1
  {
    var p, t := |e.left|, TextOf(e);
    var keep, rest := e.left[..p - 1], e.right[1..];
    assert t == keep + [e.left[p - 1], e.right[0]] + rest;
    assert TextOf(Transpose(e)) == keep + [e.right[0], e.left[p - 1]] + rest;
  }

  ghost predicate Good(e: Edit) {
    |TextOf(e)| <= e.cap && e.cap >= 1 && e.index < |e.hist|
  }

  /** Going back in the history and forth again shows the line that was left, if it can be shown whole. */
  lemma {:induction false} BackAndForth(e: Edit)
    requires Good(e) && e.index + 1 < |e.hist| && |TextOf(e)| < e.cap
    ensures var e' := HistoryMove(HistoryMove(e, true), false);
      TextOf(e') == TextOf(e) && e'.index == e.index && e'.right == ""
  {
    var e1 := HistoryMove(e, true);
    var i, j := HistorySlot(e, e.index), HistorySlot(e, e.index + 1);
    assert i != j && e1.hist[i] == TextOf(e);
    var e2 := HistoryMove(e1, false);
    assert e2.hist[i] == TextOf(e);
    assert TextOf(e2) == TextOf(e);
  }

  lemma {:induction false} FeedKeepsGood(e: Edit, input: seq<char>, completer: Completer, completes: bool, multi: bool)
    requires Good(e) && forall t: string, s: string :: s in completer(t) ==> |s| < e.cap
    ensures var (e', out, _) := Feed(e, input, completer, completes, multi);
      e'.cap == e.cap && |TextOf(e')| <= e.cap && (out == More ==> Good(e'))
  {
    if input != [] {
      var c := input[0];
      var (e1, after) := if completes && (e.offering || c == TAB) then Complete(e, c, completer(TextOf(e)))
        else (e, Pass);
      assert Good(e1) && e1.cap == e.cap;
      if after == Pass {
        var key := if c == ESC then EscapeOf(input[1..]).0 else PlainKey(c);
        KeyKeepsGood(e1, key, multi);
      }
    }
  }

  lemma {:induction false} KeyKeepsGood(e: Edit, key: Key, multi: bool)
    requires Good(e)
    ensures var (e', out) := ApplyKey(e, key, multi);
      e'.cap == e.cap && |TextOf(e')| <= e.cap && (out == More ==> Good(e'))
  {
  }

  // ----- the history across an edit

  /**
   * An edit that never visits the history leaves it as it was, except that it
   * loses its last entry when that is empty, and otherwise its oldest when full.
   */
  lemma {:induction false} EditKeepsHistory(hist: seq<string>, max: nat, e: Edit)
    requires 1 <= max && |hist| <= max && e.hist == HistoryAdd(hist, max, "")
    ensures DropNewest(e).hist ==
      if hist != [] && hist[|hist| - 1] == "" then hist[..|hist| - 1]
      else if |hist| == max then hist[1..]
      else hist
  {
    assert hist + [""] != [] && (hist + [""])[..|hist|] == hist;
    if |hist| == max {
      assert (hist[1..] + [""])[..|hist| - 1] == hist[1..];
    }
  }

  /** Adding keeps the bound and the order, never repeats the last line, and shortening keeps the newest. */
  lemma {:induction false} HistoryLaws(hist: seq<string>, max: nat, line: string, len: int)
    requires |hist| <= max
    ensures |HistoryAdd(hist, max, line)| <= max
    ensures max > 0 ==>
      HistoryAdd(hist, max, line) != [] && HistoryAdd(hist, max, line)[|HistoryAdd(hist, max, line)| - 1] == line
    ensures HistoryAdd(HistoryAdd(hist, max, line), max, line) == HistoryAdd(hist, max, line)
    ensures max > 0 && (hist == [] || hist[|hist| - 1] != line) ==>
      HistoryAdd(hist, max, line) == (hist + [line])[|hist| + 1 - |HistoryAdd(hist, max, line)|..] &&
      (|HistoryAdd(hist, max, line)| == max || |HistoryAdd(hist, max, line)| == |hist| + 1)
    ensures len >= 1 ==>
      |SetMaxLen(hist, len)| <= len && SetMaxLen(hist, len) == hist[|hist| - |SetMaxLen(hist, len)|..]
    ensures len >= 1 ==> |SetMaxLen(hist, len)| == len || SetMaxLen(hist, len) == hist
    ensures len >= 1 && |hist| > 0 ==> SetMaxLen(hist, len)[|SetMaxLen(hist, len)| - 1] == hist[|hist| - 1]
  {
  }
}
