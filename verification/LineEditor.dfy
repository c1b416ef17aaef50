/**
 * The editor that works in place: a character buffer with a terminator, a
 * length and a cursor, moved about with block moves. Every operation is proved
 * to do what the interpreter on (left, right) does.
 */
module LineEditor {
  import opened LineEdit

  function Moved(s: seq<char>, dst: nat, src: nat, n: nat): (r: seq<char>)
    requires dst + n <= |s| && src + n <= |s|
    ensures |r| == |s|
  {
    s[..dst] + s[src..src + n] + s[dst + n..]
  }

  /** memmove within one buffer. */
  method BlockMove(a: array<char>, dst: nat, src: nat, n: nat)
    requires dst + n <= a.Length && src + n <= a.Length
    modifies a
    ensures a[..] == Moved(old(a[..]), dst, src, n)
  {
    forall i | 0 <= i < n {
      a[dst + i] := a[src + i];
    }
  }

  predicate NoNul(s: string) { forall i :: 0 <= i < |s| ==> s[i] != NUL }

  /** The C string that starts a buffer. */
  function CString(s: seq<char>): (r: string)
    ensures r <= s && NoNul(r)
    ensures |r| < |s| ==> s[|r|] == NUL
  {
    if s == [] || s[0] == NUL then [] else [s[0]] + CString(s[1..])
  }

  lemma {:induction false} CStringIs(s: seq<char>, n: nat)
    requires n < |s| && s[n] == NUL && NoNul(s[..n])
    ensures CString(s) == s[..n]
  {
    if n > 0 {
      assert s[0] == s[..n][0] && s[1..][..n - 1] == s[..n][1..];
      CStringIs(s[1..], n - 1);
    }
  }

  lemma InsertMoves(s: seq<char>, pos: nat, len: nat, c: char)
    requires pos <= len && len + 1 < |s| && NoNul(s[..len]) && c != NUL
    ensures var r := Moved(s, pos + 1, pos, len - pos)[pos := c][len + 1 := NUL];
      r[..pos + 1] == s[..pos] + [c] && r[pos + 1..len + 1] == s[pos..len] && NoNul(r[..len + 1])
  {
    var r := Moved(s, pos + 1, pos, len - pos)[pos := c][len + 1 := NUL];
    assert s[..len] == s[..pos] + s[pos..len];
    assert r[..len + 1] == s[..pos] + [c] + s[pos..len];
  }

  lemma CutMoves(s: seq<char>, to: nat, from: nat, len: nat, n: nat)
    requires to <= from <= len && len < |s| && NoNul(s[..len]) && len - from <= n <= len - from + 1
    ensures var r := Moved(s, to, from, n);
      && r[..to] == s[..to] && r[to..len - (from - to)] == s[from..len] && NoNul(r[..len - (from - to)])
      && (n == len - from + 1 && s[len] == NUL ==> r[len - (from - to)] == NUL)
  {
    var r := Moved(s, to, from, n);
    assert s[..len] == s[..from] + s[from..len] && s[..to] == s[..from][..to];
    assert r[..len - (from - to)] == s[..to] + s[from..len];
  }

  class Editor {
    const buf: array<char>
    const buflen: nat
    var len: nat
    var pos: nat
    var history: seq<string>
    var historyMax: nat
    var historyIndex: int
    var inCompletion: bool
    var completionIdx: nat

    ghost predicate GoodBuffer()
      reads this, buf
    {
      && buf.Length == buflen + 1 && buflen >= 1
      && pos <= len <= buflen && buf[len] == NUL && NoNul(buf[..len])
    }

    ghost predicate Valid()
      reads this, buf
    {
      && GoodBuffer()
      && 1 <= |history| <= historyMax && 0 <= historyIndex < |history|
      && (forall s :: s in history ==> NoNul(s))
    }

    ghost function View(): Edit
      requires GoodBuffer() && 0 <= historyIndex
      reads this, buf
    {
      Edit(buf[..pos], buf[pos..len], buflen, history, historyIndex, inCompletion, completionIdx)
    }

    /** linenoiseEditStart: an empty line on top of the history. */
    constructor (b: array<char>, hist: seq<string>, max: nat)
      requires b.Length >= 2 && 1 <= max && |hist| <= max && forall s :: s in hist ==> NoNul(s)
      modifies b
      ensures buf == b && Valid() && historyMax == max
      ensures View() == Edit("", "", b.Length - 1, HistoryAdd(hist, max, ""), 0, false, 0)
    {
      buf, buflen := b, b.Length - 1;
      len, pos, historyIndex, inCompletion, completionIdx := 0, 0, 0, false, 0;
      history, historyMax := HistoryAdd(hist, max, ""), max;
      new;
      buf[0] := NUL;
    }

    method EditInsert(c: char)
      requires Valid() && c != NUL
      modifies this`len, this`pos, buf
      ensures Valid() && View() == Insert(old(View()), c)
    {
      if len < buflen {
        if len == pos {
          buf[pos] := c;
          pos := pos + 1;
          len := len + 1;
          buf[len] := NUL;
          assert buf[..len] == old(buf[..len]) + [c];
        } else {
          InsertInside(c);
        }
      }
    }

    method InsertInside(c: char)
      requires Valid() && c != NUL && len < buflen
      modifies this`len, this`pos, buf
      ensures Valid() && View() == Insert(old(View()), c)
    {
      ghost var s := buf[..];
      assert s[..len] == buf[..len] && s[..pos] == buf[..pos] && s[pos..len] == buf[pos..len];
      InsertMoves(s, pos, len, c);
      BlockMove(buf, pos + 1, pos, len - pos);
      buf[pos] := c;
      len := len + 1;
      pos := pos + 1;
      buf[len] := NUL;
      ghost var r := buf[..];
      hide Moved, NoNul;
      assert r[..len] == buf[..len] && r[..pos] == buf[..pos] && r[pos..len] == buf[pos..len];
    }

    method EditMoveLeft()
      requires Valid()
      modifies this`pos
      ensures Valid() && View() == MoveLeft(old(View()))
    {
      if pos > 0 {
        pos := pos - 1;
      }
    }

    method EditMoveRight()
      requires Valid()
      modifies this`pos
      ensures Valid() && View() == MoveRight(old(View()))
    {
      if pos != len {
        pos := pos + 1;
      }
    }

    method EditMoveHome()
      requires Valid()
      modifies this`pos
      ensures Valid() && View() == MoveHome(old(View()))
    {
      if pos != 0 {
        pos := 0;
      }
      assert buf[..len] == old(buf[..pos]) + old(buf[pos..len]);
    }

    method EditMoveEnd()
      requires Valid()
      modifies this`pos
      ensures Valid() && View() == MoveEnd(old(View()))
    {
      if pos != len {
        pos := len;
      }
      assert buf[..len] == old(buf[..pos]) + old(buf[pos..len]);
    }

    method EditDelete()
      requires Valid()
      modifies this`len, buf
      ensures Valid() && View() == Delete(old(View()))
    {
      if len > 0 && pos < len {
        ghost var s := buf[..];
        assert s[..len] == buf[..len] && s[..pos] == buf[..pos] && s[pos..len] == buf[pos..len];
        CutMoves(s, pos, pos + 1, len, len - pos - 1);
        BlockMove(buf, pos, pos + 1, len - pos - 1);
        ghost var r := buf[..];
        len := len - 1;
        buf[len] := NUL;
        hide Moved, NoNul;
        assert r[..len] == buf[..len] && r[..pos] == buf[..pos] && r[pos..len] == buf[pos..len];
      }
    }

    method EditBackspace()
      requires Valid()
      modifies this`len, this`pos, buf
      ensures Valid() && View() == Backspace(old(View()))
    {
      if pos > 0 && len > 0 {
        ghost var s := buf[..];
        assert s[..len] == buf[..len] && s[..pos - 1] == buf[..pos][..pos - 1] && s[pos..len] == buf[pos..len];
        CutMoves(s, pos - 1, pos, len, len - pos);
        BlockMove(buf, pos - 1, pos, len - pos);
        ghost var r := buf[..];
        pos := pos - 1;
        len := len - 1;
        buf[len] := NUL;
        hide Moved, NoNul;
        assert r[..len] == buf[..len] && r[..pos] == buf[..pos] && r[pos..len] == buf[pos..len];
      }
    }

    /** Back over spaces, then back over the word before them. */
    method WordStart() returns (p: nat)
      requires Valid()
      ensures p <= pos && buf[..p] == DropWord(DropSpaces(buf[..pos]))
    {
      ghost var left := buf[..pos];
      p := pos;
      assert left[..p] == left;
      while p > 0 && buf[p - 1] == ' '
        invariant p <= pos && DropSpaces(left[..p]) == DropSpaces(left)
      {
        assert left[..p][..p - 1] == left[..p - 1];
        p := p - 1;
      }
      ghost var mid := p;
      while p > 0 && buf[p - 1] != ' '
        invariant p <= mid && DropWord(left[..p]) == DropWord(left[..mid])
      {
        assert left[..p][..p - 1] == left[..p - 1];
        p := p - 1;
      }
      assert buf[..p] == left[..p];
    }

    method EditDeletePrevWord()
      requires Valid()
      modifies this`len, this`pos, buf
      ensures Valid() && View() == DeleteWord(old(View()))
    {
      hide Moved, NoNul, DropWord, DropSpaces;
      ghost var s := buf[..];
      assert s[..len] == buf[..len] && s[pos..len] == buf[pos..len];
      var oldPos := pos;
      pos := WordStart();
      assert s[..pos] == buf[..pos];
      CutMoves(s, pos, oldPos, len, len - oldPos + 1);
      var diff := oldPos - pos;
      BlockMove(buf, pos, oldPos, len - oldPos + 1);
      len := len - diff;
      ghost var r := buf[..];
      assert r[..len] == buf[..len] && r[..pos] == buf[..pos] && r[pos..len] == buf[pos..len];
    }

    method EditTranspose()
      requires Valid()
      modifies this`pos, buf
      ensures Valid() && View() == Transpose(old(View()))
    {
      if pos > 0 && pos < len {
        ghost var e := View();
        var aux := buf[pos - 1];
        buf[pos - 1] := buf[pos];
        buf[pos] := aux;
        assert NoNul(buf[..len]) by {
          forall i | 0 <= i < len ensures buf[i] != NUL {
            assert old(buf[..len])[i] != NUL && old(buf[..len])[pos] != NUL && old(buf[..len])[pos - 1] != NUL;
          }
        }
        if pos != len - 1 {
          pos := pos + 1;
        }
        assert buf[..pos] == Transpose(e).left;
        assert buf[pos..len] == Transpose(e).right;
      }
    }

    method EditKillLine()
      requires Valid()
      modifies this`len, this`pos, buf
      ensures Valid() && View() == KillLine(old(View()))
    {
      buf[0] := NUL;
      pos, len := 0, 0;
    }

    method EditKillEnd()
      requires Valid()
      modifies this`len, buf
      ensures Valid() && View() == KillEnd(old(View()))
    {
      buf[pos] := NUL;
      len := pos;
      assert buf[..len] == old(buf[..len])[..pos];
    }

    /** strdup of the buffer. */
    method Duplicate() returns (s: string)
      requires Valid()
      ensures s == TextOf(View()) && NoNul(s)
    {
      s := CString(buf[..]);
      assert buf[..][..len] == buf[..len];
      CStringIs(buf[..], len);
      assert buf[..len] == buf[..pos] + buf[pos..len];
    }

    /** strncpy of at most n characters, padded with terminators. */
    method CopyPadded(s: string, n: nat)
      requires n < buf.Length
      modifies buf
      ensures forall i :: 0 <= i < n ==> buf[i] == if i < |s| then s[i] else NUL
      ensures forall i :: n <= i < buf.Length ==> buf[i] == old(buf[i])
    {
      forall i | 0 <= i < n {
        buf[i] := if i < |s| then s[i] else NUL;
      }
    }

    /** Load a history entry: what does not fit is cut off. */
    method LoadEntry(s: string)
      requires buf.Length == buflen + 1 && buflen >= 1 && NoNul(s)
      modifies this`len, this`pos, buf
      ensures len == pos == |Fit(s, buflen)| && buf[..len] == Fit(s, buflen) && buf[len] == NUL
    {
      CopyPadded(s, buflen);
      buf[buflen - 1] := NUL;
      ghost var r := Fit(s, buflen);
      assert buf[..][..|r|] == r;
      CStringIs(buf[..], |r|);
      len := |CString(buf[..])|;
      pos := len;
    }

    method EditHistoryNext(back: bool)
      requires Valid()
      modifies this`len, this`pos, this`history, this`historyIndex, buf
      ensures Valid() && View() == HistoryMove(old(View()), back)
    {
      if |history| > 1 {
        ghost var e := View();
        var text := Duplicate();
        history := history[|history| - 1 - historyIndex := text];
        historyIndex := historyIndex + if back then 1 else -1;
        if historyIndex < 0 {
          historyIndex := 0;
          return;
        } else if historyIndex >= |history| {
          historyIndex := |history| - 1;
          return;
        }
        LoadEntry(history[|history| - 1 - historyIndex]);
      }
    }

    /**
     * snprintf of a completion into the buffer. It returns the full length even
     * when it cuts the text, so the buffer stays good exactly when the text fits.
     */
    method TakeCompletion(s: string)
      requires Valid() && NoNul(s)
      modifies this`len, this`pos, buf
      ensures GoodBuffer() <==> |s| < buflen
      ensures len == pos == |s|
      ensures GoodBuffer() ==> View() == old(View()).(left := s, right := "")
    {
      var n := if |s| < buflen then |s| else buflen - 1;
      forall i | 0 <= i < n {
        buf[i] := s[i];
      }
      buf[n] := NUL;
      len, pos := |s|, |s|;
      if |s| < buflen {
        assert buf[..len] == s;
      } else if |s| == buflen {
        assert buf[..len][n] == NUL;
      }
    }

    // ----- keys

    /** Drop the entry that stood for the line being edited. */
    method DropEntry()
      requires GoodBuffer() && 0 <= historyIndex && history != []
      modifies this`history
      ensures GoodBuffer() && View() == DropNewest(old(View()))
    {
      history := history[..|history| - 1];
    }

    method EnterKey(multi: bool) returns (out: Outcome)
      requires Valid()
      modifies this`history, this`pos
      ensures GoodBuffer() && 0 <= historyIndex && (View(), out) == ApplyKey(old(View()), Enter, multi)
    {
      ghost var e := View();
      assert buf[..len] == e.left + e.right;
      DropEntry();
      if multi {
        pos := len;
      }
      assert View() == DropNewest(if multi then MoveEnd(e) else e);
      assert buf[..][..len] == buf[..len];
      CStringIs(buf[..], len);
      out := Line(CString(buf[..]));
    }

    method CtrlDKey() returns (out: Outcome)
      requires Valid()
      modifies this`history, this`len, buf
      ensures GoodBuffer() && 0 <= historyIndex && (out == More ==> Valid())
      ensures (View(), out) == ApplyKey(old(View()), CtrlD, false)
    {
      if len > 0 {
        EditDelete();
        out := More;
      } else {
        DropEntry();
        out := EndOfInput;
      }
    }

    method EscapeKey(rest: seq<char>, multi: bool) returns (used: nat)
      requires Valid()
      modifies this`len, this`pos, this`history, this`historyIndex, buf
      ensures Valid() && used == EscapeOf(rest).1
      ensures (View(), More) == ApplyKey(old(View()), EscapeOf(rest).0, multi)
    {
      hide Valid, View, GoodBuffer, MoveLeft, MoveRight, MoveHome, MoveEnd, Delete, HistoryMove;
      if |rest| < 2 {
        return |rest|;
      }
      used := 2;
      if rest[0] == '[' {
        if '0' <= rest[1] <= '9' {
          if |rest| < 3 {
            return;
          }
          used := 3;
          if rest[2] == '~' && rest[1] == '3' {
            EditDelete();
          }
        } else {
          match rest[1] {
            case 'A' => EditHistoryNext(true);
            case 'B' => EditHistoryNext(false);
            case 'C' => EditMoveRight();
            case 'D' => EditMoveLeft();
            case 'H' => EditMoveHome();
            case 'F' => EditMoveEnd();
            case _ =>
          }
        }
      } else if rest[0] == 'O' {
        match rest[1] {
          case 'H' => EditMoveHome();
          case 'F' => EditMoveEnd();
          case _ =>
        }
      }
    }

    method PlainByte(c: char, multi: bool) returns (out: Outcome)
      requires Valid() && c != NUL
      modifies this`len, this`pos, this`history, this`historyIndex, buf
      ensures GoodBuffer() && 0 <= historyIndex && (out == More ==> Valid())
      ensures (View(), out) == ApplyKey(old(View()), PlainKey(c), multi)
    {
      hide View, GoodBuffer, MoveLeft, MoveRight, MoveHome, MoveEnd, Delete, HistoryMove, Backspace, Transpose,
        KillLine, KillEnd,
           DeleteWord, DropNewest, TextOf, Insert;
      out := More;
      match c as int {
        case 13 => out := EnterKey(multi);
        case 3 => out := Interrupted;
        case 127 => EditBackspace();
        case 8 => EditBackspace();
        case 4 => out := CtrlDKey();
        case 20 => EditTranspose();
        case 2 => EditMoveLeft();
        case 6 => EditMoveRight();
        case 16 => EditHistoryNext(true);
        case 14 => EditHistoryNext(false);
        case 21 => EditKillLine();
        case 11 => EditKillEnd();
        case 1 => EditMoveHome();
        case 5 => EditMoveEnd();
        case 12 =>
        case 23 => EditDeletePrevWord();
        case _ => EditInsert(c);
      }
    }

    // ----- completion

    /** The completions that fit: snprintf returns the full length even when it cuts the text. */
    ghost predicate Fitting(completer: Completer)
      reads this
    {
      forall t: string, s: string :: s in completer(t) ==> NoNul(s) && |s| < buflen
    }

    method CompleteLine(c: char, completer: Completer) returns (after: AfterCompletion)
      requires Valid() && Fitting(completer)
      modifies this`len, this`pos, this`inCompletion, this`completionIdx, buf
      ensures Valid() && (View(), after) == Complete(old(View()), c, completer(TextOf(old(View()))))
    {
      var text := Duplicate();
      var offers := completer(text);
      after := if c as int >= 128 then Abort else Pass;
      if offers == [] {
        inCompletion := false;
      } else if c == TAB {
        if !inCompletion {
          inCompletion, completionIdx := true, 0;
        } else {
          completionIdx := (completionIdx + 1) % (|offers| + 1);
        }
        after := Consumed;
      } else if c == ESC {
        inCompletion := false;
        after := Consumed;
      } else {
        if completionIdx < |offers| {
          assert offers[completionIdx] in completer(text);
          TakeCompletion(offers[completionIdx]);
        }
        inCompletion := false;
      }
    }

    // ----- bytes

    method EditFeed(input: seq<char>, completer: Completer, completes: bool, multi: bool)
        returns (out: Outcome, used: nat)
      requires Valid() && Fitting(completer) && NoNul(input)
      modifies this`len, this`pos, this`history, this`historyIndex, this`inCompletion, this`completionIdx, buf
      ensures GoodBuffer() && 0 <= historyIndex && (out == More ==> Valid())
      ensures (View(), out, used) == Feed(old(View()), input, completer, completes, multi)
    {
      hide GoodBuffer, ApplyKey, PlainKey, EscapeOf, Complete, TextOf;
      if input == [] {
        return Failed, 0;
      }
      var c := input[0];
      var after := Pass;
      if completes && (inCompletion || c == TAB) {
        after := CompleteLine(c, completer);
      }
      match after {
        case Consumed => return More, 1;
        case Abort => return Failed, 1;
        case Pass =>
      }
      if c == ESC {
        used := EscapeKey(input[1..], multi);
        out, used := More, used + 1;
      } else {
        out := PlainByte(c, multi);
        used := 1;
      }
    }

    /** linenoiseBlockingEdit: feed until the line is finished. */
    method BlockingEdit(input: seq<char>, completer: Completer, completes: bool, multi: bool) returns (out: Outcome)
      requires Valid() && Fitting(completer) && NoNul(input)
      modifies this`len, this`pos, this`history, this`historyIndex, this`inCompletion, this`completionIdx, buf
      ensures GoodBuffer() && 0 <= historyIndex && out != More
      ensures (View(), out) == FeedAll(old(View()), input, completer, completes, multi)
    {
      hide View, GoodBuffer, Feed;
      var at, used := 0, 0;
      out := More;
      while out == More
        invariant GoodBuffer() && 0 <= historyIndex && at <= |input| && (out == More ==> Valid())
        invariant out == More ==>
                    FeedAll(View(), input[at..], completer, completes, multi) ==
                    FeedAll(old(View()), input, completer, completes, multi)
        invariant out != More ==> (View(), out) == FeedAll(old(View()), input, completer, completes, multi)
        decreases |input| - at, out == More
      {
        ghost var e := View();
        FeedUses(e, input[at..], completer, completes, multi);
        out, used := EditFeed(input[at..], completer, completes, multi);
        assert input[at..][used..] == input[at + used..];
        at := at + used;
      }
    }
  }

  /** Six characters for a buffer of four: the length is beyond the text and beyond the buffer. */
  method LongCompletion() returns (e: Editor)
    ensures fresh(e) && e.len == 6 && e.buflen == 4 && !e.GoodBuffer()
  {
    var b := new char[5];
    e := new Editor(b, [], 1);
    e.TakeCompletion("abcdef");
  }
}
