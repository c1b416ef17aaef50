/** What is on the screen after any sequence of redraws. */
module LineRefreshProof {
  import opened Division
  import opened LineTerminal
  import opened LineRefresh

  function Span(rows: nat): nat { if rows == 0 then 1 else rows }

  /** How far below the cursor the last row of the picture is taken to be. */
  function Below(plen: nat, pos: nat, rows: nat, cols: nat): nat
    requires cols >= 1
  {
    if rows > RowOfCursor(plen, pos, cols) then rows - RowOfCursor(plen, pos, cols) else 0
  }

  /** The picture starts in row `origin`, and what is remembered of it leads to its last row. */
  ghost predicate Displayed(s: Screen, origin: int, text: string, plen: nat) {
    && Good(s.term) && Shows(s.term, origin, text)
    && s.term.top <= origin && origin + Span(s.oldrows) <= s.term.top + s.term.height
    && (forall i: nat :: i < |text| ==> i / s.term.cols < Span(s.oldrows))
    && s.term.row + Below(plen, s.oldpos, s.oldrows, s.term.cols) == origin + Span(s.oldrows) - 1
  }

  /** An empty picture with the cursor at its start. */
  ghost predicate Blank(t: Term, origin: int) {
    Good(t) && After(t, origin, 0) && Shows(t, origin, "") && t.top <= origin
  }

  predicate SameFrame(t: Term, t': Term) { t'.cols == t.cols && t'.height == t.height }

  // ----- clearing

  lemma WipeRow(t: Term)
    requires Good(t)
    ensures var t' := Run(t, [Return, EraseRight]);
      && t' == t.(col := 0, pending := false, cells := t'.cells)
      && forall r: int, c: nat :: CellAt(t', r, c) == if r == t.row then ' ' else CellAt(t, r, c)
  {
    assert [Return, EraseRight] == [Return] + [EraseRight];
    RunSplit(t, [Return], [EraseRight]);
    RunOne(t, Return);
    RunOne(t.(col := 0, pending := false), EraseRight);
  }

  lemma {:induction false} ClearUpWorks(t: Term, origin: int, k: nat)
    requires Good(t) && t.row == origin + k && t.top <= origin
    ensures var t' := Run(t, ClearUp(k));
      && Good(t') && SameFrame(t, t') && t'.row == origin && t'.top == t.top
      && forall r: int, c: nat :: CellAt(t', r, c) == if origin < r <= origin + k then ' ' else CellAt(t, r, c)
    decreases k
  {
    if k > 0 {
      ClearUpWorks(t, origin + 1, k - 1);
      var t1 := Run(t, ClearUp(k - 1));
      WipeRow(t1);
      var t2 := Run(t1, [Return, EraseRight]);
      assert [Return, EraseRight, Up(1)] == [Return, EraseRight] + [Up(1)];
      RunSplit(t1, [Return, EraseRight], [Up(1)]);
      RunOne(t2, Up(1));
      RunSplit(t, ClearUp(k - 1), [Return, EraseRight, Up(1)]);
      var t' := Run(t, ClearUp(k));
      hide Run, Step;
      assert t'.cells == t2.cells;
      forall r: int, c: nat ensures CellAt(t', r, c) == if origin < r <= origin + k then ' ' else CellAt(t, r, c) {
        assert CellAt(t', r, c) == CellAt(t2, r, c);
      }
    }
  }

  lemma DownWorks(t: Term, d: nat)
    requires Good(t) && t.row + d < t.top + t.height
    ensures var t' := Run(t, if d > 0 then [Down(d)] else []);
      Good(t') && SameFrame(t, t') && t'.row == t.row + d && t'.top == t.top && t'.cells == t.cells
  {
    RunOne(t, Down(d));
  }

  /** Cleaning removes the whole old picture, touches nothing above it, and ends at its start. */
  lemma {:induction false} CleanWorks(s: Screen, origin: int, text: string, plen: nat)
    requires Displayed(s, origin, text, plen)
    ensures
      var clean := CleanCmds(s.oldrows, RowOfCursor(plen, s.oldpos, s.term.cols));
      var t' := Run(s.term, clean + [Return, EraseRight]);
      Blank(t', origin) && SameFrame(s.term, t') && SameAbove(s.term, t', origin)
  {
    hide Run, ClearUp, Good, RowOfCursor;
    var t, k := s.term, Span(s.oldrows) - 1;
    var down := if Below(plen, s.oldpos, s.oldrows, t.cols) > 0 then [Down(Below(plen, s.oldpos, s.oldrows, t.cols))]
      else [];
    DownWorks(t, Below(plen, s.oldpos, s.oldrows, t.cols));
    var t1 := Run(t, down);
    ClearUpWorks(t1, origin, k);
    var t2 := Run(t1, ClearUp(k));
    WipeRow(t2);
    RunSplit(t, down, ClearUp(k));
    RunSplit(t, down + ClearUp(k), [Return, EraseRight]);
    var t3 := Run(t2, [Return, EraseRight]);
    forall i: nat ensures At(t3, origin, i) == CharAt("", i) {
      assert At(t, origin, i) == CharAt(text, i);
      DivMonotone(0, i, t.cols);
    }
    GoodAt(t2, t3);
  }

  lemma GoodAt(t: Term, t': Term)
    requires Good(t) && t' == t.(col := 0, pending := false, cells := t'.cells)
    ensures Good(t') && After(t', t'.row, 0)
  {
  }

  // ----- writing

  lemma {:induction false} HintRuns(t: Term, v: View, cols: nat)
    ensures Run(t, HintCmds(v, cols)) == Run(t, Text(HintText(v, cols)))
  {
    var h := HintText(v, cols);
    if |v.prompt| + |v.buf| < cols && v.hint != "" {
      if v.styled {
        RunSplit(t, [Style] + Text(h), [Style]);
        RunSplit(t, [Style], Text(h));
        RunOne(t, Style);
        RunOne(Run(t, Text(h)), Style);
      } else {
        assert HintCmds(v, cols) == Text(h);
      }
    }
  }

  lemma {:induction false} TextWorks(t: Term, v: View)
    ensures Run(t, TextCmds(v, t.cols)) == Run(t, Text(ShownText(v, t.cols)))
  {
    hide Run, HintCmds, HintText;
    var a, h := Text(v.prompt) + Text(Content(v)), HintText(v, t.cols);
    assert Text(ShownText(v, t.cols)) == a + Text(h);
    RunSplit(t, a, HintCmds(v, t.cols));
    RunSplit(t, a, Text(h));
    HintRuns(Run(t, a), v, t.cols);
  }

  lemma RowsOfIs(n: nat, cols: nat)
    requires cols >= 1
    ensures RowsOf(n, cols) == if n == 0 then 0 else (n - 1) / cols + 1
    ensures n >= 1 && n % cols == 0 ==> n / cols == RowsOf(n, cols)
    ensures n >= 1 && n % cols != 0 ==> n / cols + 1 == RowsOf(n, cols)
  {
    if n == 0 {
      DivUnique(cols - 1, cols, 0, cols - 1);
    } else {
      DivPlus(n - 1, cols);
      DivStep(n - 1, cols);
    }
  }

  /** The picture takes Span(rows) rows and text ends in the last of them. */
  lemma {:induction false} LastRow(v: View, cols: nat)
    requires cols >= 1
    ensures var m := |ShownText(v, cols)|;
      && Span(RowsOf(|v.prompt| + |v.buf|, cols)) == (if m == 0 then 0 else (m - 1) / cols) + 1
      && forall i: nat :: i < m ==> i / cols < Span(RowsOf(|v.prompt| + |v.buf|, cols))
  {
    var n, m := |v.prompt| + |v.buf|, |ShownText(v, cols)|;
    RowsOfIs(n, cols);
    if m > n {
      DivUnique(m - 1, cols, 0, m - 1);
      if n > 0 {
        DivUnique(n - 1, cols, 0, n - 1);
      }
    }
    forall i: nat | i < m ensures i / cols <= (m - 1) / cols {
      DivMonotone(i, m - 1, cols);
    }
  }

  lemma CursorRowIs(plen: nat, pos: nat, cols: nat)
    requires cols >= 1
    ensures RowOfCursor(plen, pos, cols) == (plen + pos) / cols + 1 >= 1
  {
    DivPlus(plen + pos, cols);
    DivMonotone(0, plen + pos, cols);
  }

  /** The prompt alone fills whole rows: the one case in which the cursor is left a row too high. */
  predicate PromptFillsRows(v: View, cols: nat)
    requires cols >= 1
  {
    |v.buf| == 0 && |v.prompt| > 0 && |v.prompt| % cols == 0
  }

  lemma {:induction false} RowsCoverCursor(v: View, cols: nat)
    requires cols >= 1 && Legal(v)
    ensures Span(RowsAfter(v, cols)) >= RowOfCursor(|v.prompt|, v.pos, cols) <==> !PromptFillsRows(v, cols)
    ensures RowsAfter(v, cols) > 0 || RowOfCursor(|v.prompt|, v.pos, cols) == 1
    ensures OpensRow(v, cols) ==> RowsOf(|v.prompt| + |v.buf|, cols) >= 1
  {
    var n, c := |v.prompt| + |v.buf|, |v.prompt| + v.pos;
    CursorRowIs(|v.prompt|, v.pos, cols);
    RowsOfIs(n, cols);
    if c < n {
      DivMonotone(c, n - 1, cols);
    }
    if n == 0 {
      DivUnique(0, cols, 0, 0);
    }
  }

  function OpenCmds(v: View, cols: nat): seq<Cmd>
    requires cols >= 1
  {
    if OpensRow(v, cols) then [LineFeed, Return] else []
  }

  lemma {:induction false} OpenWorks(t: Term, v: View)
    requires Good(t) && Legal(v)
    ensures var t' := Run(t, OpenCmds(v, t.cols));
      && Good(t') && SameFrame(t, t') && t'.cells == t.cells
      && t'.row == t.row + (if OpensRow(v, t.cols) then 1 else 0)
      && (t'.top == t.top || t'.top <= t'.row - t.height + 1)
  {
    if OpensRow(v, t.cols) {
      assert [LineFeed, Return] == [LineFeed] + [Return];
      RunSplit(t, [LineFeed], [Return]);
      RunOne(t, LineFeed);
      RunOne(NextLine(t), Return);
    }
  }

  /** Upwards, but not out of the window. */
  lemma UpWorks(t: Term, d: nat)
    requires Good(t)
    ensures var t' := Run(t, if d > 0 then [Up(d)] else []);
      && Good(t') && SameFrame(t, t') && t'.top == t.top && t'.cells == t.cells
      && t'.row == if t.row - d < t.top then t.top else t.row - d
  {
    RunOne(t, Up(d));
  }

  lemma ColumnWorks(t: Term, col: nat)
    requires Good(t) && col < t.cols
    ensures var t' := Run(t, if col != 0 then [Return, Forward(col)] else [Return]);
      Good(t') && t' == t.(col := col, pending := false)
  {
    RunOne(t, Return);
    if col != 0 {
      assert [Return, Forward(col)] == [Return] + [Forward(col)];
      RunSplit(t, [Return], [Forward(col)]);
      RunOne(t.(col := 0, pending := false), Forward(col));
    }
  }

  /** The last row of the new picture, with the row that is opened for the cursor. */
  function LastOf(v: View, cols: nat, origin: int): int
    requires cols >= 1
  {
    origin + Span(RowsAfter(v, cols)) - 1
  }

  /** The picture is no taller than the window. */
  predicate Fits(v: View, cols: nat, height: nat)
    requires cols >= 1
  {
    Span(RowsAfter(v, cols)) <= height
  }

  /** How many rows the cursor has to go up again once the text is written. */
  function GoesUp(v: View, cols: nat): nat
    requires cols >= 1
  {
    Below(|v.prompt|, v.pos, RowsAfter(v, cols), cols)
  }

  /** Placing the cursor changes no cell and moves from the last row to the cursor's, or to the top of the window. */
  lemma {:induction false} PlaceWorks(t: Term, v: View, origin: int)
    requires Good(t) && Legal(v) && t.row == origin + Span(RowsOf(|v.prompt| + |v.buf|, t.cols)) - 1
    requires t.top <= origin || t.top <= t.row - t.height + 1
    ensures var t', last := Run(t, PlaceCmds(v, t.cols)), LastOf(v, t.cols, origin);
      && Good(t') && SameFrame(t, t') && t'.cells == t.cells && last - t.height < t'.top
      && (t'.top <= origin || t'.top <= last - t.height + 1)
      && t'.row == (if last - GoesUp(v, t.cols) < t'.top then t'.top else last - GoesUp(v, t.cols))
      && t'.col == (|v.prompt| + v.pos) % t.cols && !t'.pending
  {
    hide Run, OpensRow, RowOfCursor, RowsOf;
    var cols := t.cols;
    var rpos, rows, col := RowOfCursor(|v.prompt|, v.pos, cols), RowsAfter(v, cols), (|v.prompt| + v.pos) % cols;
    var d := GoesUp(v, cols);
    var up := if d > 0 then [Up(d)] else [];
    var place := if col != 0 then [Return, Forward(col)] else [Return];
    RowsCoverCursor(v, cols);
    OpenWorks(t, v);
    var t1 := Run(t, OpenCmds(v, cols));
    UpWorks(t1, d);
    var t2 := Run(t1, up);
    ColumnWorks(t2, col);
    RunSplit(t, OpenCmds(v, cols), up);
    RunSplit(t, OpenCmds(v, cols) + up, place);
    assert PlaceCmds(v, cols) == OpenCmds(v, cols) + up + place;
  }

  /** Where the way up ends, counted from the start of the picture. */
  lemma UpLeadsTo(v: View, cols: nat)
    requires cols >= 1 && Legal(v)
    ensures GoesUp(v, cols) < Span(RowsAfter(v, cols))
    ensures Span(RowsAfter(v, cols)) - 1 - GoesUp(v, cols) == (|v.prompt| + v.pos) / cols <==> !PromptFillsRows(v, cols)
    ensures PromptFillsRows(v, cols) ==> GoesUp(v, cols) == 0
  {
    hide RowOfCursor, RowsOf, OpensRow;
    RowsCoverCursor(v, cols);
    CursorRowIs(|v.prompt|, v.pos, cols);
  }

  /**
   * Writing: the text is all there, in the rows from `origin` on. The picture is
   * such that it can be cleared again exactly when it fits the window, and the
   * cursor is in its row exactly when the way up to it is shorter than the
   * window and the prompt does not fill whole rows.
   */
  lemma {:induction false} WriteWorks(t: Term, v: View, origin: int)
    requires Blank(t, origin) && Legal(v)
    ensures var t' := Run(t, TextCmds(v, t.cols) + PlaceCmds(v, t.cols));
      && Good(t') && Shows(t', origin, ShownText(v, t.cols)) && SameFrame(t, t') && SameAbove(t, t', origin)
      && LastOf(v, t.cols, origin) - t.height < t'.top
      && (Displayed(Screen(t', v.pos, RowsAfter(v, t.cols)), origin, ShownText(v, t.cols), |v.prompt|) <==>
        Fits(v, t.cols, t.height))
      && t'.col == (|v.prompt| + v.pos) % t.cols && !t'.pending
      && (t'.row == origin + (|v.prompt| + v.pos) / t.cols <==>
        !PromptFillsRows(v, t.cols) && GoesUp(v, t.cols) < t.height)
  {
    hide Run, TextCmds, PlaceCmds, ShownText, RowsOf, OpensRow, Good, RowOfCursor, GoesUp, PromptFillsRows;
    var text := ShownText(v, t.cols);
    TextWorks(t, v);
    PutText(t, origin, text);
    var t1 := Run(t, Text(text));
    AfterRow(t1, origin, |text|);
    LastRow(v, t.cols);
    UpLeadsTo(v, t.cols);
    GoodWindow(t);
    GoodWindow(t1);
    PlaceWorks(t1, v, origin);
    RunSplit(t, TextCmds(v, t.cols), PlaceCmds(v, t.cols));
    var t' := Run(t1, PlaceCmds(v, t.cols));
    forall i: nat ensures At(t', origin, i) == CharAt(text, i) {
      assert At(t1, origin, i) == if i < |text| then text[i] else At(t, origin, i);
      assert At(t, origin, i) == CharAt("", i);
    }
    GoodWindow(t');
    LongEnough(v, t.cols);
    GoesUpIs(v, t.cols);
  }

  lemma GoesUpIs(v: View, cols: nat)
    requires cols >= 1
    ensures GoesUp(v, cols) == Below(|v.prompt|, v.pos, RowsAfter(v, cols), cols)
  {
  }

  lemma {:induction false} LongEnough(v: View, cols: nat)
    requires cols >= 1
    ensures forall i: nat :: i < |ShownText(v, cols)| ==> i / cols < Span(RowsAfter(v, cols))
  {
    hide ShownText;
    LastRow(v, cols);
  }

  lemma GoodWindow(t: Term)
    requires Good(t)
    ensures t.cols >= 1 && t.height >= 1 && t.top <= t.row < t.top + t.height
  {
  }

  // ----- main results

  /** The picture, cell by cell: row r and column c hold character (r - origin) * cols + c of the text. */
  lemma {:induction false} ShowsCell(t: Term, origin: int, text: string, r: int, c: nat)
    requires Shows(t, origin, text) && r >= origin && c < t.cols
    ensures (r - origin) * t.cols + c >= 0
    ensures CellAt(t, r, c) == CharAt(text, (r - origin) * t.cols + c)
  {
    if r > origin {
      MulAtLeast(r - origin, t.cols);
    }
    var i := (r - origin) * t.cols + c;
    DivUnique(i, t.cols, r - origin, c);
    assert At(t, origin, i) == CharAt(text, i);
  }

  /**
   * The screen from row `origin` on, cell by cell: the prompt, then the buffer
   * or as many stars, then as much of the hint as the first row has room for,
   * and blanks.
   */
  ghost predicate Pictures(t: Term, origin: int, v: View) {
    var p, n := |v.prompt|, |v.prompt| + |v.buf|;
    && t.cols >= 1
    && (forall i: nat :: i < p ==> At(t, origin, i) == v.prompt[i])
    && (forall i: nat :: p <= i < n ==> At(t, origin, i) == if v.mask then '*' else v.buf[i - p])
    && (forall i: nat :: n <= i ==> At(t, origin, i) == if i < t.cols && i - n < |v.hint| then v.hint[i - n] else ' ')
  }

  lemma {:induction false} ShownIs(t: Term, origin: int, v: View)
    ensures t.cols >= 1 ==> (Shows(t, origin, ShownText(v, t.cols)) <==> Pictures(t, origin, v))
  {
    hide At;
    var p, n, text := |v.prompt|, |v.prompt| + |v.buf|, ShownText(v, t.cols);
    forall i: nat
      ensures CharAt(text, i) ==
        if i < p then v.prompt[i] else if i < n then (if v.mask then '*' else v.buf[i - p])
        else if i < t.cols && i - n < |v.hint| then v.hint[i - n] else ' '
    {
    }
  }

  /** The cursor stands before the character it is to insert at. */
  predicate CursorRight(t: Term, origin: int, v: View)
    requires t.cols >= 1
  {
    t.row == origin + (|v.prompt| + v.pos) / t.cols && t.col == (|v.prompt| + v.pos) % t.cols && !t.pending
  }

  /**
   * A full refresh: whatever the old picture was, the screen from its first row
   * on holds exactly prompt, buffer and hint of the new one, and nothing above
   * changes. The next refresh will find the picture exactly when it fits the
   * window. The cursor is right exactly when the way up to it is shorter than
   * the window and the prompt alone does not fill whole rows.
   */
  lemma {:induction false} RefreshWorks(s: Screen, origin: int, text: string, v: View)
    requires Displayed(s, origin, text, |v.prompt|) && Legal(v)
    ensures var s' := Refresh(s, v, true, true);
      && Good(s'.term) && Shows(s'.term, origin, ShownText(v, s.term.cols)) && Pictures(s'.term, origin, v)
      && SameFrame(s.term, s'.term) && SameAbove(s.term, s'.term, origin)
      && LastOf(v, s.term.cols, origin) - s.term.height < s'.term.top
      && (Displayed(s', origin, ShownText(v, s.term.cols), |v.prompt|) <==> Fits(v, s.term.cols, s.term.height))
      && (CursorRight(s'.term, origin, v) <==>
        !PromptFillsRows(v, s.term.cols) && GoesUp(v, s.term.cols) < s.term.height)
  {
    hide Run, CleanCmds, TextCmds, PlaceCmds, RowsAfter, ShownText, RowOfCursor, Good, Fits, GoesUp, PromptFillsRows,
      Pictures;
    var t, cols := s.term, s.term.cols;
    var clean := CleanCmds(s.oldrows, RowOfCursor(|v.prompt|, s.oldpos, cols)) + [Return, EraseRight];
    CleanWorks(s, origin, text, |v.prompt|);
    var t1 := Run(t, clean);
    WriteWorks(t1, v, origin);
    RunSplit(t, clean, TextCmds(v, cols) + PlaceCmds(v, cols));
    ShownIs(Refresh(s, v, true, true).term, origin, v);
  }

  /** In a window that holds the picture the way up is never too long. */
  lemma FitsGoesUp(v: View, cols: nat, height: nat)
    requires cols >= 1 && Legal(v) && Fits(v, cols, height)
    ensures GoesUp(v, cols) < height
  {
    hide RowsAfter, GoesUp;
    UpLeadsTo(v, cols);
  }

  // ----- lines taller than the window

  /** Nothing that is written changes what has scrolled out of the window. */
  lemma {:induction false} ScrolledOut(t: Term, cs: seq<Cmd>)
    requires Good(t)
    ensures var t' := Run(t, cs);
      && Good(t') && SameFrame(t, t') && t'.top >= t.top
      && forall r: int, c: nat :: r < t.top ==> CellAt(t', r, c) == CellAt(t, r, c)
  {
    if cs != [] {
      var n := |cs| - 1;
      ScrolledOut(t, cs[..n]);
      StepInWindow(Run(t, cs[..n]), cs[n]);
    }
  }

  lemma StepInWindow(t: Term, c: Cmd)
    requires Good(t)
    ensures var t' := Step(t, c);
      && Good(t') && SameFrame(t, t') && t'.top >= t.top
      && forall r: int, k: nat :: r < t.top ==> CellAt(t', r, k) == CellAt(t, r, k)
  {
  }

  /**
   * Of a picture taller than the window the first rows scroll out, and they stay
   * as they are whatever is written afterwards, refreshes included.
   */
  lemma {:induction false} TallStays(s: Screen, origin: int, text: string, v: View, cs: seq<Cmd>, r: int, c: nat)
    requires Displayed(s, origin, text, |v.prompt|) && Legal(v) && !Fits(v, s.term.cols, s.term.height)
    requires origin <= r <= LastOf(v, s.term.cols, origin) - s.term.height && c < s.term.cols
    ensures var s' := Refresh(s, v, true, true);
      && (r - origin) * s.term.cols + c >= 0
      && CellAt(Run(s'.term, cs), r, c) == CharAt(ShownText(v, s.term.cols), (r - origin) * s.term.cols + c)
  {
    hide Run, Refresh, RowsAfter, ShownText, Good, Displayed, Shows;
    RefreshWorks(s, origin, text, v);
    var s' := Refresh(s, v, true, true);
    ScrolledOut(s'.term, cs);
    ShowsCell(s'.term, origin, ShownText(v, s.term.cols), r, c);
  }

  /** An empty screen of this size, with nothing remembered. */
  function Empty(cols: nat, height: nat): Screen { Screen(Term(cols, height, 0, 0, 0, false, map[]), 0, 0) }

  lemma EmptyDisplayed(cols: nat, height: nat, plen: nat)
    requires cols >= 1 && height >= 1
    ensures Displayed(Empty(cols, height), 0, "", plen)
  {
    CursorRowIs(plen, 0, cols);
    hide RowOfCursor;
  }

  /**
   * A line of three rows and an opened fourth, in a window of two: its first
   * character is still on the screen's first row after the line is emptied.
   */
  lemma {:induction false} TallLine()
    ensures var s1 := Refresh(Empty(1, 2), View("", "abc", 3, false, "", false), true, true);
      && !Displayed(s1, 0, "abc", 0) && s1.term.cols >= 1
      && var s2 := Refresh(s1, View("", "", 0, false, "", false), true, true);
         CellAt(s2.term, 0, 0) == 'a' && !Shows(s2.term, 0, "")
  {
    var s, v, w := Empty(1, 2), View("", "abc", 3, false, "", false), View("", "", 0, false, "", false);
    assert ShownText(v, 1) == "abc" && RowsAfter(v, 1) == 4;
    EmptyDisplayed(1, 2, 0);
    hide Run, Displayed, RefreshCmds, ShownText, RowsAfter, Good;
    RefreshWorks(s, 0, "", v);
    var s1 := Refresh(s, v, true, true);
    TallStays(s, 0, "", v, RefreshCmds(s1, w, true, true), 0, 0);
    var s2 := Refresh(s1, w, true, true);
    FrameKept(s1.term, RefreshCmds(s1, w, true, true));
    assert At(s2.term, 0, 0) == CellAt(s2.term, 0, 0);
  }

  /** A prompt of two characters in two columns: after the refresh the cursor is a row too high. */
  lemma PromptOfOneRow()
    ensures var s := Refresh(Empty(2, 3), View("ab", "", 0, false, "", false), true, true);
      s.term.cols >= 1 && Shows(s.term, 0, "ab") && !CursorRight(s.term, 0, View("ab", "", 0, false, "", false))
  {
    var v := View("ab", "", 0, false, "", false);
    assert PromptFillsRows(v, 2) && ShownText(v, 2) == "ab";
    EmptyDisplayed(2, 3, 2);
    hide Refresh, Displayed, ShownText, Shows, Good;
    RefreshWorks(Empty(2, 3), 0, "", v);
  }

  /** Hiding leaves no trace of the picture. */
  lemma {:induction false} HideWorks(s: Screen, origin: int, text: string, v: View)
    requires Displayed(s, origin, text, |v.prompt|)
    ensures var s' := Refresh(s, v, true, false);
      Blank(s'.term, origin) && SameFrame(s.term, s'.term) && SameAbove(s.term, s'.term, origin)
  {
    hide Run, CleanCmds, RowOfCursor, Good;
    CleanWorks(s, origin, text, |v.prompt|);
    var clean := CleanCmds(s.oldrows, RowOfCursor(|v.prompt|, s.oldpos, s.term.cols)) + [Return, EraseRight];
    assert clean + [] == clean;
  }

  /** Showing again draws the picture from the row where other output has left the cursor. */
  lemma {:induction false} ShowWorks(s: Screen, v: View)
    requires Good(s.term) && Legal(v)
    requires forall r: int, c: nat :: r > s.term.row ==> CellAt(s.term, r, c) == ' '
    ensures var s', origin := Refresh(s, v, false, true), s.term.row;
      && Shows(s'.term, origin, ShownText(v, s.term.cols)) && Pictures(s'.term, origin, v)
      && SameFrame(s.term, s'.term) && SameAbove(s.term, s'.term, origin)
      && (Displayed(s', origin, ShownText(v, s.term.cols), |v.prompt|) <==> Fits(v, s.term.cols, s.term.height))
      && (CursorRight(s'.term, origin, v) <==>
        !PromptFillsRows(v, s.term.cols) && GoesUp(v, s.term.cols) < s.term.height)
  {
    hide Run, TextCmds, PlaceCmds, RowsAfter, ShownText, Good, Fits, GoesUp, PromptFillsRows, Pictures;
    var t, origin := s.term, s.term.row;
    GoodWindow(t);
    WipeRow(t);
    var t1 := Run(t, [Return, EraseRight]);
    GoodAt(t, t1);
    forall i: nat ensures At(t1, origin, i) == CharAt("", i) {
      DivMonotone(0, i, t.cols);
    }
    WriteWorks(t1, v, origin);
    assert [] + [Return, EraseRight] == [Return, EraseRight];
    RunSplit(t, [Return, EraseRight], TextCmds(v, t.cols) + PlaceCmds(v, t.cols));
    ShownIs(Refresh(s, v, false, true).term, origin, v);
  }

  /** Starting an edit writes the prompt and remembers no rows; that is a good start for prompts of one row at most. */
  lemma {:induction false} StartIff(t: Term, origin: int, prompt: string)
    requires Blank(t, origin)
    ensures Displayed(Screen(Run(t, Text(prompt)), 0, 0), origin, prompt, |prompt|) <==> |prompt| <= t.cols
  {
    hide Run, Good;
    PutText(t, origin, prompt);
    var t' := Run(t, Text(prompt));
    AfterRow(t', origin, |prompt|);
    CursorRowIs(|prompt|, 0, t.cols);
    GoodWindow(t);
    GoodWindow(t');
    forall i: nat ensures At(t', origin, i) == CharAt(prompt, i) {
      assert At(t, origin, i) == CharAt("", i);
    }
    if |prompt| > t.cols {
      DivMonotone(t.cols, |prompt| - 1, t.cols);
      DivUnique(t.cols, t.cols, 1, 0);
      assert t'.row > origin;
    } else {
      forall i: nat | i < |prompt| ensures i / t.cols == 0 {
        DivUnique(i, t.cols, 0, i);
      }
    }
  }

  /** Redrawing one picture after another. */
  function RefreshEach(s: Screen, views: seq<View>): (r: Screen)
    requires s.term.cols >= 1
    ensures r.term.cols >= 1
  {
    if views == [] then s
    else
      var s1 := RefreshEach(s, views[..|views| - 1]);
      FrameKept(s1.term, RefreshCmds(s1, views[|views| - 1], true, true));
      Refresh(s1, views[|views| - 1], true, true)
  }

  lemma {:induction false} FrameKept(t: Term, cs: seq<Cmd>)
    ensures SameFrame(t, Run(t, cs))
  {
    if cs != [] {
      FrameKept(t, cs[..|cs| - 1]);
    }
  }

  ghost predicate AllFit(views: seq<View>, cols: nat, height: nat)
    requires cols >= 1
  {
    forall i :: 0 <= i < |views| ==> Fits(views[i], cols, height)
  }

  /** After the first n of the views. */
  ghost predicate DisplayedAfter(s: Screen, origin: int, views: seq<View>, plen: nat, n: nat)
    requires s.term.cols >= 1 && 1 <= n <= |views|
  {
    Displayed(RefreshEach(s, views[..n]), origin, ShownText(views[n - 1], s.term.cols), plen)
  }

  lemma {:induction false} OneMore(s: Screen, origin: int, text: string, views: seq<View>, plen: nat, n: nat)
    requires s.term.cols >= 1 && 1 <= n <= |views| && |views[n - 1].prompt| == plen && Legal(views[n - 1])
    requires if n == 1 then Displayed(s, origin, text, plen) else DisplayedAfter(s, origin, views, plen, n - 1)
    requires SameFrame(s.term, RefreshEach(s, views[..n - 1]).term) &&
      SameAbove(s.term, RefreshEach(s, views[..n - 1]).term, origin)
    ensures var s', v := RefreshEach(s, views[..n]), views[n - 1];
      && (DisplayedAfter(s, origin, views, plen, n) <==> Fits(v, s.term.cols, s.term.height))
      && Shows(s'.term, origin, ShownText(v, s.term.cols)) && SameFrame(s.term, s'.term) &&
        SameAbove(s.term, s'.term, origin)
      && (CursorRight(s'.term, origin, v) <==>
        !PromptFillsRows(v, s.term.cols) && GoesUp(v, s.term.cols) < s.term.height)
  {
    hide Refresh, RowsAfter, ShownText, Displayed, CursorRight, PromptFillsRows, Fits, Shows, Good, Run, GoesUp, LastOf;
    var s1 := RefreshEach(s, views[..n - 1]);
    assert views[..n][..n - 1] == views[..n - 1];
    RefreshWorks(s1, origin, if n == 1 then text else ShownText(views[n - 2], s.term.cols), views[n - 1]);
  }

  /**
   * The same through any sequence of refreshes of one edited line, however the
   * buffer changes between them: each finds the picture of the one before exactly
   * as long as all of them fit the window.
   */
  lemma {:induction false} EveryRefresh(s: Screen, origin: int, text: string, views: seq<View>, plen: nat, n: nat)
    requires s.term.cols >= 1 && Displayed(s, origin, text, plen) && 1 <= n <= |views|
    requires forall i :: 0 <= i < |views| ==> |views[i].prompt| == plen && Legal(views[i])
    ensures (forall k :: 1 <= k <= n ==> DisplayedAfter(s, origin, views, plen, k)) <==>
      AllFit(views[..n], s.term.cols, s.term.height)
    ensures AllFit(views[..n - 1], s.term.cols, s.term.height) ==>
      var s', v := RefreshEach(s, views[..n]), views[n - 1];
      && Shows(s'.term, origin, ShownText(v, s.term.cols)) && Pictures(s'.term, origin, v)
      && SameFrame(s.term, s'.term) && SameAbove(s.term, s'.term, origin)
      && (CursorRight(s'.term, origin, v) <==>
        !PromptFillsRows(v, s.term.cols) && GoesUp(v, s.term.cols) < s.term.height)
  {
    hide DisplayedAfter, Displayed, RefreshEach, ShownText, CursorRight, PromptFillsRows, Fits, Shows, Good, GoesUp,
      Pictures;
    ShownIs(RefreshEach(s, views[..n]).term, origin, views[n - 1]);
    if n > 1 {
      EveryRefresh(s, origin, text, views, plen, n - 1);
      assert views[..n][..n - 1] == views[..n - 1];
      assert AllFit(views[..n], s.term.cols, s.term.height) <==>
        AllFit(views[..n - 1], s.term.cols, s.term.height) && Fits(views[n - 1], s.term.cols, s.term.height) by {
        MoreFit(views, n, s.term.cols, s.term.height);
      }
      if AllFit(views[..n - 1], s.term.cols, s.term.height) {
        MoreFit(views, n - 1, s.term.cols, s.term.height);
        OneMore(s, origin, text, views, plen, n);
      }
    } else {
      NoneYet(s, views, origin);
      OneMore(s, origin, text, views, plen, 1);
      MoreFit(views, 1, s.term.cols, s.term.height);
    }
  }

  lemma MoreFit(views: seq<View>, n: nat, cols: nat, height: nat)
    requires cols >= 1 && 1 <= n <= |views|
    ensures AllFit(views[..n], cols, height) <==>
      AllFit(views[..n - 1], cols, height) && Fits(views[n - 1], cols, height)
  {
    hide Fits;
    assert forall i :: 0 <= i < n - 1 ==> views[..n - 1][i] == views[..n][i];
    assert views[..n][n - 1] == views[n - 1];
  }

  lemma NoneYet(s: Screen, views: seq<View>, origin: int)
    requires s.term.cols >= 1
    ensures RefreshEach(s, views[..0]) == s && SameFrame(s.term, s.term) && SameAbove(s.term, s.term, origin)
    ensures AllFit(views[..0], s.term.cols, s.term.height)
  {
  }
}
