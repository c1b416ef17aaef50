/**
 * Redrawing a line that may take several rows: move to the last row of the old
 * picture, clear upwards, write prompt and buffer, and put the cursor back. All
 * it remembers of the old picture is a cursor position and a number of rows.
 */
module LineRefresh {
  import opened LineTerminal

  /** What is to be shown; `hint` is what the hints callback returned, "" for none. */
  datatype View = View(prompt: string, buf: string, pos: nat, mask: bool, hint: string, styled: bool)

  predicate Legal(v: View) { v.pos <= |v.buf| }

  function Stars(n: nat): (s: string)
    ensures |s| == n && forall i :: 0 <= i < n ==> s[i] == '*'
  {
    if n == 0 then "" else Stars(n - 1) + "*"
  }

  function Content(v: View): (s: string)
    ensures |s| == |v.buf|
  {
    if v.mask then Stars(|v.buf|) else v.buf
  }

  /** The part of the hint that fits on the first row; none once the text fills it. */
  function HintText(v: View, cols: nat): (s: string)
    ensures |v.prompt| + |v.buf| >= cols ==> s == ""
    ensures |v.prompt| + |v.buf| <= cols ==> |v.prompt| + |v.buf| + |s| <= cols
  {
    var n := |v.prompt| + |v.buf|;
    if n >= cols then "" else if |v.hint| > cols - n then v.hint[..cols - n] else v.hint
  }

  function ShownText(v: View, cols: nat): string { v.prompt + Content(v) + HintText(v, cols) }

  function RowsOf(n: nat, cols: nat): nat
    requires cols >= 1
  {
    (n + cols - 1) / cols
  }

  /** The cursor stands after a full last row, so the next row is opened. */
  predicate OpensRow(v: View, cols: nat)
    requires cols >= 1
  {
    v.pos != 0 && v.pos == |v.buf| && (v.pos + |v.prompt|) % cols == 0
  }

  function RowsAfter(v: View, cols: nat): nat
    requires cols >= 1
  {
    RowsOf(|v.prompt| + |v.buf|, cols) + if OpensRow(v, cols) then 1 else 0
  }

  function RowOfCursor(plen: nat, pos: nat, cols: nat): nat
    requires cols >= 1
  {
    (plen + pos + cols) / cols
  }

  // ----- the commands written

  function ClearUp(k: nat): seq<Cmd> {
    if k == 0 then [] else ClearUp(k - 1) + [Return, EraseRight, Up(1)]
  }

  function CleanCmds(oldrows: nat, rpos: nat): seq<Cmd> {
    (if oldrows > rpos then [Down(oldrows - rpos)] else []) + ClearUp(if oldrows > 0 then oldrows - 1 else 0)
  }

  function HintCmds(v: View, cols: nat): seq<Cmd> {
    if |v.prompt| + |v.buf| >= cols || v.hint == "" then []
    else (if v.styled then [Style] else []) + Text(HintText(v, cols)) + (if v.styled then [Style] else [])
  }

  function TextCmds(v: View, cols: nat): seq<Cmd> {
    Text(v.prompt) + Text(Content(v)) + HintCmds(v, cols)
  }

  function PlaceCmds(v: View, cols: nat): seq<Cmd>
    requires cols >= 1
  {
    var rpos := RowOfCursor(|v.prompt|, v.pos, cols);
    var col := (|v.prompt| + v.pos) % cols;
    (if OpensRow(v, cols) then [LineFeed, Return] else [])
    + (if RowsAfter(v, cols) > rpos then [Up(RowsAfter(v, cols) - rpos)] else [])
    + (if col != 0 then [Return, Forward(col)] else [Return])
  }

  datatype Screen = Screen(term: Term, oldpos: nat, oldrows: nat)

  function RefreshCmds(s: Screen, v: View, clean: bool, write: bool): seq<Cmd>
    requires s.term.cols >= 1
  {
    var cols := s.term.cols;
    (if clean then CleanCmds(s.oldrows, RowOfCursor(|v.prompt|, s.oldpos, cols)) else [])
    + (if clean || write then [Return, EraseRight] else [])
    + (if write then TextCmds(v, cols) + PlaceCmds(v, cols) else [])
  }

  function Refresh(s: Screen, v: View, clean: bool, write: bool): Screen
    requires s.term.cols >= 1
  {
    var cols := s.term.cols;
    Screen(Run(s.term, RefreshCmds(s, v, clean, write)), v.pos,
           if write then RowsAfter(v, cols) else RowsOf(|v.prompt| + |v.buf|, cols))
  }

  /** The editor's fields that a redraw reads and updates, and the terminal it writes to. */
  class Display {
    var prompt: string
    var buf: string
    var pos: nat
    var mask: bool
    var hint: string
    var styled: bool
    var oldpos: nat
    var oldrows: nat
    var term: Term

    constructor (t: Term)
      ensures term == t && prompt == "" && buf == "" && pos == 0 && oldpos == 0 && oldrows == 0
    {
      term, prompt, buf, pos, mask, hint, styled, oldpos, oldrows := t, "", "", 0, false, "", false, 0, 0;
    }

    function CurrentView(): View
      reads this
    {
      View(prompt, buf, pos, mask, hint, styled)
    }

    method MaskedContent() returns (ab: seq<Cmd>)
      ensures ab == Text(Stars(|buf|))
    {
      ab := [];
      var i := 0;
      while i < |buf|
        invariant 0 <= i <= |buf| && ab == Text(Stars(i))
      {
        assert Text(Stars(i + 1)) == Text(Stars(i)) + [Put('*')];
        ab := ab + [Put('*')];
        i := i + 1;
      }
    }

    method ShowHints() returns (ab: seq<Cmd>)
      ensures ab == HintCmds(CurrentView(), term.cols)
    {
      ab := [];
      if |prompt| + |buf| < term.cols && hint != "" {
        var hintlen, hintmaxlen := |hint|, term.cols - (|prompt| + |buf|);
        if hintlen > hintmaxlen {
          hintlen := hintmaxlen;
        }
        if styled {
          ab := ab + [Style];
        }
        ab := ab + Text(hint[..hintlen]);
        assert hint[..hintlen] == HintText(CurrentView(), term.cols);
        if styled {
          ab := ab + [Style];
        }
      }
    }

    /** Down to the last row of the old picture, then clear and go up. */
    method Clean(oldRows: nat, rpos: nat) returns (ab: seq<Cmd>)
      ensures ab == CleanCmds(oldRows, rpos)
    {
      ab := [];
      if oldRows - rpos > 0 {
        ab := ab + [Down(oldRows - rpos)];
      }
      ghost var ab0 := ab;
      var j := 0;
      while j < oldRows - 1
        invariant 0 <= j && (j <= oldRows - 1 || j == 0) && ab == ab0 + ClearUp(j)
      {
        ab := ab + [Return, EraseRight, Up(1)];
        j := j + 1;
      }
    }

    method Write() returns (ab: seq<Cmd>)
      ensures ab == TextCmds(CurrentView(), term.cols)
    {
      ab := Text(prompt);
      if mask {
        var stars := MaskedContent();
        ab := ab + stars;
      } else {
        ab := ab + Text(buf);
      }
      var hints := ShowHints();
      ab := ab + hints;
    }

    /** Open a row if the cursor needs one, and bring the cursor to its row and column. */
    method Place() returns (ab: seq<Cmd>)
      requires term.cols >= 1 && oldrows == RowsOf(|prompt| + |buf|, term.cols)
      modifies this`oldrows
      ensures ab == PlaceCmds(CurrentView(), term.cols) && oldrows == RowsAfter(CurrentView(), term.cols)
    {
      var cols, plen, rows := term.cols, |prompt|, oldrows;
      ab := [];
      if pos != 0 && pos == |buf| && (pos + plen) % cols == 0 {
        ab := ab + [LineFeed, Return];
        rows := rows + 1;
        if rows > oldrows {
          oldrows := rows;
        }
      }
      var rpos2 := (plen + pos + cols) / cols;
      if rows - rpos2 > 0 {
        ab := ab + [Up(rows - rpos2)];
      }
      var col := (plen + pos) % cols;
      ab := ab + (if col != 0 then [Return, Forward(col)] else [Return]);
    }

    method RefreshMultiLine(clean: bool, write: bool)
      requires term.cols >= 1 && Legal(CurrentView())
      modifies this`oldpos, this`oldrows, this`term
      ensures Screen(term, oldpos, oldrows) == Refresh(old(Screen(term, oldpos, oldrows)), CurrentView(), clean, write)
    {
      hide CleanCmds, TextCmds, PlaceCmds, Run;
      var cols, plen := term.cols, |prompt|;
      var rows := (plen + |buf| + cols - 1) / cols;
      var rpos := (plen + oldpos + cols) / cols;
      var oldRows := oldrows;
      oldrows := rows;
      var ab: seq<Cmd> := [];
      if clean {
        ab := Clean(oldRows, rpos);
      }
      if clean || write {
        ab := ab + [Return, EraseRight];
      }
      if write {
        var text := Write();
        var place := Place();
        ab := ab + (text + place);
      }
      assert ab == RefreshCmds(old(Screen(term, oldpos, oldrows)), CurrentView(), clean, write);
      oldpos := pos;
      term := Run(term, ab);
    }
  }
}
