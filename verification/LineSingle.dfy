/** Redrawing a line that is kept on one row, showing the part of the buffer around the cursor. */
module LineSingle {
  import opened LineTerminal
  import opened LineRefresh
  import opened LineRefreshProof

  /** How many characters are scrolled off at the left. */
  function Skipped(v: View, cols: nat): (k: nat)
    requires |v.prompt| < cols && Legal(v)
    ensures k <= v.pos && |v.prompt| + v.pos - k < cols
    ensures k > 0 ==> |v.prompt| + v.pos - k == cols - 1
  {
    if |v.prompt| + v.pos < cols then 0 else |v.prompt| + v.pos - (cols - 1)
  }

  /** How many characters of the buffer are shown. */
  function Fitting(v: View, cols: nat): (m: nat)
    requires |v.prompt| < cols && Legal(v)
    ensures Skipped(v, cols) + m <= |v.buf| && |v.prompt| + m <= cols && v.pos - Skipped(v, cols) <= m
    ensures Skipped(v, cols) + m < |v.buf| ==> |v.prompt| + m == cols
  {
    var rest := |v.buf| - Skipped(v, cols);
    if |v.prompt| + rest > cols then cols - |v.prompt| else rest
  }

  function RowText(v: View, cols: nat): (s: string)
    requires |v.prompt| < cols && Legal(v)
    ensures |s| <= cols
  {
    var k, m := Skipped(v, cols), Fitting(v, cols);
    v.prompt + (if v.mask then Stars(m) else v.buf[k..k + m]) + HintText(v, cols)
  }

  function SingleCmds(v: View, cols: nat, write: bool): seq<Cmd>
    requires |v.prompt| < cols && Legal(v)
  {
    var k, m := Skipped(v, cols), Fitting(v, cols);
    [Return]
    + (if write then Text(v.prompt) + Text(if v.mask then Stars(m) else v.buf[k..k + m]) + HintCmds(v, cols) else [])
    + [EraseRight]
    + (if write then [Return, Forward(v.pos - k + |v.prompt|)] else [])
  }

  /** Trim at the left until the cursor fits, then at the right until the text does. */
  method Window(v: View, cols: nat) returns (start: nat, len: nat, pos: nat)
    requires |v.prompt| < cols && Legal(v)
    ensures start == Skipped(v, cols) && len == Fitting(v, cols) && pos == v.pos - start
  {
    var plen := |v.prompt|;
    start, len, pos := 0, |v.buf|, v.pos;
    while plen + pos >= cols
      invariant start <= v.pos && pos == v.pos - start && len == |v.buf| - start
      invariant start <= Skipped(v, cols)
      decreases pos
    {
      start, len, pos := start + 1, len - 1, pos - 1;
    }
    while plen + len > cols
      invariant Fitting(v, cols) <= len <= |v.buf| - start
    {
      len := len - 1;
    }
  }

  method RefreshSingleLine(t: Term, v: View, write: bool) returns (t': Term)
    requires |v.prompt| < t.cols && Legal(v)
    ensures t' == Run(t, SingleCmds(v, t.cols, write))
  {
    hide Run, Skipped, Fitting, HintCmds;
    var start, len, pos := Window(v, t.cols);
    var ab := [Return];
    if write {
      var body := if v.mask then Text(Stars(len)) else Text(v.buf[start..start + len]);
      ab := ab + (Text(v.prompt) + body + HintCmds(v, t.cols));
    }
    ab := ab + [EraseRight];
    if write {
      ab := ab + [Return, Forward(pos + |v.prompt|)];
    }
    assert ab == SingleCmds(v, t.cols, write);
    t' := Run(t, ab);
  }

  /** Text no longer than a row, from the start of the row, stays on it. */
  lemma {:induction false} RowPut(t: Term, s: string)
    requires Good(t) && t.col == 0 && !t.pending && |s| <= t.cols
    ensures var t' := Run(t, Text(s));
      && Good(t') && t'.row == t.row && t'.cols == t.cols
      && t'.col == (if |s| == t.cols then t.cols - 1 else |s|) && t'.pending == (|s| == t.cols)
      && (forall r: int, c: nat :: CellAt(t', r, c) == if r == t.row && c < |s| then s[c] else CellAt(t, r, c))
  {
    if s != [] {
      var n := |s| - 1;
      assert Text(s)[..n] == Text(s[..n]);
      RowPut(t, s[..n]);
      var t1, t' := Run(t, Text(s[..n])), Run(t, Text(s));
      assert t' == Step(t1, Put(s[n]));
      assert t'.cells == t1.cells[(t.row, n) := s[n]];
      hide Run, Step;
      forall r: int, c: nat ensures CellAt(t', r, c) == if r == t.row && c < |s| then s[c] else CellAt(t, r, c) {
        assert CellAt(t', r, c) == if r == t.row && c == n then s[n] else CellAt(t1, r, c);
      }
    }
  }

  lemma {:induction false} TextThenHint(t: Term, v: View)
    requires |v.prompt| < t.cols && Legal(v)
    ensures var k, m := Skipped(v, t.cols), Fitting(v, t.cols);
      Run(t, Text(v.prompt) + Text(if v.mask then Stars(m) else v.buf[k..k + m]) + HintCmds(v, t.cols))
      == Run(t, Text(RowText(v, t.cols)))
  {
    hide Run, RowText, HintText, HintCmds, Skipped, Fitting, Stars;
    var k, m, h := Skipped(v, t.cols), Fitting(v, t.cols), HintText(v, t.cols);
    var body := if v.mask then Stars(m) else v.buf[k..k + m];
    RowTextIs(v, t.cols);
    var a := Text(v.prompt) + Text(body);
    assert Text(v.prompt + body + h) == a + Text(h);
    RunSplit(t, a, HintCmds(v, t.cols));
    RunSplit(t, a, Text(h));
    HintRuns(Run(t, a), v, t.cols);
  }

  lemma RowTextIs(v: View, cols: nat)
    requires |v.prompt| < cols && Legal(v)
    ensures var k, m := Skipped(v, cols), Fitting(v, cols);
      RowText(v, cols) == v.prompt + (if v.mask then Stars(m) else v.buf[k..k + m]) + HintText(v, cols)
  {
  }

  lemma {:induction false} FinishRow(t: Term, col: nat)
    requires Good(t)
    ensures var t' := Run(t, [EraseRight] + [Return, Forward(col)]);
      && t'.row == t.row && !t'.pending
      && t'.col == (if col >= t.cols then t.cols - 1 else if col == 0 then (if t.cols == 1 then 0 else 1) else col)
      && forall r: int, c: nat :: CellAt(t', r, c) == if r == t.row && c >= t.col then ' ' else CellAt(t, r, c)
  {
    RunSplit(t, [EraseRight], [Return, Forward(col)]);
    RunOne(t, EraseRight);
    var t1 := Step(t, EraseRight);
    assert [Return, Forward(col)] == [Return] + [Forward(col)];
    RunSplit(t1, [Return], [Forward(col)]);
    RunOne(t1, Return);
    RunOne(Step(t1, Return), Forward(col));
  }

  lemma CmdsAre(v: View, cols: nat, a: seq<Cmd>, z: seq<Cmd>)
    requires |v.prompt| < cols && Legal(v)
    requires var k, m := Skipped(v, cols), Fitting(v, cols);
      && a == Text(v.prompt) + Text(if v.mask then Stars(m) else v.buf[k..k + m]) + HintCmds(v, cols)
      && z == [EraseRight] + [Return, Forward(v.pos - k + |v.prompt|)]
    ensures SingleCmds(v, cols, true) == [Return] + (a + z)
  {
    hide Skipped, Fitting, HintCmds, Text;
  }

  /**
   * A refresh of one row: it holds exactly the row text and no other row
   * changes, except that a text filling the whole row loses its last character;
   * and the cursor is in its column, except in column 0.
   */
  lemma {:induction false} SingleWorks(t: Term, v: View)
    requires Good(t) && |v.prompt| < t.cols && Legal(v)
    ensures var t', text := Run(t, SingleCmds(v, t.cols, true)), RowText(v, t.cols);
      && t'.row == t.row
      && (forall r: int, c: nat :: r != t.row ==> CellAt(t', r, c) == CellAt(t, r, c))
      && (forall c: nat :: c < t.cols ==>
            CellAt(t', t.row, c) == if c == t.cols - 1 && |text| == t.cols then ' ' else CharAt(text, c))
      && (t'.col == |v.prompt| + v.pos - Skipped(v, t.cols)
          <==> |v.prompt| + v.pos - Skipped(v, t.cols) != 0 || t.cols == 1)
  {
    hide Run, RowText, HintCmds, Skipped, Fitting;
    var k, m, text := Skipped(v, t.cols), Fitting(v, t.cols), RowText(v, t.cols);
    var a := Text(v.prompt) + Text(if v.mask then Stars(m) else v.buf[k..k + m]) + HintCmds(v, t.cols);
    var z := [EraseRight] + [Return, Forward(v.pos - k + |v.prompt|)];
    CmdsAre(v, t.cols, a, z);
    hide SingleCmds;
    RunSplit(t, [Return], a + z);
    RunOne(t, Return);
    var t1 := Step(t, Return);
    RunSplit(t1, a, z);
    TextThenHint(t1, v);
    RowPut(t1, text);
    var t2 := Run(t1, Text(text));
    FinishRow(t2, v.pos - k + |v.prompt|);
    var t3 := Run(t2, z);
    assert t3 == Run(t, SingleCmds(v, t.cols, true));
    forall c: nat | c < t.cols
      ensures CellAt(t3, t.row, c) == if c == t.cols - 1 && |text| == t.cols then ' ' else CharAt(text, c)
    {
      assert CellAt(t3, t.row, c) == if c >= t2.col then ' ' else CellAt(t2, t.row, c);
    }
  }

  /**
   * The row after a refresh, column by column: the prompt; then the buffer (or
   * stars) from the first character that lets the cursor stay on the row; then
   * the hint if the whole buffer leaves room for it; then blanks. The last
   * column is always blank.
   */
  lemma {:induction false} SingleCells(t: Term, v: View, c: nat)
    requires Good(t) && |v.prompt| < t.cols && Legal(v) && c < t.cols
    ensures var p, n := |v.prompt|, |v.prompt| + |v.buf|;
      var off := if p + v.pos < t.cols then 0 else p + v.pos - (t.cols - 1);
      var t' := Run(t, SingleCmds(v, t.cols, true));
      && CellAt(t', t.row, c) == (
           if c == t.cols - 1 then ' '
           else if c < p then v.prompt[c]
           else if c - p + off < |v.buf| then (if v.mask then '*' else v.buf[c - p + off])
           else if n <= c && n < t.cols && c - n < |v.hint| then v.hint[c - n] else ' ')
      && (p + v.pos - off != 0 ==> t'.row == t.row && t'.col == p + v.pos - off)
  {
    hide Run, SingleCmds;
    SingleWorks(t, v);
    var text := RowText(v, t.cols);
  }

  /** Three characters in three columns: the last is erased again. */
  lemma FullRow()
    ensures var t := Run(Term(3, 1, 0, 0, 0, false, map[]), SingleCmds(View("", "abc", 1, false, "", false), 3, true));
      CellAt(t, 0, 1) == 'b' && CellAt(t, 0, 2) == ' '
  {
    var t, v := Term(3, 1, 0, 0, 0, false, map[]), View("", "abc", 1, false, "", false);
    assert RowText(v, 3) == "abc";
    hide Run, RowText, SingleCmds;
    SingleWorks(t, v);
  }
}
