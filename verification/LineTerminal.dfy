/**
 * A character terminal as the line editor sees it: the functions CUU, CUD, CUF
 * and EL of section 8.3 of ECMA-48, carriage return, line feed, and text with
 * deferred wrap (a character in the last column leaves the cursor there, and
 * only the next character moves to the next line). Rows are numbered from the
 * first line ever shown; the window shows `height` of them from `top` on, and
 * slides down when the cursor leaves its last row.
 */
module LineTerminal {
  import opened Division

  datatype Term = Term(cols: nat, height: nat, top: int, row: int, col: nat, pending: bool,
    cells: map<(int, nat), char>)

  datatype Cmd = Put(ch: char) | Return | LineFeed | EraseRight | Up(n: nat) | Down(n: nat) | Forward(n: nat) | Style

  function CellAt(t: Term, r: int, c: nat): char {
    if (r, c) in t.cells then t.cells[(r, c)] else ' '
  }

  predicate Good(t: Term) {
    t.cols >= 1 && t.height >= 1 && t.top <= t.row < t.top + t.height && t.col < t.cols &&
      (t.pending ==> t.col == t.cols - 1)
  }

  function NextLine(t: Term): Term {
    t.(row := t.row + 1, top := if t.row + 1 < t.top + t.height then t.top else t.top + 1, pending := false)
  }

  function PutHere(t: Term, ch: char): Term {
    var t' := t.(cells := t.cells[(t.row, t.col) := ch]);
    if t.col + 1 >= t.cols then t'.(pending := true) else t'.(col := t.col + 1)
  }

  /** A parameter of 0 stands for the default, 1. */
  function Count(n: nat): nat { if n == 0 then 1 else n }

  function Step(t: Term, c: Cmd): Term {
    match c
    case Put(ch) => PutHere(if t.pending then NextLine(t).(col := 0) else t, ch)
    case Return => t.(col := 0, pending := false)
    case LineFeed => NextLine(t)
    case EraseRight => t.(cells := map k | k in t.cells && !(k.0 == t.row && k.1 >= t.col) :: t.cells[k])
    case Up(k) =>
      var n := Count(k);
      t.(row := if t.row - n < t.top then t.top else t.row - n, pending := false)
    case Down(k) =>
      var n := Count(k);
      t.(row := if t.row + n > t.top + t.height - 1 then t.top + t.height - 1 else t.row + n, pending := false)
    case Forward(k) =>
      var n := Count(k);
      t.(col := if t.col + n >= t.cols then (if t.cols == 0 then 0 else t.cols - 1) else t.col + n, pending := false)
    case Style => t
  }

  function Run(t: Term, cs: seq<Cmd>): Term {
    if cs == [] then t else Step(Run(t, cs[..|cs| - 1]), cs[|cs| - 1])
  }

  function Text(s: string): (cs: seq<Cmd>)
    ensures |cs| == |s|
  {
    seq(|s|, i requires 0 <= i < |s| => Put(s[i]))
  }

  lemma {:induction false} RunSplit(t: Term, a: seq<Cmd>, b: seq<Cmd>)
    ensures Run(t, a + b) == Run(Run(t, a), b)
  {
    if b == [] {
      assert a + b == a;
    } else {
      assert (a + b)[..|a + b| - 1] == a + b[..|b| - 1];
      RunSplit(t, a, b[..|b| - 1]);
    }
  }

  lemma RunOne(t: Term, c: Cmd)
    ensures Run(t, [c]) == Step(t, c)
  {
    assert [c][..0] == [];
    assert Run(t, [c][..0]) == t;
  }

  // ----- positions counted along the lines

  /** The i-th cell from the start of row `origin`, line after line. */
  function At(t: Term, origin: int, i: nat): char
    requires t.cols >= 1
  {
    CellAt(t, origin + i / t.cols, i % t.cols)
  }

  function CharAt(s: string, i: nat): char { if i < |s| then s[i] else ' ' }

  /** From row `origin` on the screen holds this text, wrapped, and nothing else. */
  ghost predicate Shows(t: Term, origin: int, s: string) {
    t.cols >= 1 && forall i: nat :: At(t, origin, i) == CharAt(s, i)
  }

  /** The rows above `origin` are the same. */
  ghost predicate SameAbove(t: Term, t': Term, origin: int) {
    forall r: int, c: nat :: r < origin ==> CellAt(t', r, c) == CellAt(t, r, c)
  }

  // ----- writing text

  /** Where the cursor is after n characters from the start of row `origin`. */
  ghost predicate After(t: Term, origin: int, n: nat) {
    && t.cols >= 1
    && if n == 0 then t.row == origin && t.col == 0 && !t.pending
       else t.row == origin + (n - 1) / t.cols && t.pending == (n % t.cols == 0)
            && t.col == (if t.pending then t.cols - 1 else n % t.cols)
  }

  lemma {:induction false} PutNext(t: Term, origin: int, n: nat, ch: char)
    requires Good(t) && After(t, origin, n)
    ensures var t' := Step(t, Put(ch));
      && After(t', origin, n + 1) && Good(t')
      && t'.cells == t.cells[(origin + n / t.cols, n % t.cols) := ch]
      && t'.cols == t.cols && t'.height == t.height
      && (t'.top == t.top || t'.top == t'.row - t.height + 1)
  {
    DivStep(n, t.cols);
    if n > 0 {
      DivStep(n - 1, t.cols);
    } else {
      DivUnique(0, t.cols, 0, 0);
    }
  }

  /** Text from the start of a row overwrites exactly its own cells, line after line. */
  lemma {:induction false} PutText(t: Term, origin: int, s: string)
    requires Good(t) && After(t, origin, 0)
    ensures var t' := Run(t, Text(s));
      && After(t', origin, |s|) && Good(t') && t'.cols == t.cols && t'.height == t.height
      && (t'.top == t.top || t'.top <= t'.row - t.height + 1) && SameAbove(t, t', origin)
      && forall i: nat :: At(t', origin, i) == if i < |s| then s[i] else At(t, origin, i)
  {
    hide Step, Good, After;
    if s != [] {
      var n := |s| - 1;
      assert Text(s)[..n] == Text(s[..n]);
      PutText(t, origin, s[..n]);
      var t1 := Run(t, Text(s[..n]));
      PutNext(t1, origin, n, s[n]);
      var t' := Step(t1, Put(s[n]));
      AfterRow(t1, origin, n);
      AfterRow(t', origin, n + 1);
      assert Run(t, Text(s)) == t';
      forall i: nat ensures At(t', origin, i) == if i < |s| then s[i] else At(t, origin, i) {
        if i != n && i / t.cols == n / t.cols && i % t.cols == n % t.cols {
          DivModInjective(i, n, t.cols);
        }
      }
      DivMonotone(0, n, t.cols);
    }
  }

  lemma AfterRow(t: Term, origin: int, n: nat)
    requires After(t, origin, n)
    ensures t.cols >= 1 && t.row == origin + (if n == 0 then 0 else (n - 1) / t.cols)
    ensures n > 1 ==> (n - 2) / t.cols <= (n - 1) / t.cols
  {
    if n > 1 {
      DivMonotone(n - 2, n - 1, t.cols);
    }
  }
}
