/**
 * What a written condition means: groups of possibly negated ACLs, from the
 * words themselves down to the samples, told without the parser's tokens and
 * without bit patterns.
 */
module AclMeaning {
  import opened Options
  import opened AclCond
  import opened AclParse

  // ----- samples

  /** The i-th fetch is made: all before it gave a value and announced more. */
  ghost predicate Reached(fs: Expr, i: nat) {
    i < |fs| && forall j :: 0 <= j < i ==> fs[j].Sample? && fs[j].notLast
  }

  ghost predicate Hits(fs: Expr, i: nat) { Reached(fs, i) && fs[i].Sample? && fs[i].matches }

  /** The fetches end at the i-th, which may still give something else. */
  ghost predicate EndsOpen(fs: Expr, i: nat) {
    Reached(fs, i) && fs[i].mayChange && (fs[i].NoSample? || !fs[i].notLast)
  }

  lemma {:induction false} ReachedShift(fs: Expr, i: nat)
    requires fs != [] && fs[0].Sample? && fs[0].notLast
    ensures Reached(fs, i + 1) <==> Reached(fs[1..], i)
  {
    if Reached(fs[1..], i) {
      forall j | 0 <= j < i + 1 ensures fs[j].Sample? && fs[j].notLast {
        assert j > 0 ==> fs[j] == fs[1..][j - 1];
      }
    }
    if Reached(fs, i + 1) {
      forall j | 0 <= j < i ensures fs[1..][j].Sample? && fs[1..][j].notLast {
        assert fs[1..][j] == fs[j + 1];
      }
    }
  }

  /** An expression passes when a fetch that is made matches; it misses when none does and the last may change. */
  lemma {:induction false} ExprMeans(fs: Expr, final: bool)
    ensures FullExpr(fs, final) == PASS <==> exists i :: Hits(fs, i)
    ensures FullExpr(fs, final) == MISS <==> !(exists i :: Hits(fs, i)) && !final && exists i :: EndsOpen(fs, i)
    ensures Proper(FullExpr(fs, final))
  {
    ExprProper(fs, final);
    if fs != [] && fs[0].Sample? && fs[0].notLast {
      ExprMeans(fs[1..], final);
      FirstOrLater(fs);
    } else if fs != [] {
      OnlyFirst(fs);
    }
  }

  lemma {:induction false} FirstOrLater(fs: Expr)
    requires fs != [] && fs[0].Sample? && fs[0].notLast
    ensures (exists i :: Hits(fs, i)) <==> fs[0].matches || exists i :: Hits(fs[1..], i)
    ensures (exists i :: EndsOpen(fs, i)) <==> exists i :: EndsOpen(fs[1..], i)
  {
    if fs[0].matches {
      assert Hits(fs, 0);
    }
    forall i: nat | Hits(fs[1..], i) ensures Hits(fs, i + 1) { ReachedShift(fs, i); }
    forall i: nat | EndsOpen(fs[1..], i) ensures EndsOpen(fs, i + 1) { ReachedShift(fs, i); }
    forall i: nat | Hits(fs, i) && i > 0 ensures Hits(fs[1..], i - 1) { ReachedShift(fs, i - 1); }
    forall i: nat | EndsOpen(fs, i) && i > 0 ensures EndsOpen(fs[1..], i - 1) { ReachedShift(fs, i - 1); }
  }

  lemma OnlyFirst(fs: Expr)
    requires fs != [] && (fs[0].NoSample? || !fs[0].notLast)
    ensures (exists i :: Hits(fs, i)) <==> fs[0].Sample? && fs[0].matches
    ensures (exists i :: EndsOpen(fs, i)) <==> fs[0].mayChange
  {
    if fs[0].Sample? && fs[0].matches {
      assert Hits(fs, 0);
    }
    if fs[0].mayChange {
      assert EndsOpen(fs, 0);
    }
  }

  // ----- three values

  /** One of its expressions passes; or none does, and one misses. */
  lemma {:induction false} AclMeans(acl: Acl, final: bool)
    ensures FullAcl(acl, final) == PASS <==> exists i :: 0 <= i < |acl| && FullExpr(acl[i], final) == PASS
    ensures FullAcl(acl, final) == FAIL <==> forall i :: 0 <= i < |acl| ==> FullExpr(acl[i], final) == FAIL
    ensures Proper(FullAcl(acl, final))
  {
    hide FullExpr;
    AclProper(acl, final);
    if acl != [] {
      ExprProper(acl[0], final);
      AclMeans(acl[1..], final);
      assert acl == [acl[0]] + acl[1..];
    }
  }

  /** Negation exchanges pass and fail, and leaves a miss a miss. */
  lemma TermMeans(t: Term, final: bool)
    ensures FullTerm(t, final) == PASS <==> FullAcl(t.acl, final) == if t.neg then FAIL else PASS
    ensures FullTerm(t, final) == FAIL <==> FullAcl(t.acl, final) == if t.neg then PASS else FAIL
    ensures FullTerm(t, final) == MISS <==> FullAcl(t.acl, final) == MISS
  {
    hide FullAcl;
    AclProper(t.acl, final);
  }

  /** A suite has the value of its first term that does not pass. */
  lemma {:induction false} SuiteMeans(s: Suite, final: bool)
    ensures ExecSuite(s, final) == PASS <==> forall i :: 0 <= i < |s| ==> FullTerm(s[i], final) == PASS
    ensures forall i: nat :: Decides(s, i, final) ==> ExecSuite(s, final) == FullTerm(s[i], final)
  {
    hide FullTerm;
    if s != [] {
      SuiteMeans(s[1..], final);
      assert s == [s[0]] + s[1..];
      if FullTerm(s[0], final) == PASS {
        forall i: nat | Decides(s, i, final) ensures ExecSuite(s, final) == FullTerm(s[i], final) {
          assert forall j :: 0 <= j < i - 1 ==> s[1..][j] == s[j + 1];
          assert Decides(s[1..], i - 1, final);
        }
      }
    }
  }

  /** The i-th term is the first that does not pass. */
  ghost predicate Decides(s: Suite, i: nat, final: bool) {
    i < |s| && FullTerm(s[i], final) != PASS && forall j :: 0 <= j < i ==> FullTerm(s[j], final) == PASS
  }

  /** A condition passes when a suite does, and fails when all do. */
  lemma {:induction false} CondMeans(c: seq<Suite>, final: bool)
    ensures ExecCond(c, final) == PASS <==> exists i :: 0 <= i < |c| && ExecSuite(c[i], final) == PASS
    ensures ExecCond(c, final) == FAIL <==> forall i :: 0 <= i < |c| ==> ExecSuite(c[i], final) == FAIL
  {
    hide ExecSuite;
    ExecAgrees(c, final);
    if c != [] {
      SuiteProper(c[0], final);
      ExecAgrees(c[1..], final);
      CondMeans(c[1..], final);
      assert c == [c[0]] + c[1..];
    }
  }

  // ----- written conditions

  /** An ACL with `alone` marks standing before it and `marks` at its front: a name, or words between braces. */
  datatype Literal =
    | Named(alone: nat, marks: nat, name: string)
    | Braced(alone: nat, marks: nat, words: seq<string>)

  function Bangs(n: nat): (s: string)
    ensures |s| == n
  {
    seq(n, i => '!')
  }

  function LoneBangs(n: nat): (s: seq<string>)
    ensures |s| == n
  {
    seq(n, i => "!")
  }

  function LitWords(l: Literal): seq<string> {
    LoneBangs(l.alone) +
    match l
    case Named(_, marks, name) => [Bangs(marks) + name]
    case Braced(_, marks, words) => [Bangs(marks) + "{"] + words + ["}"]
  }

  predicate Legal(l: Literal) {
    match l
    case Named(_, _, name) => name != "" && name[0] != '!' && name != "{" && !IsOr(name)
    case Braced(_, _, words) => "}" !in words
  }

  function AclOf(l: Literal, names: Names, braces: Braces): Option<Acl> {
    match l case Named(_, _, name) => names(name) case Braced(_, _, words) => braces(words)
  }

  predicate Negated(l: Literal) { (l.alone + l.marks) % 2 == 1 }

  /** Groups apart by an or-word. */
  function CondWords(groups: seq<seq<Literal>>, sep: string): seq<string> {
    if groups == [] then []
    else GroupWords(groups[0]) + (if |groups| == 1 then [] else [sep] + CondWords(groups[1..], sep))
  }

  function GroupWords(group: seq<Literal>): seq<string> {
    if group == [] then [] else LitWords(group[0]) + GroupWords(group[1..])
  }

  // ----- reading them back

  lemma {:induction false} MarksOf(n: nat, w: string)
    requires w == "" || w[0] != '!'
    ensures Marks(Bangs(n) + w) == n && (Bangs(n) + w)[n..] == w
  {
    if n > 0 {
      assert (Bangs(n) + w)[1..] == Bangs(n - 1) + w;
      MarksOf(n - 1, w);
    } else {
      assert Bangs(n) + w == w;
    }
  }

  lemma BangRead(words: seq<string>, at: nat, neg: bool, names: Names, braces: Braces)
    requires at < |words| && words[at] == "!"
    ensures Tokens(words, at, neg, names, braces) == Tokens(words, at + 1, !neg, names, braces)
  {
    assert Marks("!") == 1 && "!"[1..] == "";
  }

  /** Marks that stand alone are only counted. */
  lemma {:induction false} LoneRead(words: seq<string>, at: nat, n: nat, neg: bool, names: Names, braces: Braces)
    requires at + n <= |words| && words[at..at + n] == LoneBangs(n)
    ensures Tokens(words, at, neg, names, braces) == Tokens(words, at + n, neg != (n % 2 == 1), names, braces)
    decreases n
  {
    if n > 0 {
      assert words[at] == words[at..at + n][0] == "!";
      assert words[at + 1..at + n] == words[at..at + n][1..] == LoneBangs(n - 1);
      BangRead(words, at, neg, names, braces);
      hide Tokens;
      LoneRead(words, at + 1, n - 1, !neg, names, braces);
    }
  }

  lemma {:induction false} ClosingIs(words: seq<string>, i: nat, end: nat)
    requires i <= end < |words| && words[end] == "}" && "}" !in words[i..end]
    ensures ClosingAt(words, i) == end
    decreases end - i
  {
    if i < end {
      assert words[i] == words[i..end][0];
      assert words[i + 1..end] == words[i..end][1..];
      ClosingIs(words, i + 1, end);
    }
  }

  /** One literal, whatever follows. */
  lemma {:induction false} LitRead(words: seq<string>, at: nat, l: Literal, names: Names, braces: Braces)
    requires Legal(l) && at + |LitWords(l)| <= |words| && words[at..at + |LitWords(l)|] == LitWords(l)
    ensures Tokens(words, at, false, names, braces) ==
      match AclOf(l, names, braces)
      case None => None
      case Some(acl) => Prepend(Lit(Term(acl, Negated(l))), Tokens(words, at + |LitWords(l)|, false, names, braces))
  {
    hide Tokens, IsOr, Bangs, LoneBangs;
    var n := l.alone;
    LitPlaces(words, at, l);
    LoneRead(words, at, n, false, names, braces);
    Parity(n, l.marks);
    match l
    case Named(_, marks, name) => NamedRead(words, at + n, n % 2 == 1, marks, name, names, braces);
    case Braced(_, marks, inner) => BracedRead(words, at + n, n % 2 == 1, marks, inner, names, braces);
  }

  lemma NamedRead(words: seq<string>, at: nat, neg: bool, marks: nat, name: string, names: Names, braces: Braces)
    requires at < |words| && words[at] == Bangs(marks) + name && Legal(Named(0, marks, name))
    ensures Tokens(words, at, neg, names, braces) ==
      match names(name)
      case None => None
      case Some(acl) =>
        Prepend(Lit(Term(acl, neg != (marks % 2 == 1))), Tokens(words, at + 1, false, names, braces))
  {
    hide IsOr, Marks, ClosingAt, Prepend, Bangs;
    MarksOf(marks, name);
  }

  lemma BracedRead(words: seq<string>, at: nat, neg: bool, marks: nat, inner: seq<string>, names: Names, braces: Braces)
    requires at + |inner| + 1 < |words| && words[at] == Bangs(marks) + "{" && "}" !in inner
    requires words[at + 1..at + 1 + |inner|] == inner && words[at + 1 + |inner|] == "}"
    ensures Tokens(words, at, neg, names, braces) ==
      match braces(inner)
      case None => None
      case Some(acl) =>
        Prepend(Lit(Term(acl, neg != (marks % 2 == 1))), Tokens(words, at + |inner| + 2, false, names, braces))
  {
    hide Marks, ClosingAt, Prepend, Bangs;
    MarksOf(marks, "{");
    ClosingIs(words, at + 1, at + 1 + |inner|);
  }

  /** Where the words of a literal are. */
  lemma LitPlaces(words: seq<string>, at: nat, l: Literal)
    requires at + |LitWords(l)| <= |words| && words[at..at + |LitWords(l)|] == LitWords(l)
    ensures var n := at + l.alone;
      && words[at..n] == LoneBangs(l.alone)
      && match l {
        case Named(_, marks, name) => n < |words| && words[n] == Bangs(marks) + name
        case Braced(_, marks, inner) =>
          && n + |inner| + 1 < |words| && words[n] == Bangs(marks) + "{"
          && words[n + 1..n + 1 + |inner|] == inner && words[n + 1 + |inner|] == "}"
      }
  {
    hide Bangs, LoneBangs;
    var ws, n := LitWords(l), l.alone;
    assert forall i :: 0 <= i < |ws| ==> words[at + i] == ws[i];
    assert words[at..at + n] == ws[..n];
    match l
    case Named(_, _, _) =>
    case Braced(_, _, inner) =>
      assert ws[n + 1..n + 1 + |inner|] == inner;
      assert words[at + n + 1..at + n + 1 + |inner|] == ws[n + 1..n + 1 + |inner|];
  }

  lemma Parity(a: nat, b: nat)
    ensures ((a % 2 == 1) != (b % 2 == 1)) == ((a + b) % 2 == 1)
  {
  }

  function TermOf(l: Literal, names: Names, braces: Braces): Term
    requires AclOf(l, names, braces).Some?
  {
    Term(AclOf(l, names, braces).value, Negated(l))
  }

  ghost predicate Known(group: seq<Literal>, names: Names, braces: Braces) {
    forall i :: 0 <= i < |group| ==> AclOf(group[i], names, braces).Some?
  }

  function TermsOf(group: seq<Literal>, names: Names, braces: Braces): (s: Suite)
    requires Known(group, names, braces)
    ensures |s| == |group| && forall i :: 0 <= i < |s| ==> s[i] == TermOf(group[i], names, braces)
  {
    if group == [] then [] else [TermOf(group[0], names, braces)] + TermsOf(group[1..], names, braces)
  }

  function Lits(s: Suite): seq<Token> { if s == [] then [] else [Lit(s[0])] + Lits(s[1..]) }

  function Chain(ts: seq<Token>, rest: Option<seq<Token>>): Option<seq<Token>> {
    match rest case None => None case Some(r) => Some(ts + r)
  }

  lemma {:induction false} GroupRead(words: seq<string>, at: nat, group: seq<Literal>, names: Names, braces: Braces)
    requires forall i :: 0 <= i < |group| ==> Legal(group[i])
    requires at + |GroupWords(group)| <= |words| && words[at..at + |GroupWords(group)|] == GroupWords(group)
    ensures Tokens(words, at, false, names, braces) ==
      if Known(group, names, braces) then
        Chain(Lits(TermsOf(group, names, braces)), Tokens(words, at + |GroupWords(group)|, false, names, braces))
      else None
    decreases |group|
  {
    hide LitWords, Tokens, Legal, AclOf;
    var ws := GroupWords(group);
    var rest := Tokens(words, at + |ws|, false, names, braces);
    if group == [] {
      assert rest.Some? ==> [] + rest.value == rest.value;
    } else {
      var first, more := LitWords(group[0]), GroupWords(group[1..]);
      assert words[at..at + |first|] == words[at..at + |ws|][..|first|] == first;
      assert words[at + |first|..at + |first| + |more|] == words[at..at + |ws|][|first|..] == more;
      LitRead(words, at, group[0], names, braces);
      GroupRead(words, at + |first|, group[1..], names, braces);
      KnownSplit(group, names, braces);
      if Known(group, names, braces) && rest.Some? {
        var t, s := TermOf(group[0], names, braces), TermsOf(group[1..], names, braces);
        assert TermsOf(group, names, braces) == [t] + s;
        assert ([t] + s)[1..] == s;
        assert [Lit(t)] + (Lits(s) + rest.value) == [Lit(t)] + Lits(s) + rest.value;
      }
    }
  }

  lemma KnownSplit(group: seq<Literal>, names: Names, braces: Braces)
    requires group != []
    ensures Known(group, names, braces) <==>
      AclOf(group[0], names, braces).Some? && Known(group[1..], names, braces)
  {
    hide AclOf;
    assert group == [group[0]] + group[1..];
  }

  ghost predicate AllKnown(groups: seq<seq<Literal>>, names: Names, braces: Braces) {
    forall i :: 0 <= i < |groups| ==> Known(groups[i], names, braces)
  }

  /** Every literal is written as one and every group has one. */
  ghost predicate WellWritten(groups: seq<seq<Literal>>) {
    forall i :: 0 <= i < |groups| ==> groups[i] != [] && forall j :: 0 <= j < |groups[i]| ==> Legal(groups[i][j])
  }

  ghost function SuitesOf(groups: seq<seq<Literal>>, names: Names, braces: Braces): (c: seq<Suite>)
    requires AllKnown(groups, names, braces)
    ensures |c| == |groups| && forall i :: 0 <= i < |c| ==> c[i] == TermsOf(groups[i], names, braces)
  {
    if groups == [] then []
    else [TermsOf(groups[0], names, braces)] + SuitesOf(groups[1..], names, braces)
  }

  function SuiteTokens(c: seq<Suite>): seq<Token> {
    if c == [] then [] else Lits(c[0]) + (if |c| == 1 then [] else [Or] + SuiteTokens(c[1..]))
  }

  /** The or-words. */
  lemma OrWords(w: string)
    ensures IsOr(w) <==> w in {"or", "oR", "Or", "OR", "||"}
  {
    if IsOr(w) {
      assert w == [w[0], w[1]];
    }
  }

  lemma OrRead(words: seq<string>, at: nat, names: Names, braces: Braces)
    requires at < |words| && IsOr(words[at])
    ensures Tokens(words, at, false, names, braces) ==
      Prepend(Or, Tokens(words, at + 1, false, names, braces))
  {
    assert Marks(words[at]) == 0 && words[at][0..] == words[at];
  }

  lemma {:induction false} CondRead(words: seq<string>, at: nat, groups: seq<seq<Literal>>, sep: string,
      names: Names, braces: Braces)
    requires WellWritten(groups) && IsOr(sep) && at <= |words| && words[at..] == CondWords(groups, sep)
    ensures Tokens(words, at, false, names, braces) ==
      if AllKnown(groups, names, braces) then Some(SuiteTokens(SuitesOf(groups, names, braces))) else None
    decreases |groups|
  {
    hide Tokens, Legal, GroupWords, Lits, Known, TermsOf, IsOr;
    if groups == [] {
      EndRead(words, at, names, braces);
    } else {
      var first := GroupWords(groups[0]);
      var next := at + |first|;
      assert words[at..next] == words[at..][..|first|] == first;
      GroupRead(words, at, groups[0], names, braces);
      AllKnownSplit(groups, names, braces);
      if |groups| == 1 {
        assert next == |words|;
        EndRead(words, next, names, braces);
        if AllKnown(groups, names, braces) {
          OneSuite(groups, names, braces);
        }
      } else {
        assert words[next..] == words[at..][|first|..] == [sep] + CondWords(groups[1..], sep);
        assert words[next] == words[next..][0] == sep;
        assert words[next + 1..] == words[next..][1..];
        OrRead(words, next, names, braces);
        CondRead(words, next + 1, groups[1..], sep, names, braces);
        if AllKnown(groups, names, braces) {
          MoreSuites(groups, names, braces);
        }
      }
    }
  }

  lemma EndRead(words: seq<string>, at: nat, names: Names, braces: Braces)
    requires at == |words|
    ensures Tokens(words, at, false, names, braces) == Some([])
  {
  }

  lemma AllKnownSplit(groups: seq<seq<Literal>>, names: Names, braces: Braces)
    requires groups != []
    ensures AllKnown(groups, names, braces) <==>
      Known(groups[0], names, braces) && AllKnown(groups[1..], names, braces)
  {
    hide Known;
    assert groups == [groups[0]] + groups[1..];
  }

  lemma OneSuite(groups: seq<seq<Literal>>, names: Names, braces: Braces)
    requires |groups| == 1 && AllKnown(groups, names, braces)
    ensures Chain(Lits(TermsOf(groups[0], names, braces)), Some([])) ==
      Some(SuiteTokens(SuitesOf(groups, names, braces)))
  {
    hide Lits, Known, TermsOf;
  }

  lemma MoreSuites(groups: seq<seq<Literal>>, names: Names, braces: Braces)
    requires |groups| > 1 && AllKnown(groups, names, braces) && AllKnown(groups[1..], names, braces)
    ensures Chain(Lits(TermsOf(groups[0], names, braces)),
                  Prepend(Or, Some(SuiteTokens(SuitesOf(groups[1..], names, braces))))) ==
      Some(SuiteTokens(SuitesOf(groups, names, braces)))
  {
    hide Lits, Known, TermsOf;
    var c := SuitesOf(groups, names, braces);
    assert c[1..] == SuitesOf(groups[1..], names, braces);
  }

  // ----- building the suites

  lemma {:induction false} GroupOfLits(s: Suite, tail: seq<Token>)
    requires tail == [] || tail[0].Or?
    ensures FirstGroup(Lits(s) + tail) == s && (Lits(s) + tail)[|s|..] == tail
  {
    if s == [] {
      assert Lits(s) + tail == tail;
    } else {
      assert (Lits(s) + tail)[1..] == Lits(s[1..]) + tail;
      GroupOfLits(s[1..], tail);
    }
  }

  /** A group of literals becomes one more suite. */
  lemma {:induction false} BuildGroup(suites: seq<Suite>, s: Suite, tail: seq<Token>)
    requires s != [] && (tail == [] || tail[0].Or?)
    ensures Build(suites, false, Lits(s) + tail) == Build(suites + [s], false, tail)
  {
    var rest := Lits(s[1..]) + tail;
    assert Lits(s) + tail == [Lit(s[0])] + rest;
    hide Lits, FirstGroup, Build;
    BuildFirst(suites, s[0], rest);
    var suites1 := suites + [[s[0]]];
    GroupOfLits(s[1..], tail);
    GroupAppended(suites1, rest);
    assert [s[0]] + s[1..] == s;
    assert suites1[|suites1| - 1 := suites1[|suites1| - 1] + s[1..]] == suites + [s];
  }

  lemma BuildFirst(suites: seq<Suite>, t: Term, rest: seq<Token>)
    ensures Build(suites, false, [Lit(t)] + rest) == Build(suites + [[t]], true, rest)
  {
    assert ([Lit(t)] + rest)[1..] == rest;
  }

  lemma {:induction false} BuildAll(suites: seq<Suite>, c: seq<Suite>)
    requires forall i :: 0 <= i < |c| ==> c[i] != []
    ensures Build(suites, false, SuiteTokens(c)) == suites + c
    decreases |c|
  {
    hide Lits;
    if c != [] {
      var tail := if |c| == 1 then [] else [Or] + SuiteTokens(c[1..]);
      BuildGroup(suites, c[0], tail);
      assert c == [c[0]] + c[1..];
      if |c| > 1 {
        assert tail[1..] == SuiteTokens(c[1..]);
        BuildAll(suites + [c[0]], c[1..]);
        assert suites + [c[0]] + c[1..] == suites + c;
      }
    }
  }

  /**
   * Main result. A condition written as groups of literals is read as exactly
   * those: a suite per group, a term per literal, negated when the marks before
   * and at its front are odd in number. It is refused exactly when a literal
   * names nothing that is known.
   */
  lemma {:induction false} ReadsBack(groups: seq<seq<Literal>>, sep: string, names: Names, braces: Braces)
    requires WellWritten(groups) && IsOr(sep)
    ensures var r := Finish([], false, Tokens(CondWords(groups, sep), 0, false, names, braces));
      && (r.Some? <==> AllKnown(groups, names, braces))
      && (r.Some? ==>
            && |r.value| == |groups|
            && forall i :: 0 <= i < |groups| ==>
                 && |r.value[i]| == |groups[i]|
                 && forall j :: 0 <= j < |groups[i]| ==>
                      && r.value[i][j].neg == ((groups[i][j].alone + groups[i][j].marks) % 2 == 1)
                      && AclOf(groups[i][j], names, braces) == Some(r.value[i][j].acl))
  {
    hide Tokens, Build, Legal, CondWords, IsOr, AclOf, SuiteTokens;
    var words := CondWords(groups, sep);
    assert words[0..] == words;
    CondRead(words, 0, groups, sep, names, braces);
    if AllKnown(groups, names, braces) {
      var c := SuitesOf(groups, names, braces);
      BuildAll([], c);
      assert [] + c == c;
    }
  }

  /** On complete data it passes when some group's literals all hold, a literal holding as its ACL and marks say. */
  lemma {:induction false} WordsMean(groups: seq<seq<Literal>>, sep: string, names: Names, braces: Braces)
    requires WellWritten(groups) && IsOr(sep) && AllKnown(groups, names, braces)
    ensures var r := Finish([], false, Tokens(CondWords(groups, sep), 0, false, names, braces));
      r.Some? &&
      (ExecCond(r.value, true) == PASS <==>
       exists i :: 0 <= i < |groups| && AllHold(groups[i], names, braces))
  {
    hide Tokens, Legal, CondWords, IsOr, AclOf, AllHold, Finish, ExecSuite, ExecCond;
    ReadsBack(groups, sep, names, braces);
    var c := Finish([], false, Tokens(CondWords(groups, sep), 0, false, names, braces)).value;
    CondMeans(c, true);
    forall i | 0 <= i < |groups| ensures ExecSuite(c[i], true) == PASS <==> AllHold(groups[i], names, braces) {
      GroupMeans(c[i], groups[i], names, braces);
    }
  }

  /** A literal holds: its ACL passes, or does not if the marks are odd in number. */
  ghost predicate Holds(l: Literal, names: Names, braces: Braces) {
    AclOf(l, names, braces).Some? &&
    ((FullAcl(AclOf(l, names, braces).value, true) == PASS) != ((l.alone + l.marks) % 2 == 1))
  }

  ghost predicate AllHold(group: seq<Literal>, names: Names, braces: Braces) {
    forall j :: 0 <= j < |group| ==> Holds(group[j], names, braces)
  }

  lemma {:induction false} GroupMeans(s: Suite, group: seq<Literal>, names: Names, braces: Braces)
    requires |s| == |group|
    requires forall j :: 0 <= j < |group| ==>
      s[j].neg == ((group[j].alone + group[j].marks) % 2 == 1) && AclOf(group[j], names, braces) == Some(s[j].acl)
    ensures ExecSuite(s, true) == PASS <==> AllHold(group, names, braces)
  {
    hide AclOf, ExecSuite, FullAcl, FullTerm;
    SuiteMeans(s, true);
    forall j | 0 <= j < |group| ensures FullTerm(s[j], true) == PASS <==> Holds(group[j], names, braces) {
      TermMeans(s[j], true);
      AclProper(s[j].acl, true);
    }
  }

  /** A brace that is never closed is refused. */
  lemma {:induction false} OpenBrace(words: seq<string>, at: nat, marks: nat, names: Names, braces: Braces)
    requires at < |words| && words[at] == Bangs(marks) + "{" && "}" !in words[at + 1..]
    ensures Tokens(words, at, false, names, braces) == None
  {
    MarksOf(marks, "{");
    NeverClosed(words, at + 1);
  }

  lemma {:induction false} NeverClosed(words: seq<string>, i: nat)
    requires i <= |words| && "}" !in words[i..]
    ensures ClosingAt(words, i) == |words|
    decreases |words| - i
  {
    if i < |words| {
      assert words[i] == words[i..][0] && words[i + 1..] == words[i..][1..];
      NeverClosed(words, i + 1);
    }
  }
}
