/** Parsing the words of a condition into suites of terms. */
module AclParse {
  import opened Options
  import opened AclCond

  /** The ACL that a name stands for, known or built in; and the one that the words between braces define. */
  type Names = string -> Option<Acl>
  type Braces = seq<string> -> Option<Acl>

  // ----- the words as literals separated by "or"

  datatype Token = Or | Lit(term: Term)

  function Marks(w: string): (n: nat)
    ensures n <= |w|
  {
    if w != "" && w[0] == '!' then 1 + Marks(w[1..]) else 0
  }

  predicate IsOr(w: string) {
    (|w| == 2 && (w[0] == 'o' || w[0] == 'O') && (w[1] == 'r' || w[1] == 'R')) || w == "||"
  }

  /** The position of the closing brace from i on, or the number of words. */
  function ClosingAt(words: seq<string>, i: nat): (n: nat)
    ensures i <= |words| ==> i <= n <= |words| && (n < |words| ==> words[n] == "}")
    decreases |words| - i
  {
    if i >= |words| then |words| else if words[i] == "}" then i else ClosingAt(words, i + 1)
  }

  /** `neg` is set by exclamation marks that stand alone before the word. */
  function Tokens(words: seq<string>, at: nat, neg: bool, names: Names, braces: Braces): Option<seq<Token>>
    decreases |words| - at
  {
    if at >= |words| then Some([])
    else
      var n := Marks(words[at]);
      var w, neg' := words[at][n..], neg != (n % 2 == 1);
      if w == "" then Tokens(words, at + 1, neg', names, braces)
      else if IsOr(w) then Prepend(Or, Tokens(words, at + 1, false, names, braces))
      else if w == "{" then
        var end := ClosingAt(words, at + 1);
        if end == |words| then None
        else
          match braces(words[at + 1..end])
          case None => None
          case Some(acl) => Prepend(Lit(Term(acl, neg')), Tokens(words, end + 1, false, names, braces))
      else
        match names(w)
        case None => None
        case Some(acl) => Prepend(Lit(Term(acl, neg')), Tokens(words, at + 1, false, names, braces))
  }

  function Prepend(t: Token, ts: Option<seq<Token>>): Option<seq<Token>> {
    match ts case None => None case Some(s) => Some([t] + s)
  }

  // ----- the parser: terms are appended to the current suite, which "or" closes

  function AddTerm(suites: seq<Suite>, open: bool, t: Term): seq<Suite> {
    if open && suites != [] then suites[|suites| - 1 := suites[|suites| - 1] + [t]] else suites + [[t]]
  }

  function Build(suites: seq<Suite>, open: bool, ts: seq<Token>): seq<Suite>
    decreases |ts|
  {
    if ts == [] then suites
    else
      match ts[0]
      case Or => Build(suites, false, ts[1..])
      case Lit(t) => Build(AddTerm(suites, open, t), true, ts[1..])
  }

  method StripMarks(word: string, neg0: bool) returns (w: string, neg: bool)
    ensures w == word[Marks(word)..] && neg == (neg0 != (Marks(word) % 2 == 1))
  {
    w, neg := word, neg0;
    while w != "" && w[0] == '!'
      invariant |w| <= |word| && w == word[|word| - |w|..] && Marks(word) == (|word| - |w|) + Marks(w)
      invariant neg == (neg0 != ((|word| - |w|) % 2 == 1))
      decreases |w|
    {
      neg := !neg;
      w := w[1..];
    }
  }

  method FindBrace(words: seq<string>, start: nat) returns (end: nat)
    requires start <= |words|
    ensures end == ClosingAt(words, start)
  {
    end := start;
    while end < |words| && words[end] != "}"
      invariant end <= |words| && ClosingAt(words, end) == ClosingAt(words, start)
    {
      end := end + 1;
    }
  }

  /** The suites in the end, if all the words that remain can be read. */
  function Finish(suites: seq<Suite>, open: bool, ts: Option<seq<Token>>): Option<seq<Suite>> {
    match ts case None => None case Some(s) => Some(Build(suites, open, s))
  }

  lemma FinishStep(suites: seq<Suite>, open: bool, t: Token, ts: Option<seq<Token>>)
    ensures t.Or? ==> Finish(suites, open, Prepend(t, ts)) == Finish(suites, false, ts)
    ensures t.Lit? ==> Finish(suites, open, Prepend(t, ts)) == Finish(AddTerm(suites, open, t.term), true, ts)
  {
    if ts.Some? {
      assert ([t] + ts.value)[1..] == ts.value;
    }
  }

  method ParseAclCond(words: seq<string>, names: Names, braces: Braces) returns (r: Option<seq<Suite>>)
    ensures r == Finish([], false, Tokens(words, 0, false, names, braces))
  {
    hide IsOr, ClosingAt, Marks, AddTerm, Finish, Prepend;
    var suites: seq<Suite>, open, neg, arg := [], false, false, 0;
    while arg < |words|
      invariant Finish(suites, open, Tokens(words, arg, neg, names, braces)) == Finish([], false,
        Tokens(words, 0, false, names, braces))
      decreases |words| - arg
    {
      var w, neg' := StripMarks(words[arg], neg);
      neg := neg';
      if w == "" {
        arg := arg + 1;
        continue;
      }
      if IsOr(w) {
        FinishStep(suites, open, Or, Tokens(words, arg + 1, false, names, braces));
        open, neg := false, false;
        arg := arg + 1;
        continue;
      }
      var acl: Option<Acl>, next := None, arg + 1;
      if w == "{" {
        var end := FindBrace(words, arg + 1);
        if end == |words| {
          FinishNone(suites, open);
          return None;
        }
        acl := braces(words[arg + 1..end]);
        next := end + 1;
      } else {
        acl := names(w);
      }
      if acl.None? {
        FinishNone(suites, open);
        return None;
      }
      var t := Term(acl.value, neg);
      FinishStep(suites, open, Lit(t), Tokens(words, next, false, names, braces));
      suites := AddTerm(suites, open, t);
      open, neg := true, false;
      arg := next;
    }
    FinishEmpty(suites, open);
    r := Some(suites);
  }

  lemma FinishNone(suites: seq<Suite>, open: bool)
    ensures Finish(suites, open, None) == None
  {
  }

  lemma FinishEmpty(suites: seq<Suite>, open: bool)
    ensures Finish(suites, open, Some([])) == Some(suites)
  {
  }

  // ----- the meaning of the words

  /** The literals up to the next "or". */
  function FirstGroup(ts: seq<Token>): (g: Suite)
    ensures |g| <= |ts|
  {
    if ts == [] || ts[0].Or? then [] else [ts[0].term] + FirstGroup(ts[1..])
  }

  /** A disjunction of conjunctions; a group without literals adds nothing. */
  function Meaning(ts: seq<Token>, final: bool): Res
    decreases |ts|
  {
    if ts == [] then FAIL
    else if ts[0].Or? then Meaning(ts[1..], final)
    else
      var g := FirstGroup(ts);
      FullSuite(g, final) | Meaning(ts[|g|..], final)
  }

  lemma {:induction false} GroupAppended(suites: seq<Suite>, ts: seq<Token>)
    requires suites != []
    ensures var g := FirstGroup(ts);
      Build(suites, true, ts) == Build(suites[|suites| - 1 := suites[|suites| - 1] + g], false, ts[|g|..])
    decreases |ts|
  {
    var g := FirstGroup(ts);
    if ts == [] || ts[0].Or? {
      assert suites[|suites| - 1] + g == suites[|suites| - 1];
      assert suites[|suites| - 1 := suites[|suites| - 1]] == suites;
      assert ts[0..] == ts;
    } else {
      var t := ts[0].term;
      var suites1 := AddTerm(suites, true, t);
      GroupAppended(suites1, ts[1..]);
      var last := suites[|suites| - 1];
      var g1 := FirstGroup(ts[1..]);
      assert last + [t] + g1 == last + g;
      assert suites1[|suites1| - 1 := suites1[|suites1| - 1] + g1] == suites[|suites| - 1 := last + g];
      assert ts[1..][|g1|..] == ts[|g|..];
    }
  }

  lemma {:induction false} FullAppend(c: seq<Suite>, s: Suite, final: bool)
    ensures FullCond(c + [s], final) == FullCond(c, final) | FullSuite(s, final)
  {
    if c == [] {
      assert c + [s] == [s];
      assert [s][1..] == [];
    } else {
      assert (c + [s])[1..] == c[1..] + [s];
      FullAppend(c[1..], s, final);
    }
  }

  /** The suites that the parser builds mean what the words mean. */
  lemma {:induction false} ParsedMeaning(suites: seq<Suite>, ts: seq<Token>, final: bool)
    ensures FullCond(Build(suites, false, ts), final) == FullCond(suites, final) | Meaning(ts, final)
    decreases |ts|
  {
    hide FullSuite;
    if ts != [] {
      if ts[0].Or? {
        ParsedMeaning(suites, ts[1..], final);
      } else {
        var t, g := ts[0].term, FirstGroup(ts);
        var suites1 := AddTerm(suites, false, t);
        GroupAppended(suites1, ts[1..]);
        var g1 := FirstGroup(ts[1..]);
        assert [t] + g1 == g;
        assert suites1[|suites1| - 1 := suites1[|suites1| - 1] + g1] == suites + [g];
        assert ts[1..][|g1|..] == ts[|g|..];
        ParsedMeaning(suites + [g], ts[|g|..], final);
        FullAppend(suites, g, final);
      }
    }
  }

  /** No suite is empty, so no condition passes for want of terms. */
  lemma {:induction false} NoEmptySuite(suites: seq<Suite>, open: bool, ts: seq<Token>)
    requires forall i :: 0 <= i < |suites| ==> suites[i] != []
    ensures forall i :: 0 <= i < |Build(suites, open, ts)| ==> Build(suites, open, ts)[i] != []
    decreases |ts|
  {
    if ts != [] {
      NoEmptySuite(if ts[0].Or? then suites else AddTerm(suites, open, ts[0].term), !ts[0].Or?, ts[1..]);
    }
  }

  /**
   * Parsing and executing: the answer on complete data is the meaning of the
   * words, and on incomplete data it passes exactly when their meaning does and
   * fails only when it does.
   */
  lemma {:induction false} ParseThenExec(ts: seq<Token>, final: bool)
    ensures var res := ExecCond(Build([], false, ts), final);
      && (res == PASS <==> Meaning(ts, final) == PASS)
      && (res == FAIL ==> Meaning(ts, final) == FAIL)
      && (final ==> res == Meaning(ts, final) != MISS)
  {
    hide ExecCond, FullCond, Build;
    ParsedMeaning([], ts, final);
    ExecAgrees(Build([], false, ts), final);
    EmptyCond(final);
    PassAbsorbs(Meaning(ts, final));
  }

  lemma EmptyCond(final: bool)
    ensures FullCond([], final) == FAIL
  {
  }
}
