/** Printing and parsing conditions, and what the depth budget does. */
module CfgCondProof {
  import opened Options
  import opened CfgCond
  import Numerals
  import Args = ArgList

  // ----- printing

  function PrintTerm(t: Term): string
    requires GoodTerm(t)
  {
    (if t.neg then "!" else "") +
    match t.body
    case False => "0"
    case True => "1"
    case Pred(k, args) => Word(k) + Args.Written(args)
    case Paren(e) => "(" + PrintExpr(e) + ")"
  }

  function PrintAnd(a: And): string
    requires GoodAnd(a)
  {
    match a
    case OneTerm(t) => PrintTerm(t)
    case AndThen(t, more) => PrintTerm(t) + " && " + PrintAnd(more)
  }

  function PrintExpr(e: Expr): string
    requires GoodExpr(e)
  {
    match e
    case OneAnd(a) => PrintAnd(a)
    case OrElse(a, rest) => PrintAnd(a) + " || " + PrintExpr(rest)
  }

  /** Predicates have as many arguments as they take. */
  predicate GoodTerm(t: Term) {
    match t.body
    case Pred(k, args) => |args| == ArgCount(k)
    case Paren(e) => GoodExpr(e)
    case _ => true
  }

  predicate GoodAnd(a: And) {
    GoodTerm(a.term) && (a.AndThen? ==> GoodAnd(a.more))
  }

  predicate GoodExpr(e: Expr) {
    GoodAnd(e.sub) && (e.OrElse? ==> GoodExpr(e.rest))
  }

  /** Every argument fits the room for one, with a quote and a terminator to spare. */
  predicate FitsTerm(t: Term, size: nat) {
    match t.body
    case Pred(_, args) => forall i :: 0 <= i < |args| ==> |args[i]| + 1 < size
    case Paren(e) => FitsExpr(e, size)
    case _ => true
  }

  predicate FitsAnd(a: And, size: nat) {
    FitsTerm(a.term, size) && (a.AndThen? ==> FitsAnd(a.more, size))
  }

  predicate FitsExpr(e: Expr, size: nat) {
    FitsAnd(e.sub, size) && (e.OrElse? ==> FitsExpr(e.rest, size))
  }

  // ----- how deep the parser goes

  function Max(a: nat, b: nat): nat { if a < b then b else a }

  function TermDepth(t: Term): nat { if t.body.Paren? then 1 + ExprDepth(t.body.expr) else 1 }

  function AndDepth(a: And): nat {
    1 + if a.AndThen? then Max(TermDepth(a.term), AndDepth(a.more)) else TermDepth(a.term)
  }

  function ExprDepth(e: Expr): nat {
    1 + if e.OrElse? then Max(AndDepth(e.sub), ExprDepth(e.rest)) else AndDepth(e.sub)
  }

  // ----- a larger budget never changes a successful parse, and the budget covers the depth of the result

  lemma {:induction false} TermBudget(s: string, d: int, d': int, size: nat)
    requires ParseTerm(s, d, size).Ok? && d <= d'
    ensures ParseTerm(s, d', size) == ParseTerm(s, d, size) && TermDepth(ParseTerm(s, d, size).value) <= d
    decreases if d < 0 then 0 else d
  {
    hide Strtol, ParsePred, SkipBlanks, Negations;
    var (neg, t) := Negations(SkipBlanks(s), false);
    if !Strtol(t).found {
      if t != "" && t[0] == '(' {
        ExprBudget(SkipBlanks(t[1..]), d - 1, d' - 1, size);
      } else {
        PredIsFlat(neg, t, size);
      }
    }
  }

  lemma PredIsFlat(neg: bool, t: string, size: nat)
    ensures ParsePred(neg, t, size).Ok? ==> !ParsePred(neg, t, size).value.body.Paren?
  {
  }

  lemma {:induction false} AndBudget(s: string, d: int, d': int, size: nat)
    requires ParseAnd(s, d, size).Ok? && d <= d'
    ensures ParseAnd(s, d', size) == ParseAnd(s, d, size) && AndDepth(ParseAnd(s, d, size).value) <= d
    decreases if d < 0 then 0 else d
  {
    hide ParseTerm, SkipBlanks;
    TermBudget(s, d - 1, d' - 1, size);
    var r := SkipBlanks(ParseTerm(s, d - 1, size).rest);
    if Starts(r, '&') {
      AndBudget(SkipBlanks(r[2..]), d - 1, d' - 1, size);
    }
  }

  lemma {:induction false} ExprBudget(s: string, d: int, d': int, size: nat)
    requires ParseExpr(s, d, size).Ok? && d <= d'
    ensures ParseExpr(s, d', size) == ParseExpr(s, d, size) && ExprDepth(ParseExpr(s, d, size).value) <= d
    decreases if d < 0 then 0 else d
  {
    hide ParseAnd, SkipBlanks;
    AndBudget(s, d - 1, d' - 1, size);
    var r := SkipBlanks(ParseAnd(s, d - 1, size).rest);
    if Starts(r, '|') {
      ExprBudget(SkipBlanks(r[2..]), d - 1, d' - 1, size);
    }
  }

  // ----- what may follow

  predicate Follows(rest: string) { rest == "" || rest[0] == ')' || rest[0] == ' ' }

  predicate PlainWord(w: string) {
    |w| > 0 && 'a' <= w[0] <= 'z' && forall i :: 0 <= i < |w| ==> w[i] != ' ' && w[i] != '('
  }

  lemma LongWordPlain(k: Kw)
    requires k.OsslAtLeast? || k.OsslBefore? || k.SslLibName?
    ensures PlainWord(Word(k))
  {
    match k
    case OsslAtLeast => assert PlainWord("openssl_version_atleast");
    case OsslBefore => assert PlainWord("openssl_version_before");
    case SslLibName => assert PlainWord("ssllib_name_startswith");
  }

  lemma WordPlain(k: Kw)
    ensures forall i :: 0 <= i < |Word(k)| ==> Word(k)[i] != ' ' && Word(k)[i] != '('
    ensures |Word(k)| > 0 && 'a' <= Word(k)[0] <= 'z'
  {
    if k.OsslAtLeast? || k.OsslBefore? || k.SslLibName? {
      LongWordPlain(k);
    } else {
      match k
      case Defined => assert PlainWord("defined");
      case Feature => assert PlainWord("feature");
      case StrEq => assert PlainWord("streq");
      case StrNeq => assert PlainWord("strneq");
      case StrStr => assert PlainWord("strstr");
      case VersionAtLeast => assert PlainWord("version_atleast");
      case VersionBefore => assert PlainWord("version_before");
      case Enabled => assert PlainWord("enabled");
    }
  }

  lemma {:induction false} WordLenIs(w: string, rest: string)
    requires forall i :: 0 <= i < |w| ==> w[i] != ' ' && w[i] != '('
    requires rest != "" && rest[0] == '('
    ensures WordLen(w + rest) == |w|
  {
    if w == "" {
      assert w + rest == rest;
    } else {
      assert (w + rest)[1..] == w[1..] + rest;
      WordLenIs(w[1..], rest);
    }
  }

  lemma WordsDiffer(k: Kw, k': Kw)
    requires Word(k) == Word(k')
    ensures k == k'
  {
    assert |Word(k)| == |Word(k')|;
    assert Word(k)[0] == Word(k')[0];
    assert Word(k)[3] == Word(k')[3];
  }

  lemma {:induction false} LookupInFinds(k: Kw, ks: seq<Kw>)
    requires k in ks
    ensures LookupIn(Word(k), ks) == Some(k)
  {
    hide Word;
    if ks[0] != k {
      LookupInFinds(k, ks[1..]);
      if Word(ks[0]) == Word(k) {
        WordsDiffer(ks[0], k);
      }
    }
  }

  lemma AllListed(k: Kw)
    ensures k in KEYWORDS
  {
    assert KEYWORDS[0] == Defined && KEYWORDS[1] == Feature && KEYWORDS[2] == StrEq && KEYWORDS[3] == StrNeq;
    assert KEYWORDS[4] == StrStr && KEYWORDS[5] == VersionAtLeast && KEYWORDS[6] == VersionBefore &&
      KEYWORDS[7] == OsslAtLeast;
    assert KEYWORDS[8] == OsslBefore && KEYWORDS[9] == SslLibName && KEYWORDS[10] == Enabled;
  }

  lemma {:induction false} LookupFinds(k: Kw, rest: string)
    requires rest != "" && rest[0] == '('
    ensures Lookup(Word(k) + rest) == Some(k)
  {
    hide Word, LookupIn;
    WordPlain(k);
    WordLenIs(Word(k), rest);
    assert (Word(k) + rest)[..|Word(k)|] == Word(k);
    AllListed(k);
    LookupInFinds(k, KEYWORDS);
  }

  /** A letter or a parenthesis is no number. */
  lemma NotNumber(t: string)
    requires t != "" && (t[0] == '(' || 'a' <= t[0] <= 'z')
    ensures !Strtol(t).found
  {
  }

  /** The printed digit is read as a number of its own. */
  lemma DigitNumber(t: string, rest: string)
    requires (t == "0" || t == "1") && Follows(rest)
    ensures var n := Strtol(t + rest); n.found && n.nonzero == (t == "1") && n.rest == rest
  {
    var u := t + rest;
    assert u[0] == t[0] && u[1..] == rest;
    assert SkipSpace(u) == u;
    var base := if t == "0" then 8 else 10;
    assert DigitRun(rest, base) == 0;
    assert DigitRun(u, base) == 1;
  }

  /** An odd number of exclamation marks negates, an even number does not. */
  lemma {:induction false} NegationParity(n: nat, t: string, neg: bool)
    requires t != "" && t[0] != '!' && !IsBlank(t[0])
    ensures Negations(Numerals.Repeat('!', n) + t, neg) == (neg != (n % 2 == 1), t)
    decreases n
  {
    var s := Numerals.Repeat('!', n) + t;
    if n == 0 {
      assert s == t;
    } else {
      var rest := Numerals.Repeat('!', n - 1) + t;
      assert s[0] == '!' && s[1..] == rest;
      assert !IsBlank(rest[0]) && SkipBlanks(rest) == rest;
      NegationParity(n - 1, t, !neg);
    }
  }

  lemma {:induction false} DigitRunOf(d: string, rest: string, base: nat)
    requires (forall i :: 0 <= i < |d| ==> IsDigit(d[i], base)) && (rest == "" || !IsDigit(rest[0], base))
    ensures DigitRun(d + rest, base) == |d|
  {
    if d == "" {
      assert d + rest == rest;
    } else {
      assert (d + rest)[1..] == d[1..] + rest;
      DigitRunOf(d[1..], rest, base);
    }
  }

  /** A decimal numeral is true exactly when it is not zero. */
  lemma {:induction false} NumeralRead(n: nat, rest: string)
    requires Follows(rest)
    ensures var r := Strtol(Numerals.Decimal(n) + rest); r.found && r.rest == rest && (r.nonzero <==> n != 0)
  {
    var d := Numerals.Decimal(n);
    if n == 0 {
      DigitNumber("0", rest);
    } else {
      var u := d + rest;
      assert d[0] != '0' && Numerals.IsDigit(d[0]);
      assert SkipSpace(u) == u;
      forall i | 0 <= i < |d| ensures IsDigit(d[i], 10) {
        assert Numerals.IsDigit(d[i]);
      }
      DigitRunOf(d, rest, 10);
      assert u[|d|..] == rest && u[0] != '0';
    }
  }

  predicate AllDigits(d: string, base: nat) { forall i :: 0 <= i < |d| ==> IsDigit(d[i], base) }

  /** A number read: up to where it ends, true exactly when a digit is not 0. */
  ghost predicate ReadsAs(r: Number, d: string, rest: string) {
    r.found && r.rest == rest && (r.nonzero <==> exists i :: 0 <= i < |d| && d[i] != '0')
  }

  lemma {:induction false} DigitsRead(d: string, rest: string, base: nat)
    requires AllDigits(d, base) && d != "" && (rest == "" || !IsDigit(rest[0], base))
    ensures ReadsAs(Digits(d + rest, base), d, rest)
  {
    hide IsDigit;
    DigitRunOf(d, rest, base);
    assert (d + rest)[|d|..] == rest;
    assert forall i :: 0 <= i < |d| ==> (d + rest)[i] == d[i];
  }

  /** The white space and the sign that may come first. */
  ghost predicate Lead(lead: string) {
    exists n: nat :: n <= |lead| && Spaces(lead, n) && (lead[n..] == "" || lead[n..] == "+" || lead[n..] == "-")
  }

  ghost predicate Spaces(s: string, n: nat) {
    n <= |s| && forall i :: 0 <= i < n ==> s[i] == ' ' || '\t' <= s[i] <= '\r'
  }

  lemma {:induction false} SkipsSpaces(s: string, n: nat)
    requires Spaces(s, n) && (n == |s| || !(s[n] == ' ' || '\t' <= s[n] <= '\r'))
    ensures SkipSpace(s) == s[n..]
    decreases n
  {
    if n > 0 {
      assert forall i :: 0 <= i < |s| - 1 ==> s[1..][i] == s[i + 1];
      SkipsSpaces(s[1..], n - 1);
      assert s[1..][n - 1..] == s[n..];
    } else {
      assert s[0..] == s;
    }
  }

  /** What is left of the text when white space and sign are gone decides. */
  lemma {:induction false} LeadSkipped(lead: string, u: string)
    requires Lead(lead) && u != "" && IsDigit(u[0], 10)
    ensures Strtol(lead + u) ==
      if |u| >= 3 && u[0] == '0' && (u[1] == 'x' || u[1] == 'X') && IsDigit(u[2], 16) then Digits(u[2..], 16)
      else if u[0] == '0' then Digits(u, 8) else Digits(u, 10)
  {
    hide Digits;
    var n: nat :| n <= |lead| && Spaces(lead, n) && (lead[n..] == "" || lead[n..] == "+" || lead[n..] == "-");
    var s := lead + u;
    assert s[n..] == lead[n..] + u;
    assert s[n] == s[n..][0];
    SkipsSpaces(s, n);
    if lead[n..] != "" {
      assert s[n..][1..] == u;
    } else {
      assert s[n..] == u;
    }
  }

  /** Hexadecimal after 0x. */
  lemma {:induction false} HexRead(lead: string, x: char, d: string, rest: string)
    requires Lead(lead) && (x == 'x' || x == 'X')
    requires d != "" && AllDigits(d, 16) && (rest == "" || !IsDigit(rest[0], 16))
    ensures ReadsAs(Strtol(lead + (['0', x] + (d + rest))), d, rest)
  {
    hide Digits, Strtol;
    var u := ['0', x] + (d + rest);
    LeadSkipped(lead, u);
    assert u[2..] == d + rest && u[2] == d[0];
    DigitsRead(d, rest, 16);
  }

  /** Octal after 0, else decimal; signed or not, an integer is read to its end. */
  lemma {:induction false} IntegerRead(lead: string, d: string, rest: string)
    requires Lead(lead) && d != ""
    requires var base := if d[0] == '0' then 8 else 10; AllDigits(d, base) && (rest == "" || !IsDigit(rest[0], base))
    requires d == "0" ==> rest == "" || (rest[0] != 'x' && rest[0] != 'X')
    ensures ReadsAs(Strtol(lead + (d + rest)), d, rest)
  {
    hide Digits, Strtol;
    var u := d + rest;
    LeadSkipped(lead, u);
    assert u[0] == d[0] && (|d| > 1 ==> u[1] == d[1]) && (|d| == 1 && rest != "" ==> u[1] == rest[0]);
    DigitsRead(d, rest, if d[0] == '0' then 8 else 10);
  }

  // ----- round trip

  lemma {:induction false} PrintStarts(t: Term)
    requires GoodTerm(t)
    ensures PrintTerm(t) != "" && !IsBlank(PrintTerm(t)[0])
  {
    match t.body {
      case Pred(k, args) => WordPlain(k);
      case _ =>
    }
  }

  lemma {:induction false} AndStarts(a: And)
    requires GoodAnd(a)
    ensures PrintAnd(a) != "" && !IsBlank(PrintAnd(a)[0])
  {
    PrintStarts(a.term);
  }

  lemma {:induction false} ExprStarts(e: Expr)
    requires GoodExpr(e)
    ensures PrintExpr(e) != "" && !IsBlank(PrintExpr(e)[0])
  {
    AndStarts(e.sub);
  }

  function BodyText(t: Term): string
    requires GoodTerm(t)
  {
    PrintTerm(t.(neg := false))
  }

  lemma {:induction false} BodyStarts(t: Term)
    requires GoodTerm(t)
    ensures BodyText(t) != "" && BodyText(t)[0] != '!' && !IsBlank(BodyText(t)[0])
    ensures PrintTerm(t) == (if t.neg then "!" else "") + BodyText(t)
  {
    hide PrintExpr, Word;
    if t.body.Pred? {
      WordPlain(t.body.kw);
    }
  }

  lemma {:induction false} NegationRead(t: Term, rest: string)
    requires GoodTerm(t)
    ensures SkipBlanks(PrintTerm(t) + rest) == PrintTerm(t) + rest
    ensures Negations(PrintTerm(t) + rest, false) == (t.neg, BodyText(t) + rest)
  {
    hide PrintTerm, BodyText;
    BodyStarts(t);
    if t.neg {
      assert (PrintTerm(t) + rest)[1..] == BodyText(t) + rest;
    } else {
      assert PrintTerm(t) == BodyText(t);
    }
  }

  lemma {:induction false} PredRead(neg: bool, k: Kw, args: seq<string>, rest: string, size: nat)
    requires |args| == ArgCount(k) && forall i :: 0 <= i < |args| ==> |args[i]| + 1 < size
    ensures ParsePred(neg, Word(k) + Args.Written(args) + rest, size) == Ok(Term(neg, Pred(k, args)), rest)
  {
    hide Word, Lookup, Args.MakeArgs;
    var w := Args.Written(args) + rest;
    var t := Word(k) + Args.Written(args) + rest;
    assert t == Word(k) + w;
    assert w[0] == '(';
    LookupFinds(k, w);
    assert t[|Word(k)|..] == w;
    assert forall a :: a in args ==> |a| + 1 < size;
    Args.ArgsRoundTrip(args, rest, ArgCount(k), ArgCount(k), size);
  }

  lemma {:induction false} LeafRead(t: Term, rest: string, d: int, size: nat)
    requires (t.body.False? || t.body.True?) && d > 0 && Follows(rest)
    ensures ParseBody(t.neg, BodyText(t) + rest, d, size) == Ok(t, rest)
  {
    hide Strtol, ParsePred;
    assert BodyText(t) == if t.body.False? then "0" else "1";
    DigitNumber(BodyText(t), rest);
  }

  lemma {:induction false} PredTermRead(t: Term, rest: string, d: int, size: nat)
    requires GoodTerm(t) && FitsTerm(t, size) && t.body.Pred? && d > 0
    ensures ParseBody(t.neg, BodyText(t) + rest, d, size) == Ok(t, rest)
  {
    hide Strtol, ParsePred, Word;
    var k, args := t.body.kw, t.body.args;
    var u := BodyText(t) + rest;
    assert u == Word(k) + Args.Written(args) + rest;
    WordPlain(k);
    assert u[0] == Word(k)[0];
    NotNumber(u);
    PredRead(t.neg, k, args, rest, size);
  }

  lemma {:induction false} ParenTermRead(t: Term, rest: string, d: int, size: nat)
    requires GoodTerm(t) && FitsTerm(t, size) && t.body.Paren? && TermDepth(t) <= d
    ensures ParseBody(t.neg, BodyText(t) + rest, d, size) == Ok(t, SkipBlanks(rest))
    decreases t, 0
  {
    hide Strtol, ParsePred, ParseExpr, PrintExpr;
    var u := BodyText(t) + rest;
    var v := PrintExpr(t.body.expr) + (")" + rest);
    assert u == "(" + v && u[1..] == v;
    NotNumber(u);
    ParenRead(t.body.expr, rest, d, size);
    assert (")" + rest)[1..] == rest;
  }

  /** What is left after a term, up to blanks. */
  lemma {:induction false} TermRoundTrip(t: Term, rest: string, d: int, size: nat)
    requires GoodTerm(t) && FitsTerm(t, size) && TermDepth(t) <= d && Follows(rest)
    ensures var p := ParseTerm(PrintTerm(t) + rest, d, size);
      p.Ok? && p.value == t && SkipBlanks(p.rest) == SkipBlanks(rest)
    decreases t, 1
  {
    hide ParseBody, Negations, PrintTerm, BodyText;
    NegationRead(t, rest);
    PrintStarts(t);
    TwiceSkipped(rest);
    if t.body.Paren? {
      ParenTermRead(t, rest, d, size);
    } else if t.body.Pred? {
      PredTermRead(t, rest, d, size);
    } else {
      LeafRead(t, rest, d, size);
    }
  }

  lemma {:induction false} TwiceSkipped(s: string)
    ensures SkipBlanks(SkipBlanks(s)) == SkipBlanks(s)
  {
  }

  lemma {:induction false} ParenRead(e: Expr, rest: string, d: int, size: nat)
    requires GoodExpr(e) && FitsExpr(e, size) && 1 + ExprDepth(e) <= d
    ensures var v := PrintExpr(e) + (")" + rest);
      SkipBlanks(v) == v && ParseExpr(v, d - 1, size) == Ok(e, ")" + rest)
    decreases e, 1
  {
    ExprStarts(e);
    ExprRoundTrip(e, ")" + rest, d - 1, size);
  }

  lemma Joint(op: string, x: string)
    requires op == "&&" || op == "||"
    requires x == "" || !IsBlank(x[0])
    ensures SkipBlanks(" " + op + " " + x) == op + " " + x
    ensures (op + " " + x)[2..] == " " + x && SkipBlanks(" " + x) == x
  {
    assert (" " + op + " " + x)[1..] == op + " " + x;
    assert (" " + x)[1..] == x;
  }

  lemma {:induction false} AndRoundTrip(a: And, rest: string, d: int, size: nat)
    requires GoodAnd(a) && FitsAnd(a, size) && AndDepth(a) <= d && Follows(rest) && !Starts(SkipBlanks(rest), '&')
    ensures ParseAnd(PrintAnd(a) + rest, d, size) == Ok(a, SkipBlanks(rest))
    decreases a, 0
  {
    hide ParseTerm, SkipBlanks, PrintTerm;
    AndStarts(a);
    match a
    case OneTerm(t) =>
      TermRoundTrip(t, rest, d - 1, size);
    case AndThen(t, more) =>
      AndStarts(more);
      var x := PrintAnd(more) + rest;
      var tail := " " + "&&" + " " + x;
      assert PrintAnd(a) + rest == PrintTerm(t) + tail;
      TermRoundTrip(t, tail, d - 1, size);
      Joint("&&", x);
      AndRoundTrip(more, rest, d - 1, size);
  }

  /** Printing and parsing gives the tree back and takes all the text, given the budget. */
  lemma {:induction false} ExprRoundTrip(e: Expr, rest: string, d: int, size: nat)
    requires GoodExpr(e) && FitsExpr(e, size) && ExprDepth(e) <= d && Follows(rest)
    requires !Starts(SkipBlanks(rest), '&') && !Starts(SkipBlanks(rest), '|')
    ensures ParseExpr(PrintExpr(e) + rest, d, size) == Ok(e, SkipBlanks(rest))
    decreases e, 0
  {
    hide ParseAnd, SkipBlanks, PrintAnd;
    ExprStarts(e);
    match e
    case OneAnd(a) =>
      AndRoundTrip(a, rest, d - 1, size);
      TwiceSkipped(rest);
    case OrElse(a, more) =>
      ExprStarts(more);
      var x := PrintExpr(more) + rest;
      var tail := " " + "||" + " " + x;
      assert PrintExpr(e) + rest == PrintAnd(a) + tail;
      Joint("||", x);
      AndRoundTrip(a, tail, d - 1, size);
      TwiceSkipped(tail);
      ExprRoundTrip(more, rest, d - 1, size);
  }

  /** A printed condition parses to itself, all of it, exactly when the budget covers its depth; else not at all. */
  lemma {:induction false} PrintedParsesIff(e: Expr, d: int, size: nat)
    requires GoodExpr(e) && FitsExpr(e, size)
    ensures ExprDepth(e) <= d ==> ParseExpr(PrintExpr(e), d, size) == Ok(e, "")
    ensures ExprDepth(e) > d ==> !ParseExpr(PrintExpr(e), d, size).Ok?
  {
    hide ParseExpr, PrintExpr, ExprDepth;
    var big := if d > ExprDepth(e) then d else ExprDepth(e);
    ExprRoundTrip(e, "", big, size);
    assert PrintExpr(e) + "" == PrintExpr(e);
    if ParseExpr(PrintExpr(e), d, size).Ok? {
      ExprBudget(PrintExpr(e), d, big, size);
    }
  }

  /** So the verdict on a printed condition is its meaning, or an error if it is too deep. */
  lemma {:induction false} PrintedVerdict(e: Expr, size: nat, env: Env)
    requires GoodExpr(e) && FitsExpr(e, size)
    ensures Condition(PrintExpr(e), size, env) == if ExprDepth(e) <= MAX_CFG_RECURSION then MeaningExpr(e, env) else Err
  {
    hide ParseExpr, PrintExpr, ExprDepth, MeaningExpr;
    PrintedParsesIff(e, MAX_CFG_RECURSION, size);
    ExprStarts(e);
  }

  predicate AllYes(a: And, env: Env) {
    MeaningTerm(a.term, env) == Yes && (a.AndThen? ==> AllYes(a.more, env))
  }

  predicate SomeYes(e: Expr, env: Env) {
    AllYes(e.sub, env) || (e.OrElse? && SomeYes(e.rest, env))
  }

  ghost predicate NoError(env: Env) { forall k, args :: env(k, args) != Err }

  /** Where no predicate fails, nothing fails, and && and || are conjunction and disjunction. */
  lemma {:induction false} TotalTerm(t: Term, env: Env)
    requires NoError(env)
    ensures MeaningTerm(t, env) != Err
    decreases t
  {
    if t.body.Paren? {
      TotalExpr(t.body.expr, env);
    }
  }

  lemma {:induction false} TotalAnd(a: And, env: Env)
    requires NoError(env)
    ensures MeaningAnd(a, env) == if AllYes(a, env) then Yes else No
    decreases a
  {
    TotalTerm(a.term, env);
    if a.AndThen? {
      TotalAnd(a.more, env);
    }
  }

  lemma {:induction false} TotalExpr(e: Expr, env: Env)
    requires NoError(env)
    ensures MeaningExpr(e, env) == if SomeYes(e, env) then Yes else No
    decreases e
  {
    TotalAnd(e.sub, env);
    if e.OrElse? {
      TotalExpr(e.rest, env);
    }
  }

  // ----- what a condition says, told with truth values

  /** What a predicate says when it says yes or no. */
  type Asked = (Kw, seq<string>) -> bool

  predicate HoldsTerm(t: Term, ask: Asked) {
    (match t.body
     case False => false
     case True => true
     case Pred(k, args) => ask(k, args)
     case Paren(e) => HoldsExpr(e, ask)) != t.neg
  }

  predicate HoldsAnd(a: And, ask: Asked) { HoldsTerm(a.term, ask) && (a.AndThen? ==> HoldsAnd(a.more, ask)) }

  predicate HoldsExpr(e: Expr, ask: Asked) { HoldsAnd(e.sub, ask) || (e.OrElse? && HoldsExpr(e.rest, ask)) }

  ghost predicate Agrees(env: Env, ask: Asked) {
    forall k, args :: Answer(k, args, env) == if ask(k, args) then Yes else No
  }

  /** Where every predicate has an answer, a condition is the boolean formula that it looks like. */
  lemma {:induction false} TermHolds(t: Term, env: Env, ask: Asked)
    requires Agrees(env, ask)
    ensures MeaningTerm(t, env) == if HoldsTerm(t, ask) then Yes else No
    decreases t
  {
    if t.body.Paren? {
      ExprHolds(t.body.expr, env, ask);
    }
  }

  lemma {:induction false} AndHolds(a: And, env: Env, ask: Asked)
    requires Agrees(env, ask)
    ensures MeaningAnd(a, env) == if HoldsAnd(a, ask) then Yes else No
    decreases a
  {
    TermHolds(a.term, env, ask);
    if a.AndThen? {
      AndHolds(a.more, env, ask);
    }
  }

  lemma {:induction false} ExprHolds(e: Expr, env: Env, ask: Asked)
    requires Agrees(env, ask)
    ensures MeaningExpr(e, env) == if HoldsExpr(e, ask) then Yes else No
    decreases e
  {
    AndHolds(e.sub, env, ask);
    if e.OrElse? {
      ExprHolds(e.rest, env, ask);
    }
  }

  /** The string predicates need no environment, and an error is never negated into an answer. */
  lemma TermSays(neg: bool, x: string, y: string, env: Env, body: Body)
    ensures MeaningTerm(Term(neg, Pred(StrEq, [x, y])), env) == if (x == y) != neg then Yes else No
    ensures MeaningTerm(Term(neg, Pred(StrNeq, [x, y])), env) == if (x != y) != neg then Yes else No
    ensures MeaningTerm(Term(neg, Pred(StrStr, [x + y + x, y])), env) == if neg then No else Yes
    ensures MeaningTerm(Term(true, body), env) == Err <==> MeaningTerm(Term(false, body), env) == Err
    ensures MeaningTerm(Term(true, body), env) == Yes <==> MeaningTerm(Term(false, body), env) == No
  {
    var s := x + y + x;
    assert StandsAt(s, y, |x|);
  }

  function TermsOf(a: And): (ts: seq<Term>)
    ensures |ts| >= 1
  {
    [a.term] + if a.AndThen? then TermsOf(a.more) else []
  }

  function AndsOf(e: Expr): (subs: seq<And>)
    ensures |subs| >= 1
  {
    [e.sub] + if e.OrElse? then AndsOf(e.rest) else []
  }

  /** The i-th term is the first that is not true. */
  ghost predicate FirstNotYes(ts: seq<Term>, i: nat, env: Env) {
    i < |ts| && MeaningTerm(ts[i], env) != Yes && forall j :: 0 <= j < i ==> MeaningTerm(ts[j], env) == Yes
  }

  /** The i-th part is the first that is not false. */
  ghost predicate FirstNotNo(subs: seq<And>, i: nat, env: Env) {
    i < |subs| && MeaningAnd(subs[i], env) != No && forall j :: 0 <= j < i ==> MeaningAnd(subs[j], env) == No
  }

  /** A conjunction has the verdict of its first term that is not true, an error among them. */
  lemma {:induction false} AndStops(a: And, i: nat, env: Env)
    requires FirstNotYes(TermsOf(a), i, env)
    ensures MeaningAnd(a, env) == MeaningTerm(TermsOf(a)[i], env)
    decreases a
  {
    hide MeaningTerm;
    var ts := TermsOf(a);
    if i > 0 {
      var more := TermsOf(a.more);
      assert MeaningTerm(ts[0], env) == Yes;
      assert forall j :: 0 <= j < |more| ==> more[j] == ts[j + 1];
      AndStops(a.more, i - 1, env);
    }
  }

  /** And it is true when all its terms are. */
  lemma {:induction false} AndPasses(a: And, env: Env)
    requires forall i :: 0 <= i < |TermsOf(a)| ==> MeaningTerm(TermsOf(a)[i], env) == Yes
    ensures MeaningAnd(a, env) == Yes
    decreases a
  {
    hide MeaningTerm;
    var ts := TermsOf(a);
    assert MeaningTerm(ts[0], env) == Yes;
    if a.AndThen? {
      var more := TermsOf(a.more);
      assert forall j :: 0 <= j < |more| ==> more[j] == ts[j + 1];
      AndPasses(a.more, env);
    }
  }

  /** A disjunction has the verdict of its first part that is not false. */
  lemma {:induction false} ExprStops(e: Expr, i: nat, env: Env)
    requires FirstNotNo(AndsOf(e), i, env)
    ensures MeaningExpr(e, env) == MeaningAnd(AndsOf(e)[i], env)
    decreases e
  {
    hide MeaningAnd;
    var subs := AndsOf(e);
    if i > 0 {
      var rest := AndsOf(e.rest);
      assert MeaningAnd(subs[0], env) == No;
      assert forall j :: 0 <= j < |rest| ==> rest[j] == subs[j + 1];
      ExprStops(e.rest, i - 1, env);
    }
  }

  /** And it is false when all its parts are. */
  lemma {:induction false} ExprFails(e: Expr, env: Env)
    requires forall i :: 0 <= i < |AndsOf(e)| ==> MeaningAnd(AndsOf(e)[i], env) == No
    ensures MeaningExpr(e, env) == No
    decreases e
  {
    hide MeaningAnd;
    var subs := AndsOf(e);
    assert MeaningAnd(subs[0], env) == No;
    if e.OrElse? {
      var rest := AndsOf(e.rest);
      assert forall j :: 0 <= j < |rest| ==> rest[j] == subs[j + 1];
      ExprFails(e.rest, env);
    }
  }

  // ----- the words

  /** The words that are predicates, as they are written. */
  lemma {:induction false} KeywordTable(rest: string)
    requires rest != "" && rest[0] == '('
    ensures Lookup("defined" + rest) == Some(Defined) && Lookup("feature" + rest) == Some(Feature)
    ensures Lookup("streq" + rest) == Some(StrEq) && Lookup("strneq" + rest) == Some(StrNeq)
    ensures Lookup("strstr" + rest) == Some(StrStr) && Lookup("enabled" + rest) == Some(Enabled)
    ensures Lookup("version_atleast" + rest) == Some(VersionAtLeast)
    ensures Lookup("version_before" + rest) == Some(VersionBefore)
    ensures Lookup("openssl_version_atleast" + rest) == Some(OsslAtLeast)
    ensures Lookup("openssl_version_before" + rest) == Some(OsslBefore)
    ensures Lookup("ssllib_name_startswith" + rest) == Some(SslLibName)
  {
    hide Lookup;
    forall k: Kw ensures Lookup(Word(k) + rest) == Some(k) {
      LookupFinds(k, rest);
    }
    assert Word(Defined) + rest == "defined" + rest && Word(Feature) + rest == "feature" + rest;
    assert Word(StrEq) + rest == "streq" + rest && Word(StrNeq) + rest == "strneq" + rest;
    assert Word(StrStr) + rest == "strstr" + rest && Word(Enabled) + rest == "enabled" + rest;
    assert Word(VersionAtLeast) + rest == "version_atleast" + rest;
    assert Word(VersionBefore) + rest == "version_before" + rest;
    assert Word(OsslAtLeast) + rest == "openssl_version_atleast" + rest;
    assert Word(OsslBefore) + rest == "openssl_version_before" + rest;
    assert Word(SslLibName) + rest == "ssllib_name_startswith" + rest;
  }

  /** The comparisons take two arguments and the others one; any other number is an error. */
  lemma {:induction false} PredReadIff(neg: bool, k: Kw, args: seq<string>, rest: string, size: nat)
    requires args != [] && forall a :: a in args ==> |a| + 1 < size
    ensures ParsePred(neg, Word(k) + Args.Written(args) + rest, size).Ok? <==>
      |args| == if k in {StrEq, StrNeq, StrStr} then 2 else 1
  {
    hide Word, Lookup, Args.MakeArgs;
    var w := Args.Written(args) + rest;
    var t := Word(k) + Args.Written(args) + rest;
    assert t == Word(k) + w;
    assert w[0] == '(';
    LookupFinds(k, w);
    assert t[|Word(k)|..] == w;
    Args.ArgsReadIff(args, rest, ArgCount(k), ArgCount(k), size);
  }
}
