/**
 * Conditions of .if and .elif lines: terms joined by && and ||, with negation,
 * parentheses, integers, and predicates with quoted arguments. Every recursive
 * call of the parser spends one unit of a depth budget.
 */
module CfgCond {
  import opened Options
  import Args = ArgList

  const MAX_CFG_RECURSION: int := 1024

  datatype Kw =
    | Defined | Feature | StrEq | StrNeq | StrStr | VersionAtLeast | VersionBefore
    | OsslAtLeast | OsslBefore | SslLibName | Enabled

  function Word(k: Kw): string {
    match k
    case Defined => "defined"
    case Feature => "feature"
    case StrEq => "streq"
    case StrNeq => "strneq"
    case StrStr => "strstr"
    case VersionAtLeast => "version_atleast"
    case VersionBefore => "version_before"
    case OsslAtLeast => "openssl_version_atleast"
    case OsslBefore => "openssl_version_before"
    case SslLibName => "ssllib_name_startswith"
    case Enabled => "enabled"
  }

  /** All the arguments of a predicate are mandatory strings. */
  function ArgCount(k: Kw): nat { if k.StrEq? || k.StrNeq? || k.StrStr? then 2 else 1 }

  datatype Body = False | True | Pred(kw: Kw, args: seq<string>) | Paren(expr: Expr)
  datatype Term = Term(neg: bool, body: Body)
  datatype And = OneTerm(term: Term) | AndThen(term: Term, more: And)
  datatype Expr = OneAnd(sub: And) | OrElse(sub: And, rest: Expr)

  // ----- reading

  predicate IsBlank(c: char) { c == ' ' || c == '\t' }

  function SkipBlanks(s: string): (r: string)
    ensures |r| <= |s| && (r != "" ==> !IsBlank(r[0]))
  {
    if s != "" && IsBlank(s[0]) then SkipBlanks(s[1..]) else s
  }

  function SkipSpace(s: string): string {
    if s != "" && (s[0] == ' ' || '\t' <= s[0] <= '\r') then SkipSpace(s[1..]) else s
  }

  predicate IsDigit(c: char, base: nat) {
    if base == 8 then '0' <= c <= '7'
    else if base == 10 then '0' <= c <= '9'
    else '0' <= c <= '9' || 'a' <= c <= 'f' || 'A' <= c <= 'F'
  }

  function DigitRun(s: string, base: nat): (n: nat)
    ensures n <= |s|
  {
    if s != "" && IsDigit(s[0], base) then 1 + DigitRun(s[1..], base) else 0
  }

  datatype Number = Number(found: bool, nonzero: bool, rest: string)

  function Digits(s: string, base: nat): Number {
    var n := DigitRun(s, base);
    Number(n > 0, exists i :: 0 <= i < n && s[i] != '0', s[n..])
  }

  /** strtol with base 0: white space, a sign, then 0x and hexadecimal, 0 and octal, or decimal digits. */
  function Strtol(s: string): Number {
    var t := SkipSpace(s);
    var u := if t != "" && (t[0] == '+' || t[0] == '-') then t[1..] else t;
    if |u| >= 3 && u[0] == '0' && (u[1] == 'x' || u[1] == 'X') && IsDigit(u[2], 16) then Digits(u[2..], 16)
    else if u != "" && u[0] == '0' then Digits(u, 8)
    else Digits(u, 10)
  }

  /** The length of the word up to a blank or a parenthesis. */
  function WordLen(s: string): (n: nat)
    ensures n <= |s|
  {
    if s == "" || s[0] == ' ' || s[0] == '(' then 0 else 1 + WordLen(s[1..])
  }

  const KEYWORDS: seq<Kw> :=
    [Defined, Feature, StrEq, StrNeq, StrStr, VersionAtLeast, VersionBefore, OsslAtLeast, OsslBefore, SslLibName,
      Enabled]

  function LookupIn(w: string, ks: seq<Kw>): Option<Kw> {
    if ks == [] then None else if Word(ks[0]) == w then Some(ks[0]) else LookupIn(w, ks[1..])
  }

  function Lookup(s: string): Option<Kw> { LookupIn(s[..WordLen(s)], KEYWORDS) }

  /** An odd number of ! negates; blanks may follow each. */
  function Negations(s: string, neg: bool): (r: (bool, string))
    decreases |s|
  {
    if s != "" && s[0] == '!' then Negations(SkipBlanks(s[1..]), !neg) else (neg, s)
  }

  /** Nothing is the result 0 of the parser, Error its result -1. */
  datatype Parsed<T> = Ok(value: T, rest: string) | Nothing | Error

  function ParseTerm(s: string, d: int, size: nat): Parsed<Term>
    decreases if d < 0 then 0 else d, 1
  {
    var start := SkipBlanks(s);
    if start == "" then Nothing
    else if d <= 0 then Error
    else
      var (neg, t) := Negations(start, false);
      ParseBody(neg, t, d, size)
  }

  /** An integer, a parenthesised expression or a predicate. */
  function ParseBody(neg: bool, t: string, d: int, size: nat): Parsed<Term>
    requires d > 0
    decreases d, 0
  {
    var num := Strtol(t);
    if num.found then Ok(Term(neg, if num.nonzero then True else False), num.rest)
    else if t != "" && t[0] == '(' then
      match ParseExpr(SkipBlanks(t[1..]), d - 1, size)
      case Error => Error
      case Nothing => Error
      case Ok(e, r) =>
        var r' := SkipBlanks(r);
        if r' != "" && r'[0] == ')' then Ok(Term(neg, Paren(e)), SkipBlanks(r'[1..])) else Error
    else ParsePred(neg, t, size)
  }

  function ParsePred(neg: bool, t: string, size: nat): Parsed<Term> {
    match Lookup(t)
    case None => Error
    case Some(k) =>
      if |Word(k)| > |t| then Error
      else
        match Args.MakeArgs(t[|Word(k)|..], ArgCount(k), ArgCount(k), size)
        case Fail => Error
        case Ok(args, r) => Ok(Term(neg, Pred(k, args)), r)
  }

  predicate Starts(s: string, c: char) { |s| >= 2 && s[0] == c && s[1] == c }

  function ParseAnd(s: string, d: int, size: nat): Parsed<And>
    decreases if d < 0 then 0 else d, 1
  {
    if s == "" then Nothing
    else if d <= 0 then Error
    else
      match ParseTerm(s, d - 1, size)
      case Error => Error
      case Nothing => Error
      case Ok(t, r) =>
        var r' := SkipBlanks(r);
        if !Starts(r', '&') then Ok(OneTerm(t), r')
        else
          match ParseAnd(SkipBlanks(r'[2..]), d - 1, size)
          case Error => Error
          case Nothing => Nothing
          case Ok(a, r2) => Ok(AndThen(t, a), r2)
  }

  function ParseExpr(s: string, d: int, size: nat): Parsed<Expr>
    decreases if d < 0 then 0 else d, 1
  {
    if s == "" then Nothing
    else if d <= 0 then Error
    else
      match ParseAnd(s, d - 1, size)
      case Error => Error
      case Nothing => Error
      case Ok(a, r) =>
        var r' := SkipBlanks(r);
        if !Starts(r', '|') then Ok(OneAnd(a), r')
        else
          match ParseExpr(SkipBlanks(r'[2..]), d - 1, size)
          case Error => Error
          case Nothing => Nothing
          case Ok(e, r2) => Ok(OrElse(a, e), r2)
  }

  // ----- evaluating

  datatype Verdict = Err | No | Yes

  /** What the environment, the build and the libraries answer to a predicate. */
  type Env = (Kw, seq<string>) -> Verdict

  predicate StandsAt(s: string, t: string, i: nat) { i + |t| <= |s| && s[i..i + |t|] == t }

  predicate Contains(s: string, t: string) {
    exists i :: 0 <= i <= |s| && StandsAt(s, t, i)
  }

  /** Comparisons of strings look at their arguments only. */
  function Answer(k: Kw, args: seq<string>, env: Env): Verdict {
    if |args| == 2 && k.StrEq? then (if args[0] == args[1] then Yes else No)
    else if |args| == 2 && k.StrNeq? then (if args[0] != args[1] then Yes else No)
    else if |args| == 2 && k.StrStr? then (if Contains(args[0], args[1]) then Yes else No)
    else env(k, args)
  }

  function Negate(v: Verdict): Verdict { match v case Err => Err case No => Yes case Yes => No }

  function MeaningTerm(t: Term, env: Env): Verdict {
    var v := match t.body
      case False => No
      case True => Yes
      case Pred(k, args) => Answer(k, args, env)
      case Paren(e) => MeaningExpr(e, env);
    if t.neg then Negate(v) else v
  }

  /** Left to right, stopping at the first term that is not true. */
  function MeaningAnd(a: And, env: Env): Verdict {
    match a
    case OneTerm(t) => MeaningTerm(t, env)
    case AndThen(t, more) => if MeaningTerm(t, env) == Yes then MeaningAnd(more, env) else MeaningTerm(t, env)
  }

  /** Left to right, stopping at the first part that is not false. */
  function MeaningExpr(e: Expr, env: Env): Verdict {
    match e
    case OneAnd(a) => MeaningAnd(a, env)
    case OrElse(a, rest) => if MeaningAnd(a, env) == No then MeaningExpr(rest, env) else MeaningAnd(a, env)
  }

  method EvalTerm(t: Term, env: Env) returns (v: Verdict)
    ensures v == MeaningTerm(t, env)
    decreases t
  {
    match t.body {
      case False => v := No;
      case True => v := Yes;
      case Pred(k, args) => v := Answer(k, args, env);
      case Paren(e) => v := EvalExpr(e, env);
    }
    if v != Err && t.neg {
      v := if v == Yes then No else Yes;
    }
  }

  method EvalAnd(a: And, env: Env) returns (v: Verdict)
    ensures v == MeaningAnd(a, env)
    decreases a
  {
    var at := a;
    v := EvalTerm(at.term, env);
    while v == Yes && at.AndThen?
      invariant at == a || at < a
      invariant v == MeaningTerm(at.term, env) && MeaningAnd(at, env) == MeaningAnd(a, env)
      decreases at
    {
      at := at.more;
      v := EvalTerm(at.term, env);
    }
  }

  method EvalExpr(e: Expr, env: Env) returns (v: Verdict)
    ensures v == MeaningExpr(e, env)
    decreases e
  {
    var at := e;
    v := EvalAnd(at.sub, env);
    while v == No && at.OrElse?
      invariant at == e || at < e
      invariant v == MeaningAnd(at.sub, env) && MeaningExpr(at, env) == MeaningExpr(e, env)
      decreases at
    {
      at := at.rest;
      v := EvalAnd(at.sub, env);
    }
  }

  /** A whole condition; an empty one is false. */
  method EvalCondition(text: string, size: nat, env: Env) returns (v: Verdict)
    ensures v == Condition(text, size, env)
  {
    if text == "" {
      return No;
    }
    match ParseExpr(text, MAX_CFG_RECURSION, size) {
      case Error => return Err;
      case Nothing => return Err;
      case Ok(e, r) =>
        if SkipBlanks(r) != "" {
          return Err;
        }
        v := EvalExpr(e, env);
    }
  }

  function Condition(text: string, size: nat, env: Env): Verdict {
    if text == "" then No
    else
      match ParseExpr(text, MAX_CFG_RECURSION, size)
      case Error => Err
      case Nothing => Err
      case Ok(e, r) => if SkipBlanks(r) != "" then Err else MeaningExpr(e, env)
  }
}
