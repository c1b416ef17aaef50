/**
 * ACL conditions: words joined by "or" into suites of possibly negated ACLs,
 * and their execution in three-valued logic, where MISS says that the answer
 * may change with more data. The values are bit patterns, so that & and | are
 * conjunction and disjunction.
 */
module AclCond {
  type Res = bv2
  const FAIL: Res := 0
  const MISS: Res := 1
  const PASS: Res := 3

  predicate Proper(r: Res) { r != 2 }

  /** 3 >> r */
  function Neg(r: Res): Res { if r == FAIL then PASS else if r == MISS then MISS else FAIL }

  // ----- samples

  /** One attempt to fetch a sample for an expression. */
  datatype Fetch = NoSample(mayChange: bool) | Sample(matches: bool, notLast: bool, mayChange: bool)

  /** The fetches that an expression would make, in order. */
  type Expr = seq<Fetch>
  type Acl = seq<Expr>

  datatype Term = Term(acl: Acl, neg: bool)
  type Suite = seq<Term>

  function Unsure(mayChange: bool, final: bool): Res { if mayChange && !final then MISS else FAIL }

  function Matched(b: bool): Res { if b then PASS else FAIL }

  // ----- the three-valued meaning, with nothing skipped

  /** Values are fetched as long as more are announced. */
  function FullExpr(fs: Expr, final: bool): Res {
    if fs == [] then FAIL
    else
      match fs[0]
      case NoSample(mayChange) => Unsure(mayChange, final)
      case Sample(m, notLast, mayChange) =>
        Matched(m) | if notLast then FullExpr(fs[1..], final) else Unsure(mayChange, final)
  }

  function FullAcl(acl: Acl, final: bool): Res {
    if acl == [] then FAIL else FullExpr(acl[0], final) | FullAcl(acl[1..], final)
  }

  function FullTerm(t: Term, final: bool): Res {
    if t.neg then Neg(FullAcl(t.acl, final)) else FullAcl(t.acl, final)
  }

  function FullSuite(s: Suite, final: bool): Res {
    if s == [] then PASS else FullTerm(s[0], final) & FullSuite(s[1..], final)
  }

  function FullCond(c: seq<Suite>, final: bool): Res {
    if c == [] then FAIL else FullSuite(c[0], final) | FullCond(c[1..], final)
  }

  // ----- what is executed: a suite stops at the first term that does not pass

  function ExecSuite(s: Suite, final: bool): Res {
    if s == [] then PASS
    else if FullTerm(s[0], final) != PASS then FullTerm(s[0], final)
    else ExecSuite(s[1..], final)
  }

  function ExecCond(c: seq<Suite>, final: bool): Res {
    if c == [] then FAIL else ExecSuite(c[0], final) | ExecCond(c[1..], final)
  }

  lemma PassAbsorbs(r: Res)
    ensures PASS | r == PASS && r | PASS == PASS && FAIL | r == r && r | FAIL == r && PASS & r == r
  {
  }

  /** One expression: fetch until the last value or a match. */
  method RunExpr(fs: Expr, final: bool, before: Res) returns (res: Res)
    requires before != PASS && Proper(before)
    ensures res == before | FullExpr(fs, final)
  {
    var at := 0;
    res := before;
    assert fs[0..] == fs;
    while at < |fs|
      invariant at <= |fs| && res != PASS && Proper(res) && res | FullExpr(fs[at..], final) == before | FullExpr(fs,
        final)
    {
      assert fs[at..][0] == fs[at] && fs[at..][1..] == fs[at + 1..];
      match fs[at] {
        case NoSample(mayChange) =>
          if mayChange && !final {
            res := res | MISS;
          }
          return;
        case Sample(m, notLast, mayChange) =>
          ghost var res0 := res;
          res := res | Matched(m);
          if res == PASS {
            PassAbsorbs(if notLast then FullExpr(fs[at + 1..], final) else Unsure(mayChange, final));
            return;
          }
          if !notLast {
            if mayChange && !final {
              res := res | MISS;
            }
            return;
          }
      }
      at := at + 1;
    }
  }

  /** One ACL: the first expression to match decides. */
  method RunAcl(acl: Acl, final: bool) returns (res: Res)
    ensures res == FullAcl(acl, final)
  {
    hide FullExpr;
    var i := 0;
    res := FAIL;
    AclProper(acl, final);
    assert acl[0..] == acl;
    while i < |acl|
      invariant i <= |acl| && res != PASS && Proper(res) && res | FullAcl(acl[i..], final) == FullAcl(acl, final)
    {
      assert acl[i..][0] == acl[i] && acl[i..][1..] == acl[i + 1..];
      ExprProper(acl[i], final);
      res := RunExpr(acl[i], final, res);
      if res == PASS {
        PassAbsorbs(FullAcl(acl[i + 1..], final));
        return;
      }
      i := i + 1;
    }
  }

  method RunSuite(s: Suite, final: bool) returns (res: Res)
    ensures res == ExecSuite(s, final)
  {
    hide FullAcl;
    var i := 0;
    res := PASS;
    assert s[0..] == s;
    while i < |s|
      invariant i <= |s| && res == PASS && ExecSuite(s[i..], final) == ExecSuite(s, final)
    {
      assert s[i..][0] == s[i] && s[i..][1..] == s[i + 1..];
      var aclRes := RunAcl(s[i].acl, final);
      if s[i].neg {
        aclRes := Neg(aclRes);
      }
      res := res & aclRes;
      if res != PASS {
        return;
      }
      i := i + 1;
    }
  }

  method RunCond(c: seq<Suite>, final: bool) returns (res: Res)
    ensures res == ExecCond(c, final)
  {
    hide ExecSuite;
    var i := 0;
    res := FAIL;
    assert c[0..] == c;
    while i < |c|
      invariant i <= |c| && res | ExecCond(c[i..], final) == ExecCond(c, final)
    {
      assert c[i..][0] == c[i] && c[i..][1..] == c[i + 1..];
      var suiteRes := RunSuite(c[i], final);
      res := res | suiteRes;
      if res == PASS {
        PassAbsorbs(ExecCond(c[i + 1..], final));
        return;
      }
      i := i + 1;
    }
  }

  // ----- values

  lemma {:induction false} ExprProper(fs: Expr, final: bool)
    ensures Proper(FullExpr(fs, final)) && (final ==> FullExpr(fs, final) != MISS)
  {
    if fs != [] && fs[0].Sample? && fs[0].notLast {
      ExprProper(fs[1..], final);
    }
  }

  lemma {:induction false} AclProper(acl: Acl, final: bool)
    ensures Proper(FullAcl(acl, final)) && (final ==> FullAcl(acl, final) != MISS)
  {
    if acl != [] {
      ExprProper(acl[0], final);
      AclProper(acl[1..], final);
    }
  }

  lemma {:induction false} SuiteProper(s: Suite, final: bool)
    ensures Proper(FullSuite(s, final)) && Proper(ExecSuite(s, final))
    ensures final ==> FullSuite(s, final) != MISS && ExecSuite(s, final) != MISS
  {
    if s != [] {
      AclProper(s[0].acl, final);
      SuiteProper(s[1..], final);
    }
  }

  lemma {:induction false} SuiteAgrees(s: Suite, final: bool)
    ensures ExecSuite(s, final) == PASS <==> FullSuite(s, final) == PASS
    ensures ExecSuite(s, final) == FAIL ==> FullSuite(s, final) == FAIL
  {
    if s != [] {
      AclProper(s[0].acl, final);
      SuiteProper(s[1..], final);
      SuiteAgrees(s[1..], final);
    }
  }

  /**
   * Short-circuit execution passes exactly when full evaluation does, fails
   * only when it does, and never misses on complete data.
   */
  lemma {:induction false} ExecAgrees(c: seq<Suite>, final: bool)
    ensures Proper(ExecCond(c, final)) && Proper(FullCond(c, final))
    ensures ExecCond(c, final) == PASS <==> FullCond(c, final) == PASS
    ensures ExecCond(c, final) == FAIL ==> FullCond(c, final) == FAIL
    ensures final ==> ExecCond(c, final) != MISS
    ensures final ==> ExecCond(c, final) == FullCond(c, final)
  {
    if c != [] {
      SuiteProper(c[0], final);
      SuiteAgrees(c[0], final);
      ExecAgrees(c[1..], final);
    }
  }

  // ----- definite answers survive

  /** A later state of the same data: what is definite stays, what is not becomes anything. */
  predicate Resolves(t: Term, t': Term, final: bool, final': bool) {
    t'.neg == t.neg && (FullAcl(t.acl, final) != MISS ==> FullAcl(t'.acl, final') == FullAcl(t.acl, final))
  }

  predicate SuiteResolves(s: Suite, s': Suite, final: bool, final': bool) {
    |s'| == |s| && forall i :: 0 <= i < |s| ==> Resolves(s[i], s'[i], final, final')
  }

  predicate CondResolves(c: seq<Suite>, c': seq<Suite>, final: bool, final': bool) {
    |c'| == |c| && forall i :: 0 <= i < |c| ==> SuiteResolves(c[i], c'[i], final, final')
  }

  lemma {:induction false} SuiteSurvives(s: Suite, s': Suite, final: bool, final': bool)
    requires SuiteResolves(s, s', final, final') && ExecSuite(s, final) != MISS
    ensures ExecSuite(s', final') == ExecSuite(s, final)
  {
    if s != [] {
      assert Resolves(s[0], s'[0], final, final');
      if FullTerm(s[0], final) == PASS {
        SuiteSurvives(s[1..], s'[1..], final, final');
      }
    }
  }

  /** A PASS or a FAIL given on incomplete data is not taken back. */
  lemma {:induction false} AnswerSurvives(c: seq<Suite>, c': seq<Suite>, final: bool, final': bool)
    requires CondResolves(c, c', final, final') && ExecCond(c, final) != MISS
    ensures ExecCond(c', final') == ExecCond(c, final)
  {
    if c != [] {
      SuiteProper(c[0], final);
      ExecAgrees(c[1..], final);
      assert SuiteResolves(c[0], c'[0], final, final');
      if ExecSuite(c[0], final) != MISS {
        SuiteSurvives(c[0], c'[0], final, final');
      }
      if ExecCond(c[1..], final) != MISS {
        AnswerSurvives(c[1..], c'[1..], final, final');
      }
    }
  }
}
