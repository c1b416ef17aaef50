/**
 * Argument lists: "(" words separated by commas ")", where a word may be quoted
 * with ' or " and characters may be escaped with a backslash. All arguments are
 * strings; `size` is the room for one argument, terminator included. Texts hold
 * no NUL: they stand for C strings.
 */
module ArgList {
  datatype Scanned = Scanned(text: string, rest: string, bad: bool)

  function Unescaped(c: char): string {
    if c == '\\' || c == ' ' || c == '"' || c == '\'' then [c]
    else if c == 'r' then "\r"
    else if c == 'n' then "\n"
    else if c == 't' then "\t"
    else ""
  }

  /** One argument, from the state of the quotes and what is already collected. */
  function Scan(s: string, squote: bool, dquote: bool, out: string, size: nat): (r: Scanned)
    ensures |r.rest| <= |s|
    decreases |s|
  {
    if s == "" || |out| + 1 >= size then Scanned(out, s, false)
    else if s[0] == '"' && !squote then Scan(s[1..], squote, !dquote, out, size)
    else if s[0] == '\'' && !dquote then Scan(s[1..], !squote, dquote, out, size)
    else if s[0] == '\\' && !squote then
      if |s| == 1 then Scanned(out, s, true)
      else if Unescaped(s[1]) != "" then Scan(s[2..], squote, dquote, out + Unescaped(s[1]), size)
      else Scan(s[1..], squote, dquote, out + [s[0]], size)
    else if !squote && !dquote && (s[0] == ',' || s[0] == ')') then Scanned(out, s, false)
    else Scan(s[1..], squote, dquote, out + [s[0]], size)
  }

  datatype Result<T> = Ok(value: T, rest: string) | Fail

  /** The remaining arguments, after those already there. */
  function More(s: string, nbarg: nat, got: seq<string>, size: nat): Result<seq<string>>
    decreases |s|
  {
    var sc := Scan(s, false, false, "", size);
    if sc.bad || (sc.rest != "" && sc.rest[0] != ',' && sc.rest[0] != ')') then Fail
    else
      var got' := got + [sc.text];
      if sc.rest == "" || sc.rest[0] == ')' || |got'| >= nbarg then Ok(got', sc.rest)
      else More(sc.rest[1..], nbarg, got', size)
  }

  function Close(r: Result<seq<string>>, minArg: nat, empty: bool, text: string): Result<seq<string>> {
    if r.Fail? || |r.value| < minArg then Fail
    else if empty then Ok(r.value, text)
    else if r.rest != "" && r.rest[0] == ')' then Ok(r.value, r.rest[1..])
    else Fail
  }

  /** Without a parenthesis there is one empty argument if one is mandatory, and nothing is taken from the text. */
  function MakeArgs(text: string, nbarg: nat, minArg: nat, size: nat): Result<seq<string>> {
    var empty := text == "" || text[0] != '(';
    var r := if nbarg == 0 || (empty && minArg == 0) then Ok([], if empty then "" else text[1..])
             else if empty then Ok([""], "")
             else More(text[1..], nbarg, [], size);
    Close(r, minArg, empty, text)
  }

  // ----- the loops

  /** One round of the loop: what the next character does. */
  lemma ScanNext(s: string, squote: bool, dquote: bool, out: string, size: nat)
    requires s != "" && |out| + 1 < size
    ensures Scan(s, squote, dquote, out, size) ==
      if s[0] == '"' && !squote then Scan(s[1..], squote, !dquote, out, size)
      else if s[0] == '\'' && !dquote then Scan(s[1..], !squote, dquote, out, size)
      else if s[0] == '\\' && !squote && |s| == 1 then Scanned(out, s, true)
      else if s[0] == '\\' && !squote && Unescaped(s[1]) != "" then
        Scan(s[2..], squote, dquote, out + Unescaped(s[1]), size)
      else if s[0] != '\\' && !squote && !dquote && (s[0] == ',' || s[0] == ')') then Scanned(out, s, false)
      else Scan(s[1..], squote, dquote, out + [s[0]], size)
  {
  }

  lemma ScanEnd(s: string, squote: bool, dquote: bool, out: string, size: nat)
    requires s == "" || |out| + 1 >= size
    ensures Scan(s, squote, dquote, out, size) == Scanned(out, s, false)
  {
  }

  method ScanArg(text: string, start: nat, size: nat) returns (out: string, at: nat, bad: bool)
    requires start <= |text|
    ensures start <= at <= |text| && Scanned(out, text[at..], bad) == Scan(text[start..], false, false, "", size)
  {
    hide Scan, Unescaped;
    var squote, dquote := false, false;
    out, at, bad := "", start, false;
    ghost var goal := Scan(text[start..], false, false, "", size);
    while at < |text| && |out| + 1 < size
      invariant start <= at <= |text| && !bad && Scan(text[at..], squote, dquote, out, size) == goal
    {
      ghost var s := text[at..];
      assert s[0] == text[at] && s[1..] == text[at + 1..];
      ScanNext(s, squote, dquote, out, size);
      if text[at] == '"' && !squote {
        dquote := !dquote;
        at := at + 1;
        continue;
      } else if text[at] == '\'' && !dquote {
        squote := !squote;
        at := at + 1;
        continue;
      } else if text[at] == '\\' && !squote {
        if at + 1 == |text| {
          bad := true;
          return;
        }
        assert s[1] == text[at + 1] && s[2..] == text[at + 2..];
        if Unescaped(text[at + 1]) != "" {
          at := at + 1;
          out := out + Unescaped(text[at]);
        } else {
          out := out + [text[at]];
        }
        at := at + 1;
      } else {
        if !squote && !dquote && (text[at] == ',' || text[at] == ')') {
          break;
        }
        out := out + [text[at]];
        at := at + 1;
      }
    }
    if at == |text| || |out| + 1 >= size {
      ScanEnd(text[at..], squote, dquote, out, size);
    }
  }

  method MakeArgList(text: string, nbarg: nat, minArg: nat, size: nat) returns (r: Result<seq<string>>)
    ensures r == MakeArgs(text, nbarg, minArg, size)
  {
    hide Scan;
    var empty := text == "" || text[0] != '(';
    var at := if empty then |text| else 1;
    var args: seq<string> := [];
    if nbarg > 0 && !(empty && minArg == 0) {
      ghost var goal := More(text[at..], nbarg, [], size);
      if empty {
        args := [""];
      } else {
        while |args| < nbarg
          invariant at <= |text| && |args| <= nbarg
          invariant |args| < nbarg ==> More(text[at..], nbarg, args, size) == goal
          invariant |args| == nbarg ==> goal == Ok(args, text[at..])
          decreases nbarg - |args|
        {
          var out, at', bad := ScanArg(text, at, size);
          if bad || (at' < |text| && text[at'] != ',' && text[at'] != ')') {
            return Fail;
          }
          at := at';
          args := args + [out];
          if at == |text| || text[at] == ')' || |args| >= nbarg {
            assert goal == Ok(args, text[at..]);
            break;
          }
          assert text[at..][1..] == text[at + 1..];
          at := at + 1;
        }
      }
    }
    if |args| < minArg {
      return Fail;
    }
    if empty {
      return Ok(args, text);
    } else if at < |text| && text[at] == ')' {
      return Ok(args, text[at + 1..]);
    } else {
      return Fail;
    }
  }

  // ----- writing arguments so that they are read back

  function Escaped(s: string): string {
    if s == "" then ""
    else (if s[0] == '\\' || s[0] == '"' then ['\\', s[0]] else [s[0]]) + Escaped(s[1..])
  }

  function Quoted(s: string): string { "\"" + Escaped(s) + "\"" }

  function Joined(args: seq<string>): string
    requires args != []
  {
    if |args| == 1 then Quoted(args[0]) else Quoted(args[0]) + "," + Joined(args[1..])
  }

  function Written(args: seq<string>): string
    requires args != []
  {
    "(" + Joined(args) + ")"
  }

  lemma ScanPlain(c: char, s: string, out: string, size: nat)
    requires c != '\\' && c != '"' && |out| + 1 < size
    ensures Scan([c] + s, false, true, out, size) == Scan(s, false, true, out + [c], size)
  {
    var t := [c] + s;
    assert t[0] == c && t[1..] == s;
  }

  lemma ScanEscape(e: char, s: string, out: string, size: nat)
    requires Unescaped(e) != "" && |out| + 1 < size
    ensures Scan(['\\', e] + s, false, true, out, size) == Scan(s, false, true, out + Unescaped(e), size)
  {
    var t := ['\\', e] + s;
    assert t[0] == '\\' && t[1] == e && t[2..] == s;
  }

  /** Inside double quotes an escaped string is read character by character. */
  lemma {:induction false} ScanEscaped(s: string, rest: string, out: string, size: nat)
    requires |out| + |s| + 1 < size
    ensures Scan(Escaped(s) + "\"" + rest, false, true, out, size) == Scan("\"" + rest, false, true, out + s, size)
    decreases |s|
  {
    hide Scan;
    var t := Escaped(s) + "\"" + rest;
    if s == "" {
      assert t == "\"" + rest && out + s == out;
    } else {
      var tail := Escaped(s[1..]) + "\"" + rest;
      ScanEscaped(s[1..], rest, out + [s[0]], size);
      assert out + [s[0]] + s[1..] == out + s;
      if s[0] == '\\' || s[0] == '"' {
        assert t == ['\\', s[0]] + tail;
        ScanEscape(s[0], tail, out, size);
      } else {
        assert t == [s[0]] + tail;
        ScanPlain(s[0], tail, out, size);
      }
    }
  }

  lemma {:induction false} ScanQuoted(s: string, rest: string, size: nat)
    requires |s| + 1 < size && rest != "" && (rest[0] == ',' || rest[0] == ')')
    ensures Scan(Quoted(s) + rest, false, false, "", size) == Scanned(s, rest, false)
  {
    var t := Quoted(s) + rest;
    assert t[0] == '"' && t[1..] == Escaped(s) + "\"" + rest;
    ScanEscaped(s, rest, "", size);
    assert "" + s == s;
    var u := "\"" + rest;
    assert u[0] == '"' && u[1..] == rest;
  }

  lemma {:induction false} MoreJoined(args: seq<string>, rest: string, nbarg: nat, got: seq<string>, size: nat)
    requires args != [] && |got| + |args| <= nbarg && forall a :: a in args ==> |a| + 1 < size
    ensures More(Joined(args) + ")" + rest, nbarg, got, size) == Ok(got + args, ")" + rest)
    decreases |args|
  {
    hide Scan, Quoted;
    var t := Joined(args) + ")" + rest;
    if |args| == 1 {
      assert t == Quoted(args[0]) + (")" + rest);
      ScanQuoted(args[0], ")" + rest, size);
      assert got + [args[0]] == got + args;
    } else {
      var tail := "," + Joined(args[1..]) + ")" + rest;
      assert t == Quoted(args[0]) + tail;
      ScanQuoted(args[0], tail, size);
      assert tail[1..] == Joined(args[1..]) + ")" + rest;
      MoreJoined(args[1..], rest, nbarg, got + [args[0]], size);
      assert got + [args[0]] + args[1..] == got + args;
    }
  }

  /** Quoted arguments are read back exactly, and reading stops just after the closing parenthesis. */
  lemma {:induction false} ArgsRoundTrip(args: seq<string>, rest: string, nbarg: nat, minArg: nat, size: nat)
    requires args != [] && minArg <= |args| <= nbarg && forall a :: a in args ==> |a| + 1 < size
    ensures MakeArgs(Written(args) + rest, nbarg, minArg, size) == Ok(args, rest)
  {
    hide More;
    var text := Written(args) + rest;
    assert text[1..] == Joined(args) + ")" + rest;
    MoreJoined(args, rest, nbarg, [], size);
    assert [] + args == args;
    assert (")" + rest)[1..] == rest;
  }

  /** An argument never outgrows its room. */
  /** With more arguments than there is place for, reading stops at a comma. */
  lemma {:induction false} MoreTooMany(args: seq<string>, rest: string, nbarg: nat, got: seq<string>, size: nat)
    requires |got| < nbarg < |got| + |args| && forall a :: a in args ==> |a| + 1 < size
    ensures var r := More(Joined(args) + ")" + rest, nbarg, got, size); r.Ok? && r.rest != "" && r.rest[0] == ','
    decreases |args|
  {
    hide Scan, Quoted;
    var t, tail := Joined(args) + ")" + rest, "," + Joined(args[1..]) + ")" + rest;
    assert t == Quoted(args[0]) + tail;
    ScanQuoted(args[0], tail, size);
    if |got| + 1 < nbarg {
      assert tail[1..] == Joined(args[1..]) + ")" + rest;
      MoreTooMany(args[1..], rest, nbarg, got + [args[0]], size);
    }
  }

  /** Quoted arguments are taken exactly when their number is in bounds. */
  lemma {:induction false} ArgsReadIff(args: seq<string>, rest: string, nbarg: nat, minArg: nat, size: nat)
    requires args != [] && forall a :: a in args ==> |a| + 1 < size
    ensures MakeArgs(Written(args) + rest, nbarg, minArg, size).Ok? <==> minArg <= |args| <= nbarg
  {
    hide More;
    var text := Written(args) + rest;
    assert text[1..] == Joined(args) + ")" + rest;
    if nbarg == 0 {
      assert Joined(args)[0] == '"';
    } else if |args| > nbarg {
      MoreTooMany(args, rest, nbarg, [], size);
    } else {
      MoreJoined(args, rest, nbarg, [], size);
      assert [] + args == args;
    }
  }

  lemma {:induction false} ScanBound(s: string, squote: bool, dquote: bool, out: string, size: nat)
    requires |out| < size
    ensures |Scan(s, squote, dquote, out, size).text| < size
    decreases |s|
  {
    if s != "" && |out| + 1 < size {
      if s[0] == '"' && !squote {
        ScanBound(s[1..], squote, !dquote, out, size);
      } else if s[0] == '\'' && !dquote {
        ScanBound(s[1..], !squote, dquote, out, size);
      } else if s[0] == '\\' && !squote && |s| > 1 && Unescaped(s[1]) != "" {
        ScanBound(s[2..], squote, dquote, out + Unescaped(s[1]), size);
      } else if |s| > 1 || s[0] != '\\' || squote {
        ScanBound(s[1..], squote, dquote, out + [s[0]], size);
      }
    }
  }

  lemma ScanStops(s: string, out: string, size: nat)
    requires |out| + 1 >= size
    ensures Scan(s, false, true, out, size) == Scanned(out, s, false)
  {
  }

  /** A string that exactly fills the room leaves none for the closing quote. */
  lemma {:induction false} ScanFull(s: string, rest: string, out: string, size: nat)
    requires |out| + |s| + 1 == size
    ensures Scan(Escaped(s) + "\"" + rest, false, true, out, size) == Scanned(out + s, "\"" + rest, false)
    decreases |s|
  {
    hide Scan;
    var t := Escaped(s) + "\"" + rest;
    if s == "" {
      assert t == "\"" + rest && out + s == out;
      ScanStops(t, out, size);
    } else {
      var tail := Escaped(s[1..]) + "\"" + rest;
      ScanFull(s[1..], rest, out + [s[0]], size);
      assert out + [s[0]] + s[1..] == out + s;
      if s[0] == '\\' || s[0] == '"' {
        assert t == ['\\', s[0]] + tail;
        ScanEscape(s[0], tail, out, size);
      } else {
        assert t == [s[0]] + tail;
        ScanPlain(s[0], tail, out, size);
      }
    }
  }

  lemma {:induction false} MoreStarts(s: string, nbarg: nat, got: seq<string>, size: nat)
    requires More(s, nbarg, got, size).Ok?
    ensures var r := More(s, nbarg, got, size).value;
      |r| > |got| && r[..|got|] == got && r[|got|] == Scan(s, false, false, "", size).text
    decreases |s|
  {
    var sc := Scan(s, false, false, "", size);
    hide Scan;
    var got' := got + [sc.text];
    if sc.rest != "" && sc.rest[0] != ')' && |got'| < nbarg {
      MoreStarts(sc.rest[1..], nbarg, got', size);
      var r := More(sc.rest[1..], nbarg, got', size).value;
      assert r[..|got|] == r[..|got'|][..|got|] && r[|got|] == r[..|got'|][|got|];
    }
  }

  /** The ways to write a character between double quotes. */
  predicate Spells(s: string, c: char) {
    || (s == [c] && c != '\\' && c != '"')
    || (|s| == 2 && s[0] == '\\' && Escapes(s[1], c))
  }

  /** The letter after a backslash, and what the two stand for. */
  predicate Escapes(e: char, c: char) {
    || (e == c && c in {'\\', ' ', '"', '\''})
    || (e == 'r' && c == '\r') || (e == 'n' && c == '\n') || (e == 't' && c == '\t')
  }

  lemma EscapesIs(e: char)
    ensures forall c :: Escapes(e, c) <==> Unescaped(e) == [c]
    ensures Unescaped(e) == "" <==> e !in {'\\', ' ', '"', '\'', 'r', 'n', 't'}
  {
  }

  /** A backslash before any other character stands for itself, and that character is read on its own. */
  lemma UnknownEscape(c: char, rest: string, dquote: bool, out: string, size: nat)
    requires c !in {'\\', ' ', '"', '\'', 'r', 'n', 't'} && |out| + 1 < size
    ensures Scan(['\\', c] + rest, false, dquote, out, size) == Scan([c] + rest, false, dquote, out + "\\", size)
  {
    assert (['\\', c] + rest)[1..] == [c] + rest;
    EscapesIs(c);
  }

  /** Outside quotes everything but quotes, backslashes, commas and closing parentheses stands for itself. */
  lemma {:induction false} Unquoted(a: string, rest: string, out: string, size: nat)
    requires |out| + |a| + 1 <= size && forall i :: 0 <= i < |a| ==> a[i] !in {'"', '\'', '\\', ',', ')'}
    ensures Scan(a + rest, false, false, out, size) == Scan(rest, false, false, out + a, size)
    decreases |a|
  {
    if a == "" {
      assert a + rest == rest && out + a == out;
    } else {
      assert (a + rest)[0] == a[0] && (a + rest)[1..] == a[1..] + rest;
      Unquoted(a[1..], rest, out + [a[0]], size);
      assert out + [a[0]] + a[1..] == out + a;
    }
  }

  function Concat(pieces: seq<string>): string {
    if pieces == [] then "" else pieces[0] + Concat(pieces[1..])
  }

  /** However each character is written, plain or escaped, the argument is read back. */
  lemma {:induction false} AnySpelling(a: string, pieces: seq<string>, rest: string, out: string, size: nat)
    requires |pieces| == |a| && (forall i :: 0 <= i < |a| ==> Spells(pieces[i], a[i])) && |out| + |a| + 1 < size
    ensures Scan(Concat(pieces) + "\"" + rest, false, true, out, size) == Scan("\"" + rest, false, true, out + a, size)
    decreases |a|
  {
    hide Scan, Unescaped;
    var t := Concat(pieces) + "\"" + rest;
    if a == "" {
      assert t == "\"" + rest && out + a == out;
    } else {
      var tail := Concat(pieces[1..]) + "\"" + rest;
      assert Spells(pieces[0], a[0]);
      AnySpelling(a[1..], pieces[1..], rest, out + [a[0]], size);
      assert out + [a[0]] + a[1..] == out + a;
      assert t == pieces[0] + tail;
      if |pieces[0]| == 1 {
        ScanPlain(a[0], tail, out, size);
      } else {
        assert pieces[0] == ['\\', pieces[0][1]];
        EscapesIs(pieces[0][1]);
        ScanEscape(pieces[0][1], tail, out, size);
      }
    }
  }

  /** Between single quotes everything but a single quote stands for itself. */
  lemma {:induction false} SingleQuoted(a: string, rest: string, out: string, size: nat)
    requires '\'' !in a && |out| + |a| + 1 < size
    ensures Scan(a + "'" + rest, true, false, out, size) == Scan("'" + rest, true, false, out + a, size)
    decreases |a|
  {
    var t := a + "'" + rest;
    if a == "" {
      assert t == "'" + rest && out + a == out;
    } else {
      assert t[0] == a[0] && t[1..] == a[1..] + "'" + rest;
      SingleQuoted(a[1..], rest, out + [a[0]], size);
      assert out + [a[0]] + a[1..] == out + a;
    }
  }

  /** A quoted string without room for a quote and a terminator is cut short, or its closing quote is left behind. */
  lemma {:induction false} ScanTooLong(a: string, rest: string, size: nat)
    requires 1 <= size <= |a| + 1
    ensures var sc := Scan(Quoted(a) + rest, false, false, "", size);
      sc.text != a || (sc.rest != "" && sc.rest[0] == '"')
  {
    var t := Quoted(a) + rest;
    ScanBound(t, false, false, "", size);
    if |a| + 1 == size && size > 1 {
      assert t[0] == '"' && t[1..] == Escaped(a) + "\"" + rest;
      ScanFull(a, rest, "", size);
      assert "" + a == a;
    }
  }

  /** One quoted argument is read back exactly when it leaves room for a quote and a terminator. */
  lemma {:induction false} OneArgIff(a: string, rest: string, nbarg: nat, minArg: nat, size: nat)
    requires minArg <= 1 <= nbarg && size >= 1
    ensures MakeArgs(Written([a]) + rest, nbarg, minArg, size) == Ok([a], rest) <==> |a| + 1 < size
  {
    hide Scan, Quoted;
    if |a| + 1 < size {
      ArgsRoundTrip([a], rest, nbarg, minArg, size);
    } else {
      var t := Quoted(a) + (")" + rest);
      assert (Written([a]) + rest)[1..] == t;
      ScanTooLong(a, ")" + rest, size);
      if More(t, nbarg, [], size).Ok? {
        MoreStarts(t, nbarg, [], size);
      }
    }
  }

  /** One that exactly fills its room is refused. */
  lemma {:induction false} FullArgRefused(a: string, rest: string, nbarg: nat, minArg: nat)
    requires minArg <= 1 <= nbarg
    ensures MakeArgs(Written([a]) + rest, nbarg, minArg, |a| + 1) == Fail
  {
    hide Quoted;
    var t := Quoted(a) + (")" + rest);
    assert (Written([a]) + rest)[1..] == t;
    FullScan(a, ")" + rest);
    hide Scan;
  }

  lemma {:induction false} FullScan(a: string, rest: string)
    ensures var sc := Scan(Quoted(a) + rest, false, false, "", |a| + 1); sc.rest != "" && sc.rest[0] == '"'
  {
    var t := Quoted(a) + rest;
    if a != "" {
      assert t[0] == '"' && t[1..] == Escaped(a) + "\"" + rest;
      ScanFull(a, rest, "", |a| + 1);
    }
  }

  lemma WrittenAbc()
    ensures Written(["abc"]) + "" == "(\"abc\")"
  {
    assert "abc"[1..] == "bc" && "bc"[1..] == "c" && "c"[1..] == "";
    assert Escaped("c") == "c" && Escaped("bc") == "bc" && Escaped("abc") == "abc";
  }

  /** Three characters and room for four with the terminator. */
  lemma FullRoom()
    ensures MakeArgs("(\"abc\")", 1, 1, 4) == Fail && MakeArgs("(\"abc\")", 1, 1, 5) == Ok(["abc"], "")
  {
    hide MakeArgs, Scan, More;
    WrittenAbc();
    hide Written;
    FullArgRefused("abc", "", 1, 1);
    OneArgIff("abc", "", 1, 1, 5);
  }
}
