/** How PowerShell reads a source script. */
module PowerShell {
  import opened Options
  import opened ShellExport

  // ---------- single quotes ----------

  /** PowerShell takes typographic quotes for single quotes. */
  predicate Curly(c: char) {
    '\U{2018}' <= c <= '\U{201B}'
  }

  predicate QuoteLike(t: Token) {
    t.Ch? && (t.c == '\'' || Curly(t.c))
  }

  /** After the opening quote: two quotes in a row stand for the second of them, and one ends the string. */
  function InQuotes(t: Script): (r: Option<(string, Script)>)
    ensures r.Some? ==> |r.value.1| < |t|
    decreases |t|
  {
    if t == [] || t[0].Expansion? then None
    else if !QuoteLike(t[0]) then
      match InQuotes(t[1..])
      case None => None
      case Some((s, rest)) => Some(([t[0].c] + s, rest))
    else if |t| > 1 && QuoteLike(t[1]) then
      match InQuotes(t[2..])
      case None => None
      case Some((s, rest)) => Some(([t[1].c] + s, rest))
    else Some(("", t[1..]))
  }

  function Quotes(t: Script): nat {
    if t == [] then 0 else (if QuoteLike(t[0]) then 1 else 0) + Quotes(t[1..])
  }

  function Curlies(s: string): nat {
    if s == "" then 0 else (if Curly(s[0]) then 1 else 0) + Curlies(s[1..])
  }

  /** Every quote that is read, but for the last, shares a character of the result with another one. */
  lemma {:induction false} QuotesPaired(t: Script)
    requires InQuotes(t).Some?
    ensures var (s, rest) := InQuotes(t).value;
            Quotes(t) - Quotes(rest) == 2 * (|t| - |rest| - |s| - 1) + 1
    decreases |t|
  {
    if !QuoteLike(t[0]) {
      QuotesPaired(t[1..]);
    } else if |t| > 1 && QuoteLike(t[1]) {
      assert t[1..][1..] == t[2..];
      QuotesPaired(t[2..]);
    }
  }

  /** A doubled value, its closing quote, and what follows. */
  function Closed(value: string, rest: Script): Script {
    Chars(Doubled(value) + "'") + rest
  }

  lemma ClosedCons(value: string, rest: Script)
    ensures value == "" ==> Closed(value, rest) == [Ch('\'')] + rest
    ensures value != "" && value[0] == '\'' ==> Closed(value, rest) == [Ch('\''), Ch('\'')] + Closed(value[1..], rest)
    ensures value != "" && value[0] != '\'' ==> Closed(value, rest) == [Ch(value[0])] + Closed(value[1..], rest)
  {
    if value == "" {
      assert Doubled(value) + "'" == "'";
    } else {
      var more := Doubled(value[1..]) + "'";
      if value[0] == '\'' {
        assert Doubled(value) + "'" == "''" + more;
        CharsConcat("''", more);
        assert Chars("''") == [Ch('\''), Ch('\'')];
      } else {
        assert Doubled(value) + "'" == [value[0]] + more;
        CharsConcat([value[0]], more);
        assert Chars([value[0]]) == [Ch(value[0])];
      }
    }
  }

  lemma {:induction false} ClosedCount(value: string, rest: Script)
    ensures var t := Closed(value, rest);
            Quotes(t) - Quotes(rest) == 2 * (|t| - |rest| - |value| - 1) + 1 + Curlies(value)
  {
    ClosedCons(value, rest);
    var t := Closed(value, rest);
    hide Closed;
    if value == "" {
      assert t[1..] == rest;
    } else {
      var more := Closed(value[1..], rest);
      ClosedCount(value[1..], rest);
      if value[0] == '\'' {
        assert t[1..] == [Ch('\'')] + more && t[1..][1..] == more;
      } else {
        assert t[1..] == more;
      }
    }
  }

  lemma {:induction false} ClosedRead(value: string, rest: Script)
    requires Curlies(value) == 0 && (rest == [] || !QuoteLike(rest[0]))
    ensures InQuotes(Closed(value, rest)) == Some((value, rest))
  {
    ClosedCons(value, rest);
    var t := Closed(value, rest);
    hide Closed;
    if value == "" {
      assert t[1..] == rest && (|t| > 1 ==> t[1] == rest[0]);
    } else {
      var more := Closed(value[1..], rest);
      ClosedRead(value[1..], rest);
      assert [value[0]] + value[1..] == value;
      if value[0] == '\'' {
        assert t[2..] == more;
      } else {
        assert t[1..] == more;
      }
    }
  }

  /** A doubled value reads back exactly if it holds no typographic quote. */
  lemma ReadsBack(value: string, rest: Script)
    requires rest == [] || !QuoteLike(rest[0])
    ensures InQuotes(Closed(value, rest)) == Some((value, rest)) <==> Curlies(value) == 0
  {
    hide InQuotes, Quotes, Closed;
    ClosedCount(value, rest);
    if InQuotes(Closed(value, rest)) == Some((value, rest)) {
      QuotesPaired(Closed(value, rest));
    }
    if Curlies(value) == 0 {
      ClosedRead(value, rest);
    }
  }

  // ---------- statements ----------

  function Strip(prefix: string, t: Script): (r: Option<Script>)
    ensures r.Some? ==> |r.value| == |t| - |prefix|
  {
    if Chars(prefix) <= t then Some(t[|prefix|..]) else None
  }

  /** The new value of a variable, or None to remove it; then the rest of the script. */
  function ReadValue(eval: string -> string, t: Script): (r: Option<(Option<string>, Script)>)
    ensures r.Some? ==> |r.value.1| <= |t|
  {
    if t == [] then None
    else if t[0].Expansion? then Some((Some(eval(t[0].text)), t[1..]))
    else if t[0].c == '\'' then
      match InQuotes(t[1..])
      case None => None
      case Some((value, rest)) => Some((Some(value), rest))
    else
      match Strip("$null", t)
      case None => None
      case Some(rest) => Some((None, rest))
  }

  datatype Statement = Statement(name: string, value: Option<string>)

  function ReadStatement(eval: string -> string, t: Script): (r: Option<(Statement, Script)>)
    ensures r.Some? ==> |r.value.1| < |t|
  {
    match Strip(SETTER, t)
    case None => None
    case Some(a) =>
      match InQuotes(a)
      case None => None
      case Some((name, b)) =>
        match Strip(",", b)
        case None => None
        case Some(c) =>
          match ReadValue(eval, c)
          case None => None
          case Some((value, d)) =>
            match Strip(TARGET, d)
            case None => None
            case Some(rest) => Some((Statement(name, value), rest))
  }

  function Execute(vars: Variables, s: Statement): Variables {
    if s.value.None? then vars - {s.name} else vars[s.name := s.value.value]
  }

  function Source(eval: string -> string, vars: Variables, t: Script): Option<Variables>
    decreases |t|
  {
    if t == [] then Some(vars)
    else
      match ReadStatement(eval, t)
      case None => None
      case Some((s, rest)) =>
        if rest == [] then Some(Execute(vars, s))
        else if rest[0] == Ch('\n') then Source(eval, Execute(vars, s), rest[1..])
        else None
  }

  // ---------- reading undoes writing ----------

  /** The value is one that doubling protects. */
  predicate Readable(e: Env) {
    e.unset || e.expression || Curlies(e.value) == 0
  }

  function Meant(eval: string -> string, e: Env): Statement {
    Statement(e.name, if e.unset then None else Some(Value(eval, e)))
  }

  lemma StripBack(prefix: string, t: Script)
    ensures Strip(prefix, Chars(prefix) + t) == Some(t)
  {
  }

  lemma {:induction false} NameIsPlain(name: string)
    requires NameChars(name)
    ensures Doubled(name) == name && Curlies(name) == 0
  {
    if name != "" {
      NameIsPlain(name[1..]);
      assert name == [name[0]] + name[1..];
    }
  }

  /** The value part reads back exactly if it is readable. */
  lemma ValueRead(eval: string -> string, e: Env, rest: Script)
    requires rest != [] && rest[0] == Ch(',')
    ensures ReadValue(eval, PwshAssigned(e) + rest) == Some((Meant(eval, e).value, rest)) <==> Readable(e)
  {
    hide InQuotes, Strip, Doubled, Curlies;
    var t := PwshAssigned(e) + rest;
    if e.unset {
      StripBack("$null", rest);
      assert t[0] == Ch('$');
    } else if e.expression {
      assert t[0] == Expansion(e.value) && t[1..] == rest;
    } else {
      Opened(e.value, rest);
      ReadsBack(e.value, rest);
      hide Closed, Chars;
    }
  }

  lemma Opened(value: string, rest: Script)
    ensures var t := Chars("'" + Doubled(value) + "'") + rest;
            t != [] && t[0] == Ch('\'') && t[1..] == Closed(value, rest)
  {
    hide Doubled;
    CharsConcat("'", Doubled(value) + "'");
    assert "'" + (Doubled(value) + "'") == "'" + Doubled(value) + "'";
    assert Chars("'") == [Ch('\'')];
  }

  /** The name is read as it was written, and the value comes next. */
  lemma NameRead(e: Env, rest: Script)
    requires GoodName(e.name)
    ensures var t := PwshLine(e) + rest;
            Strip(SETTER, t).Some? && InQuotes(Strip(SETTER, t).value) ==
              Some((e.name, Chars(",") + (PwshAssigned(e) + (Chars(TARGET) + rest))))
  {
    hide InQuotes, PwshAssigned;
    var after := Chars(",") + (PwshAssigned(e) + (Chars(TARGET) + rest));
    NameIsPlain(e.name);
    assert SETTER + e.name + "'," == SETTER + ((e.name + "'") + ",");
    CharsConcat(SETTER, (e.name + "'") + ",");
    CharsConcat(e.name + "'", ",");
    assert PwshLine(e) + rest == Chars(SETTER) + Closed(e.name, after);
    StripBack(SETTER, Closed(e.name, after));
    ClosedRead(e.name, after);
  }

  /** A line reads back as what it was written for exactly if its value holds no typographic quote. */
  lemma StatementRead(eval: string -> string, e: Env, rest: Script)
    requires GoodName(e.name) && Ends(rest)
    ensures ReadStatement(eval, PwshLine(e) + rest) == Some((Meant(eval, e), rest)) <==> Readable(e)
  {
    var end := Chars(TARGET) + rest;
    NameRead(e, rest);
    StripBack(",", PwshAssigned(e) + end);
    StripBack(TARGET, rest);
    assert TARGET[0] == ',';
    assert end[0] == Ch(',');
    hide InQuotes, PwshLine, PwshAssigned, ReadValue, Readable;
    ValueRead(eval, e, end);
    if ReadStatement(eval, PwshLine(e) + rest) == Some((Meant(eval, e), rest)) {
      var d := ReadValue(eval, PwshAssigned(e) + end).value.1;
      assert Chars(TARGET) <= d && d[|TARGET|..] == rest;
      assert d == Chars(TARGET) + rest;
    }
  }

  /** PowerShell makes exactly the assignments the block was written for, if no value holds a typographic quote. */
  lemma {:induction false} SourcingUndoesFormatting(eval: string -> string, vars: Variables, envs: seq<Env>)
    requires forall i :: 0 <= i < |envs| ==> GoodName(envs[i].name) && Readable(envs[i])
    ensures Source(eval, vars, Joined(Lines(Pwsh, envs))) == Some(AppliedAll(eval, vars, envs))
    decreases |envs|
  {
    hide *;
    if envs == [] {
      NothingRead(eval, vars);
    } else {
      var e, others := envs[0], envs[1..];
      BlockOf(Pwsh, envs);
      PwshBlock(e);
      var rest := if others == [] then [] else [Ch('\n')] + Joined(Lines(Pwsh, others));
      EndsHere();
      StatementRead(eval, e, rest);
      OneMore(eval, vars, e, rest);
      if others != [] {
        SourcingUndoesFormatting(eval, Applied(eval, vars, e), others);
      }
      AppliedFirst(eval, vars, envs);
    }
  }

  lemma NothingRead(eval: string -> string, vars: Variables)
    ensures Source(eval, vars, Joined(Lines(Pwsh, []))) == Some(AppliedAll(eval, vars, []))
  {
  }

  lemma PwshBlock(e: Env)
    ensures Line(Pwsh, e) == PwshLine(e)
  {
  }

  lemma EndsHere()
    ensures Ends([])
  {
  }

  lemma OneMore(eval: string -> string, vars: Variables, e: Env, rest: Script)
    requires ReadStatement(eval, PwshLine(e) + rest) == Some((Meant(eval, e), rest)) && Ends(rest)
    ensures var after := Applied(eval, vars, e);
            Source(eval, vars, PwshLine(e) + rest) == if rest == [] then Some(after) else Source(eval, after, rest[1..])
  {
    hide ReadStatement, PwshLine;
  }
}
