/** How a POSIX shell reads a source script: Shell Command Language (POSIX.1-2017), sections 2.2.1 and 2.2.2. */
module PosixShell {
  import opened Options
  import opened ShellExport

  // ---------- reading ----------

  /** Up to the closing quote everything is literal. */
  function InQuotes(t: Script): (r: Option<(string, Script)>)
    ensures r.Some? ==> |r.value.1| < |t|
  {
    if t == [] || t[0].Expansion? then None
    else if t[0].c == '\'' then Some(("", t[1..]))
    else match InQuotes(t[1..])
      case None => None
      case Some((s, rest)) => Some(([t[0].c] + s, rest))
  }

  function Prepend(s: string, r: Option<(string, Script)>): Option<(string, Script)> {
    match r
    case None => None
    case Some((word, rest)) => Some((s + word, rest))
  }

  /** A word up to the next unquoted blank or newline. Characters with a meaning of their own are not accepted unquoted. */
  function ReadWord(eval: string -> string, t: Script): (r: Option<(string, Script)>)
    ensures r.Some? ==> |r.value.1| <= |t|
    ensures r.Some? && t != [] && !(t[0].Ch? && t[0].c in " \t\n") ==> |r.value.1| < |t|
    decreases |t|
  {
    if t == [] then Some(("", []))
    else if t[0].Expansion? then Prepend(eval(t[0].text), ReadWord(eval, t[1..]))
    else if t[0].c in " \t\n" then Some(("", t))
    else if t[0].c == '\'' then
      (match InQuotes(t[1..])
       case None => None
       case Some((s, rest)) => Prepend(s, ReadWord(eval, rest)))
    else if t[0].c == '\\' then
      if |t| == 1 || t[1].Expansion? then None
      else if t[1].c == '\n' then ReadWord(eval, t[2..])
      else Prepend([t[1].c], ReadWord(eval, t[2..]))
    else if Ordinary(t[0].c) then Prepend([t[0].c], ReadWord(eval, t[1..]))
    else None
  }

  /** The words up to the next unquoted newline. */
  function ReadCommand(eval: string -> string, t: Script): (r: Option<(seq<string>, Script)>)
    ensures r.Some? ==> |r.value.1| <= |t| && (r.value.1 == [] || r.value.1[0] == Ch('\n'))
    decreases |t|
  {
    if t == [] || t[0] == Ch('\n') then Some(([], t))
    else if t[0].Ch? && t[0].c in " \t" then ReadCommand(eval, t[1..])
    else match ReadWord(eval, t)
      case None => None
      case Some((word, rest)) =>
        match ReadCommand(eval, rest)
        case None => None
        case Some((words, after)) => Some(([word] + words, after))
  }

  /** The name before the first equals sign, and the value after it. */
  function CutAtEquals(s: string): Option<(string, string)> {
    if s == "" then None
    else if s[0] == '=' then Some(("", s[1..]))
    else match CutAtEquals(s[1..])
      case None => None
      case Some((a, b)) => Some(([s[0]] + a, b))
  }

  function Execute(vars: Variables, words: seq<string>): Option<Variables> {
    if words == [] then Some(vars)
    else if |words| == 2 && words[0] == "unset" then Some(vars - {words[1]})
    else if |words| == 2 && words[0] == "export" && CutAtEquals(words[1]).Some? then
      var (name, value) := CutAtEquals(words[1]).value;
      Some(vars[name := value])
    else None
  }

  /** The variables after the whole script, if the shell understands it. */
  function Source(eval: string -> string, vars: Variables, t: Script): Option<Variables>
    decreases |t|
  {
    match ReadCommand(eval, t)
    case None => None
    case Some((words, rest)) =>
      match Execute(vars, words)
      case None => None
      case Some(after) => if rest == [] then Some(after) else Source(eval, after, rest[1..])
  }

  // ---------- reading undoes writing ----------

  /** What follows an opening quote: the rest of the quoted part, then the rest of the word. */
  function AfterQuote(eval: string -> string, t: Script): Option<(string, Script)> {
    match InQuotes(t)
    case None => None
    case Some((s, rest)) => Prepend(s, ReadWord(eval, rest))
  }

  lemma PrependTwice(a: string, b: string, r: Option<(string, Script)>)
    ensures Prepend(a, Prepend(b, r)) == Prepend(a + b, r)
  {
    if r.Some? {
      assert a + (b + r.value.0) == a + b + r.value.0;
    }
  }

  lemma PrependNothing(r: Option<(string, Script)>)
    ensures Prepend("", r) == r
  {
    if r.Some? {
      assert "" + r.value.0 == r.value.0;
    }
  }

  lemma AfterQuoteCons(eval: string -> string, c: char, t: Script)
    requires c != '\''
    ensures AfterQuote(eval, [Ch(c)] + t) == Prepend([c], AfterQuote(eval, t))
  {
    assert ([Ch(c)] + t)[1..] == t;
    if InQuotes(t).Some? {
      PrependTwice([c], InQuotes(t).value.0, ReadWord(eval, InQuotes(t).value.1));
    }
  }

  /** The closing quote, the escaped quote and the opening quote read as one quote. */
  lemma AfterQuoteEscaped(eval: string -> string, t: Script)
    ensures AfterQuote(eval, Chars("'\\''") + t) == Prepend("'", AfterQuote(eval, t))
  {
    var all := Chars("'\\''") + t;
    assert all == [Ch('\''), Ch('\\'), Ch('\''), Ch('\'')] + t;
    var escaped := all[1..];
    var quoted := escaped[2..];
    assert quoted == [Ch('\'')] + t && quoted[1..] == t;
    assert InQuotes(all) == Some(("", escaped));
    assert ReadWord(eval, quoted) == AfterQuote(eval, t);
    assert [escaped[1].c] == "'";
    assert ReadWord(eval, escaped) == Prepend("'", ReadWord(eval, quoted));
    PrependTwice("", "'", AfterQuote(eval, t));
    assert "" + "'" == "'";
  }

  lemma {:induction false} QuotedRead(eval: string -> string, value: string, rest: Script)
    ensures AfterQuote(eval, Chars(ReplaceAll(value, '\'', "'\\''") + "'") + rest) == Prepend(value, ReadWord(eval, rest))
    decreases |value|
  {
    var escaped := ReplaceAll(value, '\'', "'\\''");
    if value == "" {
      assert escaped + "'" == "'";
      var all := Chars("'") + rest;
      assert all[0] == Ch('\'') && all[1..] == rest;
    } else {
      var c, more := value[0], ReplaceAll(value[1..], '\'', "'\\''") + "'";
      QuotedRead(eval, value[1..], rest);
      var tail := Chars(more) + rest;
      PrependTwice([c], value[1..], ReadWord(eval, rest));
      assert [c] + value[1..] == value;
      if c == '\'' {
        assert escaped + "'" == "'\\''" + more;
        CharsConcat("'\\''", more);
        assert Chars(escaped + "'") + rest == Chars("'\\''") + tail;
        AfterQuoteEscaped(eval, tail);
      } else {
        assert escaped + "'" == [c] + more;
        CharsConcat([c], more);
        assert Chars([c]) == [Ch(c)];
        assert Chars(escaped + "'") + rest == [Ch(c)] + tail;
        AfterQuoteCons(eval, c, tail);
      }
    }
  }

  /** A word, whatever it holds, reads back as itself. */
  lemma QuotedWord(eval: string -> string, value: string, rest: Script)
    ensures ReadWord(eval, Chars(Quoted(value)) + rest) == Prepend(value, ReadWord(eval, rest))
  {
    var body := ReplaceAll(value, '\'', "'\\''") + "'";
    assert Quoted(value) == "'" + body;
    CharsConcat("'", body);
    var all := Chars(Quoted(value)) + rest;
    assert all[0] == Ch('\'') && all[1..] == Chars(body) + rest;
    QuotedRead(eval, value, rest);
  }

  lemma {:induction false} OrdinaryWord(eval: string -> string, s: string, rest: Script)
    requires forall i :: 0 <= i < |s| ==> Ordinary(s[i])
    ensures ReadWord(eval, Chars(s) + rest) == Prepend(s, ReadWord(eval, rest))
    decreases |s|
  {
    if s == "" {
      assert Chars(s) + rest == rest;
      PrependNothing(ReadWord(eval, rest));
    } else {
      CharsCons(s);
      var all := Chars(s) + rest;
      assert all[0] == Ch(s[0]) && all[1..] == Chars(s[1..]) + rest;
      OrdinaryWord(eval, s[1..], rest);
      PrependTwice([s[0]], s[1..], ReadWord(eval, rest));
      assert [s[0]] + s[1..] == s;
    }
  }

  /** A line of two words. */
  lemma TwoWords(eval: string -> string, first: string, t: Script, word: string, rest: Script)
    requires first != "" && first[0] !in " \t\n" && (forall i :: 0 <= i < |first| ==> Ordinary(first[i])) && Ends(rest)
    requires t != [] && t[0].Ch? && t[0].c !in " \t\n" && ReadWord(eval, t) == Some((word, rest))
    ensures ReadCommand(eval, Chars(first + " ") + t) == Some(([first, word], rest))
  {
    var after := [Ch(' ')] + t;
    SpaceAfter(first, t);
    OrdinaryWord(eval, first, after);
    assert first + "" == first;
    assert ReadWord(eval, after) == Some(("", after)) && after[1..] == t;
    hide ReadWord, Ordinary;
    assert ReadCommand(eval, rest) == Some(([], rest));
    OneWordMore(eval, t, word, rest, [], rest);
    assert [word] + [] == [word];
    assert ReadCommand(eval, after) == Some(([word], rest));
    OneWordMore(eval, Chars(first) + after, first, after, [word], rest);
    assert [first] + [word] == [first, word];
  }

  lemma SpaceAfter(first: string, t: Script)
    requires first != ""
    ensures Chars(first + " ") + t == Chars(first) + ([Ch(' ')] + t) && (Chars(first) + ([Ch(' ')] + t))[0] == Ch(first[0])
  {
    CharsConcat(first, " ");
    assert Chars(" ") == [Ch(' ')];
  }

  lemma OneWordMore(eval: string -> string, t: Script, word: string, after: Script, words: seq<string>, rest: Script)
    requires t != [] && !(t[0].Ch? && t[0].c in " \t\n")
    requires ReadWord(eval, t) == Some((word, after)) && ReadCommand(eval, after) == Some((words, rest))
    ensures ReadCommand(eval, t) == Some(([word] + words, rest))
  {
  }

  lemma {:induction false} NameCut(name: string, value: string)
    requires '=' !in name
    ensures CutAtEquals(name + "=" + value) == Some((name, value))
  {
    var s := name + "=" + value;
    if name == "" {
      assert s[1..] == value;
    } else {
      assert name[0] in name && name == [name[0]] + name[1..];
      NameCut(name[1..], value);
      assert s[0] == name[0] && s[1..] == name[1..] + "=" + value;
    }
  }

  function Words(eval: string -> string, e: Env): seq<string> {
    if e.unset then ["unset", e.name] else ["export", e.name + "=" + Value(eval, e)]
  }

  lemma WordsExecuted(eval: string -> string, vars: Variables, e: Env)
    requires GoodName(e.name)
    ensures Execute(vars, Words(eval, e)) == Some(Applied(eval, vars, e))
  {
    if !e.unset {
      NameCut(e.name, Value(eval, e));
    }
  }

  lemma NameRead(eval: string -> string, name: string, rest: Script)
    requires GoodName(name)
    ensures ReadWord(eval, Chars(name) + rest) == Prepend(name, ReadWord(eval, rest))
    ensures ReadWord(eval, Chars(name + "=") + rest) == Prepend(name + "=", ReadWord(eval, rest))
    ensures Chars(name)[0] == Ch(name[0]) && Chars(name + "=")[0] == Ch(name[0]) && name[0] !in " \t\n"
  {
    OrdinaryWord(eval, name, rest);
    OrdinaryWord(eval, name + "=", rest);
  }

  /** The word after export: a name, an equals sign, and a value in quotes of one kind or the other. */
  lemma AssignmentRead(eval: string -> string, e: Env, rest: Script)
    requires GoodName(e.name) && !e.unset && Ends(rest)
    ensures ReadWord(eval, Chars(e.name + "=") + (Assigned(e) + rest)) == Some((e.name + "=" + Value(eval, e), rest))
  {
    var value := if e.expression then [Expansion(e.value)] else Chars(Quoted(e.value));
    NameRead(eval, e.name, value + rest);
    assert ReadWord(eval, rest) == Some(("", rest));
    if e.expression {
      assert (value + rest)[1..] == rest;
    } else {
      QuotedWord(eval, e.value, rest);
    }
    assert Value(eval, e) + "" == Value(eval, e);
  }

  lemma LineRead(eval: string -> string, e: Env, rest: Script)
    requires GoodName(e.name) && Ends(rest)
    ensures ReadCommand(eval, UnixLine(e) + rest) == Some((Words(eval, e), rest))
  {
    if e.unset {
      UnsetRead(eval, e, rest);
    } else {
      ExportRead(eval, e, rest);
    }
  }

  lemma UnsetRead(eval: string -> string, e: Env, rest: Script)
    requires GoodName(e.name) && Ends(rest) && e.unset
    ensures ReadCommand(eval, UnixLine(e) + rest) == Some((Words(eval, e), rest))
  {
    var t := Chars(e.name) + rest;
    NameRead(eval, e.name, rest);
    KeywordsAreOrdinary();
    assert ReadWord(eval, rest) == Some(("", rest));
    hide Ordinary, ReadCommand, ReadWord, GoodName;
    CharsConcat("unset ", e.name);
    assert "unset" + " " == "unset ";
    assert UnixLine(e) + rest == Chars("unset" + " ") + t;
    hide Chars, UnixLine;
    assert e.name + "" == e.name;
    TwoWords(eval, "unset", t, e.name, rest);
  }

  lemma ExportLine(e: Env, rest: Script)
    requires !e.unset
    ensures UnixLine(e) + rest == Chars("export" + " ") + (Chars(e.name + "=") + (Assigned(e) + rest))
  {
    hide Quoted, Chars;
    CharsConcat("export ", e.name + "=");
    assert "export" + " " == "export ";
    assert "export " + (e.name + "=") == "export " + e.name + "=";
    var a, b, c := Chars("export "), Chars(e.name + "="), Assigned(e);
    assert UnixLine(e) == a + b + c;
    assert a + b + c + rest == a + (b + (c + rest));
  }

  lemma ExportRead(eval: string -> string, e: Env, rest: Script)
    requires GoodName(e.name) && Ends(rest) && !e.unset
    ensures ReadCommand(eval, UnixLine(e) + rest) == Some((Words(eval, e), rest))
  {
    var t := Chars(e.name + "=") + (Assigned(e) + rest);
    NameRead(eval, e.name, Assigned(e) + rest);
    AssignmentRead(eval, e, rest);
    KeywordsAreOrdinary();
    ExportLine(e, rest);
    hide Ordinary, ReadCommand, ReadWord, GoodName, Assigned, UnixLine, Value, Quoted;
    assert t != [] && t[0] == Ch(e.name[0]);
    hide Chars;
    TwoWords(eval, "export", t, e.name + "=" + Value(eval, e), rest);
  }

  lemma KeywordsAreOrdinary()
    ensures forall i :: 0 <= i < |"unset"| ==> Ordinary("unset"[i])
    ensures forall i :: 0 <= i < |"export"| ==> Ordinary("export"[i])
  {
  }

  /** A POSIX shell that sources the block makes exactly the assignments it was written for, whatever the values hold. */
  lemma {:induction false} SourcingUndoesFormatting(eval: string -> string, vars: Variables, envs: seq<Env>)
    requires forall i :: 0 <= i < |envs| ==> GoodName(envs[i].name)
    ensures Source(eval, vars, Joined(Lines(Unix, envs))) == Some(AppliedAll(eval, vars, envs))
    decreases |envs|
  {
    hide ReadCommand, ReadWord, Words, UnixLine, GoodName, Applied, Execute;
    if envs == [] {
      EmptyRead(eval, vars);
    } else {
      var e, more := envs[0], Lines(Unix, envs[1..]);
      assert Lines(Unix, envs) == [UnixLine(e)] + more;
      WordsExecuted(eval, vars, e);
      if more == [] {
        assert UnixLine(e) + [] == UnixLine(e) && envs[1..] == [];
        LineRead(eval, e, []);
      } else {
        var rest := [Ch('\n')] + Joined(more);
        assert Joined(Lines(Unix, envs)) == UnixLine(e) + rest && rest[1..] == Joined(more);
        LineRead(eval, e, rest);
        SourcingUndoesFormatting(eval, Applied(eval, vars, e), envs[1..]);
      }
    }
  }

  lemma EmptyRead(eval: string -> string, vars: Variables)
    ensures Source(eval, vars, []) == Some(vars)
  {
  }
}
