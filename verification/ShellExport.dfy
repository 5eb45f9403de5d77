/** The lines of a source script that set and unset variables. */
module ShellExport {
  import opened Options

  /** A character of a script, or a command substitution in double quotes, which stays opaque. */
  datatype Token = Ch(c: char) | Expansion(text: string)

  type Script = seq<Token>

  function Chars(s: string): Script {
    seq(|s|, i requires 0 <= i < |s| => Ch(s[i]))
  }

  datatype Env = Env(name: string, value: string, expression: bool, unset: bool)

  // ---------- writing ----------

  /** Every occurrence of the character replaced by the text. */
  function ReplaceAll(s: string, c: char, text: string): string {
    if s == "" then "" else (if s[0] == c then text else [s[0]]) + ReplaceAll(s[1..], c, text)
  }

  function Quoted(value: string): string {
    "'" + ReplaceAll(value, '\'', "'\\''") + "'"
  }

  function Assigned(e: Env): Script {
    if e.expression then [Expansion(e.value)] else Chars(Quoted(e.value))
  }

  function UnixLine(e: Env): Script {
    if e.unset then Chars("unset " + e.name)
    else Chars("export " + e.name + "=") + Assigned(e)
  }

  const SETTER: string := "[System.Environment]::SetEnvironmentVariable('"
  const TARGET: string := "," + "[System.EnvironmentVariableTarget]::Process);"

  function Doubled(value: string): string {
    ReplaceAll(value, '\'', "''")
  }

  function PwshAssigned(e: Env): Script {
    if e.unset then Chars("$null")
    else if e.expression then [Expansion(e.value)]
    else Chars("'" + Doubled(e.value) + "'")
  }

  function PwshLine(e: Env): Script {
    Chars(SETTER + e.name + "',") + PwshAssigned(e) + Chars(TARGET)
  }

  /** Up to the first occurrence nothing changes, and there the text stands instead. */
  lemma {:induction false} ReplacedAtFirst(a: string, c: char, b: string, text: string)
    requires c !in a
    ensures ReplaceAll(a, c, text) == a
    ensures ReplaceAll(a + [c] + b, c, text) == a + text + ReplaceAll(b, c, text)
  {
    if a != "" {
      ReplacedAtFirst(a[1..], c, b, text);
      assert (a + [c] + b)[1..] == a[1..] + [c] + b;
    } else {
      assert (a + [c] + b)[1..] == b;
    }
  }

  /** A value and the lines that set and unset it, in full. */
  lemma LinesWritten(name: string, value: string)
    requires '\'' !in value
    ensures UnixLine(Env(name, value, false, false)) == Chars("export " + name + "='" + value + "'")
    ensures UnixLine(Env(name, value, true, false)) == Chars("export " + name + "=") + [Expansion(value)]
    ensures UnixLine(Env(name, value, false, true)) == Chars("unset " + name)
    ensures var setter := "[System.Environment]::SetEnvironmentVariable('" + name + "',";
            var target := "," + "[System.EnvironmentVariableTarget]::Process);";
            && PwshLine(Env(name, value, false, false)) == Chars(setter) + Chars("'" + value + "'") + Chars(target)
            && PwshLine(Env(name, value, true, false)) == Chars(setter) + [Expansion(value)] + Chars(target)
            && PwshLine(Env(name, value, false, true)) == Chars(setter) + Chars("$null") + Chars(target)
  {
    hide Chars;
    ReplacedAtFirst(value, '\'', "", "''");
    ReplacedAtFirst(value, '\'', "", "'\\''");
    assert "export " + name + "='" + value + "'" == "export " + name + "=" + ("'" + value + "'");
    CharsConcat("export " + name + "=", "'" + value + "'");
  }

  datatype Shell = Unix | Pwsh

  function Line(shell: Shell, e: Env): Script {
    match shell
    case Unix => UnixLine(e)
    case Pwsh => PwshLine(e)
  }

  function Joined(lines: seq<Script>): Script {
    if lines == [] then [] else if |lines| == 1 then lines[0] else lines[0] + [Ch('\n')] + Joined(lines[1..])
  }

  function Lines(shell: Shell, envs: seq<Env>): seq<Script> {
    seq(|envs|, i requires 0 <= i < |envs| => Line(shell, envs[i]))
  }

  method FormatSourceScriptEnvExports(shell: Shell, envs: seq<Env>) returns (block: Script)
    ensures block == Joined(Lines(shell, envs))
  {
    var lines := [];
    for k := 0 to |envs|
      invariant lines == Lines(shell, envs[..k])
    {
      LinesNext(shell, envs, k);
      hide Quoted, Doubled, Chars, Lines;
      var env := envs[k];
      if shell == Pwsh {
        if env.unset {
          lines := lines + [Chars(SETTER + env.name + "',") + Chars("$null") + Chars(TARGET)];
        } else {
          var value := if env.expression then [Expansion(env.value)] else Chars("'" + Doubled(env.value) + "'");
          lines := lines + [Chars(SETTER + env.name + "',") + value + Chars(TARGET)];
        }
      } else {
        if env.unset {
          lines := lines + [Chars("unset " + env.name)];
        } else {
          var value := if env.expression then [Expansion(env.value)] else Chars(Quoted(env.value));
          lines := lines + [Chars("export " + env.name + "=") + value];
        }
      }
    }
    assert envs[..|envs|] == envs;
    return Joined(lines);
  }

  lemma LinesNext(shell: Shell, envs: seq<Env>, k: nat)
    requires k < |envs|
    ensures Lines(shell, envs[..k + 1]) == Lines(shell, envs[..k]) + [Line(shell, envs[k])]
  {
    hide Line;
  }

  /** The block of several lines: the first, a newline, and the block of the others. */
  lemma BlockOf(shell: Shell, envs: seq<Env>)
    requires envs != []
    ensures var block, first := Joined(Lines(shell, envs)), Line(shell, envs[0]);
            if envs[1..] == [] then block == first + []
            else
              var rest := [Ch('\n')] + Joined(Lines(shell, envs[1..]));
              block == first + rest && rest[1..] == Joined(Lines(shell, envs[1..])) && Ends(rest)
  {
    hide Line;
    var lines := Lines(shell, envs);
    assert lines[1..] == Lines(shell, envs[1..]);
  }

  // ---------- what the lines are to do ----------

  type Variables = map<string, string>

  function Value(eval: string -> string, e: Env): string {
    if e.expression then eval(e.value) else e.value
  }

  function Applied(eval: string -> string, vars: Variables, e: Env): Variables {
    if e.unset then vars - {e.name} else vars[e.name := Value(eval, e)]
  }

  function AppliedAll(eval: string -> string, vars: Variables, envs: seq<Env>): Variables
    decreases |envs|
  {
    if envs == [] then vars else AppliedAll(eval, Applied(eval, vars, envs[0]), envs[1..])
  }

  lemma AppliedFirst(eval: string -> string, vars: Variables, envs: seq<Env>)
    requires envs != []
    ensures AppliedAll(eval, vars, envs) == AppliedAll(eval, Applied(eval, vars, envs[0]), envs[1..])
    ensures envs[1..] == [] ==> AppliedAll(eval, vars, envs) == Applied(eval, vars, envs[0])
  {
    hide Applied;
  }

  predicate NameChars(s: string) {
    forall i :: 0 <= i < |s| ==> Ordinary(s[i]) && s[i] != '='
  }

  predicate GoodName(name: string) {
    name != "" && NameChars(name)
  }

  /** A character that stands for itself outside quotes. */
  predicate Ordinary(c: char) {
    'a' <= c <= 'z' || 'A' <= c <= 'Z' || '0' <= c <= '9' || c == '_' || c == '='
  }

  lemma CharsConcat(a: string, b: string)
    ensures Chars(a + b) == Chars(a) + Chars(b)
  {
  }

  lemma CharsCons(s: string)
    requires s != ""
    ensures Chars(s) == [Ch(s[0])] + Chars(s[1..])
  {
  }

  /** Where a line ends. */
  predicate Ends(t: Script) {
    t == [] || t[0] == Ch('\n')
  }
}
