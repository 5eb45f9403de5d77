/** Which selection a shell is left with after it has sourced scripts. */
module SourceScripts {
  import opened Options
  import opened ShellExport
  import PosixShell
  import PowerShell

  predicate Alphanumeric(c: char) {
    'a' <= c <= 'z' || 'A' <= c <= 'Z' || '0' <= c <= '9' || c == '_'
  }

  function Upper(c: char): char {
    if 'a' <= c <= 'z' then c - 'a' + 'A' else c
  }

  /** Every run of other characters becomes one underscore. */
  function FormatRepoName(name: string): string {
    if name == "" then ""
    else if Alphanumeric(name[0]) then [Upper(name[0])] + FormatRepoName(name[1..])
    else if |name| > 1 && !Alphanumeric(name[1]) then FormatRepoName(name[1..])
    else "_" + FormatRepoName(name[1..])
  }

  predicate Letters(s: string) {
    forall i :: 0 <= i < |s| ==> ('a' <= s[i] <= 'z' || 'A' <= s[i] <= 'Z' || '0' <= s[i] <= '9' || s[i] == '_')
  }

  predicate Others(s: string) {
    forall i :: 0 <= i < |s| ==> !('a' <= s[i] <= 'z' || 'A' <= s[i] <= 'Z' || '0' <= s[i] <= '9' || s[i] == '_')
  }

  predicate Capital(c: char, of: char) {
    if 'a' <= of <= 'z' then 'A' <= c <= 'Z' && c as int + 32 == of as int else c == of
  }

  /** Letters and digits stay where they are, in capitals. */
  lemma {:induction false} LettersInCapitals(name: string)
    requires Letters(name)
    ensures |FormatRepoName(name)| == |name|
    ensures forall i :: 0 <= i < |name| ==> Capital(FormatRepoName(name)[i], name[i])
  {
    if name != "" {
      LettersInCapitals(name[1..]);
    }
  }

  /** A run of other characters, however long, is one underscore between what comes before and after it. */
  lemma RunIsUnderscore(a: string, run: string, b: string)
    requires Letters(a) && run != "" && Others(run) && (b == "" || Letters(b[..1]))
    ensures FormatRepoName(a + run + b) == FormatRepoName(a) + "_" + FormatRepoName(b)
  {
    hide *;
    RunAlone(run, b);
    LettersFirst(a, run + b);
    assert a + run + b == a + (run + b);
  }

  lemma {:induction false} LettersFirst(a: string, rest: string)
    requires Letters(a)
    ensures FormatRepoName(a + rest) == FormatRepoName(a) + FormatRepoName(rest)
  {
    if a == "" {
      assert a + rest == rest;
    } else {
      assert Letters(a[..1]) && (a + rest)[..1] == a[..1] && (a + rest)[1..] == a[1..] + rest && (a + rest)[0] == a[0];
      LettersFirst(a[1..], rest);
      hide *;
      FormatFirst(a + rest);
      FormatFirst(a);
    }
  }

  lemma {:induction false} RunAlone(run: string, b: string)
    requires run != "" && Others(run) && (b == "" || Letters(b[..1]))
    ensures FormatRepoName(run + b) == "_" + FormatRepoName(b)
  {
    FormatFirst(run + b);
    hide FormatRepoName, Upper;
    assert (run + b)[1..] == run[1..] + b;
    if |run| > 1 {
      RunAlone(run[1..], b);
      assert (run + b)[..2] == run[..2];
    } else {
      assert (run + b)[..1] == run && (run + b)[1..] == b;
      assert b != "" ==> (run + b)[1..2] == b[..1];
    }
  }

  lemma FormatFirst(name: string)
    ensures name == "" ==> FormatRepoName(name) == ""
    ensures name != "" && Letters(name[..1]) ==> FormatRepoName(name) == [Upper(name[0])] + FormatRepoName(name[1..])
    ensures |name| > 1 && Others(name[..2]) ==> FormatRepoName(name) == FormatRepoName(name[1..])
    ensures name != "" && Others(name[..1]) && (|name| > 1 ==> Letters(name[1..2])) ==> FormatRepoName(name) == "_" + FormatRepoName(name[1..])
  {
    assert name != "" && Letters(name[..1]) ==> Alphanumeric(name[..1][0]);
    assert name != "" && Others(name[..1]) ==> !Alphanumeric(name[..1][0]);
    assert |name| > 1 && Others(name[..2]) ==> !Alphanumeric(name[..2][0]) && !Alphanumeric(name[..2][1]);
    assert |name| > 1 && Letters(name[1..2]) ==> Alphanumeric(name[1..2][0]);
  }

  datatype Kind = GroupChannel | Version | VersionConstraint

  function Suffix(kind: Kind): string {
    match kind
    case GroupChannel => "_GROUP_CHANNEL"
    case Version => "_VERSION"
    case VersionConstraint => "_VERSION_CONSTRAINT"
  }

  function EnvName(repo: string, kind: Kind): string {
    "TRDL_USE_" + FormatRepoName(repo) + Suffix(kind)
  }

  /** The names in full. */
  lemma EnvNameMeaning(repo: string)
    ensures EnvName(repo, GroupChannel) == "TRDL_USE_" + FormatRepoName(repo) + "_GROUP_CHANNEL"
    ensures EnvName(repo, Version) == "TRDL_USE_" + FormatRepoName(repo) + "_VERSION"
    ensures EnvName(repo, VersionConstraint) == "TRDL_USE_" + FormatRepoName(repo) + "_VERSION_CONSTRAINT"
  {
  }

  lemma {:induction false} RepoNameIsGood(name: string)
    ensures NameChars(FormatRepoName(name))
  {
    if name != "" {
      RepoNameIsGood(name[1..]);
      assert Alphanumeric(name[0]) ==> NameChars([Upper(name[0])]);
      assert NameChars("_");
      hide Ordinary, Upper, Alphanumeric;
    }
  }

  lemma EnvNameIsGood(repo: string, kind: Kind)
    ensures GoodName(EnvName(repo, kind))
  {
    RepoNameIsGood(repo);
    assert NameChars("TRDL_USE_") && NameChars(Suffix(kind)) by {
      match kind
      case GroupChannel =>
      case Version =>
      case VersionConstraint =>
    }
    hide Ordinary, FormatRepoName, Suffix;
  }

  /** Two variables share a name only if they are of one kind and their repositories' names are formatted alike. */
  lemma EnvNamesDiffer(a: string, k: Kind, b: string, l: Kind)
    ensures EnvName(a, k) == EnvName(b, l) <==> k == l && FormatRepoName(a) == FormatRepoName(b)
  {
    var p, q := EnvName(a, k), EnvName(b, l);
    if p == q {
      SuffixesDiffer(k);
      SuffixesDiffer(l);
      assert p[|p| - 1] == Suffix(k)[|Suffix(k)| - 1] && q[|q| - 1] == Suffix(l)[|Suffix(l)| - 1];
      assert k == l;
      var prefix, end := |"TRDL_USE_"|, |p| - |Suffix(k)|;
      assert p[prefix..end] == FormatRepoName(a) && q[prefix..end] == FormatRepoName(b);
    }
  }

  lemma SuffixesDiffer(kind: Kind)
    ensures Suffix(kind)[|Suffix(kind)| - 1] == match kind case GroupChannel => 'L' case Version => 'N' case VersionConstraint => 'T'
  {
  }

  /** What a source script selects: a channel, or a version that the script resolves when it runs. */
  datatype Selection = Channel(group: string, channel: string) | Constraint(version: string, extractor: string)

  datatype Use = Use(repo: string, selection: Selection)

  function Envs(u: Use): seq<Env> {
    var name := kind => EnvName(u.repo, kind);
    match u.selection
    case Channel(group, channel) =>
      [Env(name(GroupChannel), group + " " + channel, false, false),
       Env(name(Version), "", false, true),
       Env(name(VersionConstraint), "", false, true)]
    case Constraint(version, extractor) =>
      [Env(name(Version), extractor, true, false),
       Env(name(VersionConstraint), version, false, false),
       Env(name(GroupChannel), "", false, true)]
  }

  /** Sourcing the blocks of several scripts one after another. */
  function SourceAll(shell: Shell, eval: string -> string, vars: Variables, uses: seq<Use>): Option<Variables> {
    if uses == [] then Some(vars)
    else match SourceAll(shell, eval, vars, uses[..|uses| - 1])
      case None => None
      case Some(before) => Source(shell, eval, before, Joined(Lines(shell, Envs(uses[|uses| - 1]))))
  }

  function Source(shell: Shell, eval: string -> string, vars: Variables, t: Script): Option<Variables> {
    match shell
    case Unix => PosixShell.Source(eval, vars, t)
    case Pwsh => PowerShell.Source(eval, vars, t)
  }

  /** What the shell can be told: anything in a POSIX shell, anything without typographic quotes in PowerShell. */
  predicate Expressible(shell: Shell, u: Use) {
    shell == Unix || forall i :: 0 <= i < |Envs(u)| ==> PowerShell.Readable(Envs(u)[i])
  }

  ghost predicate Has(vars: Variables, name: string, value: string) {
    name in vars && vars[name] == value
  }

  /** The variables of the repository say what was selected, and nothing of the other mode is left. */
  ghost predicate Selected(eval: string -> string, vars: Variables, repo: string, selection: Selection) {
    match selection
    case Channel(group, channel) =>
      && Has(vars, EnvName(repo, GroupChannel), group + " " + channel)
      && EnvName(repo, Version) !in vars && EnvName(repo, VersionConstraint) !in vars
    case Constraint(version, extractor) =>
      && Has(vars, EnvName(repo, Version), eval(extractor)) && Has(vars, EnvName(repo, VersionConstraint), version)
      && EnvName(repo, GroupChannel) !in vars
  }

  lemma UseSourced(shell: Shell, eval: string -> string, vars: Variables, u: Use)
    requires Expressible(shell, u)
    ensures Source(shell, eval, vars, Joined(Lines(shell, Envs(u)))) == Some(AppliedAll(eval, vars, Envs(u)))
  {
    forall i | 0 <= i < |Envs(u)| ensures GoodName(Envs(u)[i].name) {
      EnvNameIsGood(u.repo, GroupChannel);
      EnvNameIsGood(u.repo, Version);
      EnvNameIsGood(u.repo, VersionConstraint);
    }
    match shell
    case Unix => PosixShell.SourcingUndoesFormatting(eval, vars, Envs(u));
    case Pwsh => PowerShell.SourcingUndoesFormatting(eval, vars, Envs(u));
  }

  lemma UseSelects(eval: string -> string, vars: Variables, u: Use)
    ensures Selected(eval, AppliedAll(eval, vars, Envs(u)), u.repo, u.selection)
    ensures forall kind, other :: FormatRepoName(other) != FormatRepoName(u.repo) ==>
              var name, after := EnvName(other, kind), AppliedAll(eval, vars, Envs(u));
              (name in after <==> name in vars) && (name in after ==> after[name] == vars[name])
  {
    var envs := Envs(u);
    AppliedThree(eval, vars, envs);
    forall k, l, other ensures EnvName(u.repo, k) == EnvName(other, l) <==> k == l && FormatRepoName(u.repo) == FormatRepoName(other) {
      EnvNamesDiffer(u.repo, k, other, l);
    }
    hide EnvName, AppliedAll, FormatRepoName;
  }

  lemma AppliedThree(eval: string -> string, vars: Variables, envs: seq<Env>)
    requires |envs| == 3
    ensures AppliedAll(eval, vars, envs) == Applied(eval, Applied(eval, Applied(eval, vars, envs[0]), envs[1]), envs[2])
  {
    hide Applied;
    var a := Applied(eval, vars, envs[0]);
    var b := Applied(eval, a, envs[1]);
    assert envs[1..][1..] == envs[2..] && envs[2..][1..] == [];
    assert AppliedAll(eval, a, envs[1..]) == AppliedAll(eval, b, envs[2..]);
    assert AppliedAll(eval, b, envs[2..]) == AppliedAll(eval, Applied(eval, b, envs[2]), []);
  }

  /** After any scripts whatever, the last one of a repository decides alone: one mode is set and the other is not. */
  lemma {:induction false} LastUseDecides(shell: Shell, eval: string -> string, vars: Variables, uses: seq<Use>, k: nat)
    requires forall i :: 0 <= i < |uses| ==> Expressible(shell, uses[i])
    requires k < |uses| && forall i :: k < i < |uses| ==> FormatRepoName(uses[i].repo) != FormatRepoName(uses[k].repo)
    ensures var after := SourceAll(shell, eval, vars, uses);
            after.Some? && Selected(eval, after.value, uses[k].repo, uses[k].selection)
    decreases |uses|
  {
    hide Source, Joined, Lines, Envs, Expressible, EnvName, FormatRepoName, AppliedAll;
    var n := |uses| - 1;
    var u := uses[n];
    AllSourced(shell, eval, vars, uses[..n]);
    var before := SourceAll(shell, eval, vars, uses[..n]).value;
    UseSourced(shell, eval, before, u);
    UseSelects(eval, before, u);
    if k < n {
      assert uses[..n][k] == uses[k];
      LastUseDecides(shell, eval, vars, uses[..n], k);
    }
  }

  lemma {:induction false} AllSourced(shell: Shell, eval: string -> string, vars: Variables, uses: seq<Use>)
    requires forall i :: 0 <= i < |uses| ==> Expressible(shell, uses[i])
    ensures SourceAll(shell, eval, vars, uses).Some?
  {
    hide Source, Joined, Lines, Envs, Expressible;
    if uses != [] {
      var n := |uses| - 1;
      AllSourced(shell, eval, vars, uses[..n]);
      UseSourced(shell, eval, SourceAll(shell, eval, vars, uses[..n]).value, uses[n]);
    }
  }
}
