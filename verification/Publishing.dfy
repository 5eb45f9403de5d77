/** Release and publish tasks, and what they put into the repository of targets. */
module Publishing {
  import opened Options
  import opened Iteration
  import opened Text
  import opened Paths
  import PathSplit

  type Targets = map<string, string>

  datatype Channel = Channel(name: string, version: string)

  datatype Group = Group(name: string, channels: seq<Channel>)

  const CHANNEL_NAMES: seq<string> := ["dev", "alpha", "beta", "ea", "stable", "rock-solid"]
  const SYSTEMS: seq<string> := ["any", "linux", "darwin", "windows"]
  const ARCHS: seq<string> := ["any", "amd64", "arm64"]

  // ---------- version names ----------

  function TrimV(s: string): string {
    if s != "" && s[0] == 'v' then s[1..] else s
  }

  predicate WordChar(c: char) {
    '0' <= c <= '9' || 'a' <= c <= 'z' || 'A' <= c <= 'Z' || c == '.' || c == '-' || c == '+'
  }

  /** What the version library accepts at most: a digit first, after an optional v, and no other characters. */
  predicate Versioned(s: string) {
    var t := TrimV(s);
    t != "" && '0' <= t[0] <= '9' && forall i :: 0 <= i < |t| ==> WordChar(t[i])
  }

  ghost predicate Sensible(valid: string -> bool) {
    forall s :: valid(s) ==> Versioned(s)
  }

  lemma VersionedIsPlain(s: string)
    requires Versioned(s)
    ensures Plain(TrimV(s)) && TrimV(TrimV(s)) == TrimV(s) && TrimSpace(TrimV(s) + "\n") == TrimV(s)
  {
    var t := TrimV(s);
    assert '/' !in t;
    TrimLine(t);
  }

  lemma TrimLine(t: string)
    requires t != "" && forall i :: 0 <= i < |t| ==> WordChar(t[i])
    ensures TrimSpace(t + "\n") == t
  {
    assert TrimLeft(t + "\n") == t + "\n";
    assert (t + "\n")[..|t|] == t;
    assert WordChar(t[|t| - 1]);
    assert TrimRight(t) == t;
  }

  // ---------- the paths of a release ----------

  datatype Check = Good | Bad | Panics

  /** The part before the first dash, and the part after it. */
  function CutAtDash(s: string): (string, Option<string>) {
    if s == "" then ("", None)
    else if s[0] == '-' then ("", Some(s[1..]))
    else var (a, b) := CutAtDash(s[1..]); ([s[0]] + a, b)
  }

  /** The second part is read without a look at whether there is one. */
  function CheckPlatform(part: string): Check {
    var (system, arch) := CutAtDash(part);
    if system !in SYSTEMS then Bad
    else match arch
      case None => Panics
      case Some(a) => if a in ARCHS then Good else Bad
  }

  function CheckFile(file: string): Check {
    CheckPlatform(PathSplit.FirstPiece(Clean(file)))
  }

  ghost predicate IsPlatform(part: string) {
    exists i, j :: 0 <= i < |SYSTEMS| && 0 <= j < |ARCHS| && part == SYSTEMS[i] + "-" + ARCHS[j]
  }

  lemma {:induction false} CutMeaning(s: string)
    ensures var (a, b) := CutAtDash(s);
            '-' !in a && s == (if b.Some? then a + "-" + b.value else a)
  {
    if s != "" && s[0] != '-' {
      CutMeaning(s[1..]);
    }
  }

  lemma {:induction false} CutBack(a: string, b: string)
    requires '-' !in a
    ensures CutAtDash(a + "-" + b) == (a, Some(b))
  {
    var s := a + "-" + b;
    if a == "" {
      assert s[1..] == b;
    } else {
      CutBack(a[1..], b);
      assert s[0] == a[0] && s[1..] == a[1..] + "-" + b && a == [a[0]] + a[1..];
    }
  }

  lemma {:induction false} CutNone(s: string)
    requires '-' !in s
    ensures CutAtDash(s) == (s, None)
  {
    if s != "" {
      CutNone(s[1..]);
      assert s[0] in s && s == [s[0]] + s[1..];
    }
  }

  /** Exactly the twelve platforms are good, and exactly a system without an architecture makes the check panic. */
  lemma PlatformsChecked(part: string)
    ensures CheckPlatform(part) == Good <==> IsPlatform(part)
    ensures CheckPlatform(part) == Panics <==> part in SYSTEMS
  {
    CutMeaning(part);
    NoDashes();
    hide CutAtDash, SYSTEMS, ARCHS;
    if IsPlatform(part) {
      var i, j :| 0 <= i < |SYSTEMS| && 0 <= j < |ARCHS| && part == SYSTEMS[i] + "-" + ARCHS[j];
      CutBack(SYSTEMS[i], ARCHS[j]);
    }
    if part in SYSTEMS {
      CutNone(part);
    }
  }

  lemma NoDashes()
    ensures forall system :: system in SYSTEMS ==> '-' !in system
  {
  }

  /** The twelve platforms by name. */
  function PlatformName(i: nat, j: nat): string {
    if i == 0 then (if j == 0 then "any-any" else if j == 1 then "any-amd64" else "any-arm64")
    else if i == 1 then (if j == 0 then "linux-any" else if j == 1 then "linux-amd64" else "linux-arm64")
    else if i == 2 then (if j == 0 then "darwin-any" else if j == 1 then "darwin-amd64" else "darwin-arm64")
    else (if j == 0 then "windows-any" else if j == 1 then "windows-amd64" else "windows-arm64")
  }

  lemma NameOf(i: nat, j: nat)
    requires i < 4 && j < 3
    ensures |SYSTEMS| == 4 && |ARCHS| == 3 && SYSTEMS[i] + "-" + ARCHS[j] == PlatformName(i, j)
  {
    var system := if i == 0 then "any" else if i == 1 then "linux" else if i == 2 then "darwin" else "windows";
    var arch := if j == 0 then "any" else if j == 1 then "amd64" else "arm64";
    assert SYSTEMS[i] == system && ARCHS[j] == arch;
    hide SYSTEMS, ARCHS;
    if i == 0 {
      assert system + "-" + arch == PlatformName(0, j);
    } else if i == 1 {
      assert system + "-" + arch == PlatformName(1, j);
    } else if i == 2 {
      assert system + "-" + arch == PlatformName(2, j);
    } else {
      assert system + "-" + arch == PlatformName(3, j);
    }
  }

  /** Exactly the twelve names are good, and exactly the four systems alone make the check panic. */
  lemma PlatformNames(part: string)
    ensures CheckPlatform(part) == Good <==> exists i: nat, j: nat :: i < 4 && j < 3 && part == PlatformName(i, j)
    ensures CheckPlatform(part) == Panics <==> part == "any" || part == "linux" || part == "darwin" || part == "windows"
  {
    PlatformsChecked(part);
    NameOf(0, 0);
    hide PlatformName, CheckPlatform;
    if IsPlatform(part) {
      var i, j :| 0 <= i < |SYSTEMS| && 0 <= j < |ARCHS| && part == SYSTEMS[i] + "-" + ARCHS[j];
      NameOf(i, j);
    }
    if i: nat, j: nat :| i < 4 && j < 3 && part == PlatformName(i, j) {
      NameOf(i, j);
    }
  }

  /** A file below a system without an architecture is one that makes the check panic. */
  lemma SystemAlonePanics()
    ensures CheckFile("linux/x") == Panics
  {
    var file := "linux/x";
    assert file == "linux" + "/" + "x" && "linux" == ['l', 'i', 'n', 'u', 'x'];
    PartsConcat("linux", "x");
    PartsOfOne("linux");
    PartsOfOne("x");
    assert Parts(file) == ["linux", "x"];
    assert Plain("linux") && Plain("x");
    ResolvePlain([], ["linux", "x"], []);
    assert ["linux", "x"] + [] == ["linux", "x"] && [] + ["linux", "x"] == ["linux", "x"];
    assert Clean(file) == Glue(["linux", "x"]);
    assert ["linux", "x"][1..] == ["x"];
    assert Clean(file) == "linux" + "/" + "x" == file;
    hide Clean, Parts, Resolve, ResolveAll, Glue;
    SplitAfterSystem();
    PlatformsChecked("linux");
  }

  lemma SplitAfterSystem()
    ensures PathSplit.FirstPiece("linux/x") == "linux" && "linux" in SYSTEMS
  {
    var path := "linux/x";
    assert SYSTEMS[1] == "linux";
    assert PathSplit.Separates(path, 5);
    var k := PathSplit.IndexRuneWithEscaping(path);
    assert path[..5] == "linux";
    assert k == 5;
  }

  lemma PlatformIsPlain(part: string)
    requires IsPlatform(part)
    ensures Plain(part)
  {
    var i, j :| 0 <= i < |SYSTEMS| && 0 <= j < |ARCHS| && part == SYSTEMS[i] + "-" + ARCHS[j];
    assert '/' !in SYSTEMS[i] && '/' !in ARCHS[j];
    assert |part| > 2;
  }

  function ReleaseTarget(release: string, file: string): string {
    Join(["releases", release, file])
  }

  function SignatureTarget(release: string, file: string): string {
    Join(["signatures", release, file + ".sig"])
  }

  /** A file whose check is good lies below the directory of its platform. */
  lemma GoodFile(file: string)
    requires CheckFile(file) == Good
    ensures file != "" && file[0] != '/'
    ensures var r := ResolveAll(false, [], Parts(file)); r != [] && r[0] != ".."
    ensures var p := PathSplit.FirstPiece(Clean(file));
            IsPlatform(p) && p <= Clean(file) && (p < Clean(file) ==> Clean(file)[|p|] == '/')
  {
    var c := Clean(file);
    var p := PathSplit.FirstPiece(c);
    PlatformsChecked(p);
    PlatformIsPlain(p);
    hide CheckPlatform, IsPlatform;
    FirstIsPrefix(c);
    assert file != "";
    assert file[0] != '/';
    var r := ResolveAll(false, [], Parts(file));
    assert r != [];
    if r[0] == ".." {
      GlueStarts(r);
    }
  }

  lemma FirstIsPrefix(path: string)
    ensures var p := PathSplit.FirstPiece(path);
            p <= path && (p < path ==> path[|p|] == '/')
  {
  }

  lemma GlueStarts(parts: seq<string>)
    requires parts != []
    ensures parts[0] <= Glue(parts) && (parts[0] < Glue(parts) ==> Glue(parts)[|parts[0]|] == '/')
  {
  }

  /** A release task writes below its own release's directories only, wherever the archive says its files are. */
  lemma TargetsBelow(release: string, file: string)
    requires Plain(release) && CheckFile(file) == Good
    ensures ReleaseTarget(release, file) == "releases/" + release + "/" + Clean(file)
    ensures SignatureTarget(release, file) == "signatures/" + release + "/" + Clean(file + ".sig")
  {
    GoodFile(file);
    hide CheckFile;
    SuffixedStaysWithin(file, ".sig");
    hide ResolveAll, Parts, Clean, Join;
    JoinBelow("releases", release, file);
    JoinBelow("signatures", release, file + ".sig");
    assert "releases" + "/" == "releases/" && "signatures" + "/" == "signatures/";
  }

  // ---------- what the tasks write ----------

  const ARTIFACTS: string := "result/"

  /** An entry of the archive of artifacts. */
  datatype Entry = Entry(name: string, isDir: bool, data: string, signature: string)

  predicate Published(e: Entry) {
    ARTIFACTS <= e.name && !e.isDir
  }

  function FileOf(e: Entry): string
    requires Published(e)
  {
    e.name[|ARTIFACTS|..]
  }

  predicate AllGood(entries: seq<Entry>) {
    forall i :: 0 <= i < |entries| && Published(entries[i]) ==> CheckFile(FileOf(entries[i])) == Good
  }

  function WithFile(t: Targets, release: string, file: string, data: string, signature: string): Targets {
    t[ReleaseTarget(release, file) := data][SignatureTarget(release, file) := signature]
  }

  function WithEntries(t: Targets, release: string, entries: seq<Entry>): Targets {
    if entries == [] then t
    else
      var n := |entries| - 1;
      var before, e := WithEntries(t, release, entries[..n]), entries[n];
      if Published(e) then WithFile(before, release, FileOf(e), e.data, e.signature) else before
  }

  /** The first entry that is not good is one whose check panics. */
  ghost predicate PanicsFirst(entries: seq<Entry>) {
    exists k :: 0 <= k < |entries| && PanicsAt(entries, k)
  }

  ghost predicate PanicsAt(entries: seq<Entry>, k: nat)
    requires k < |entries|
  {
    AllGood(entries[..k]) && Published(entries[k]) && CheckFile(FileOf(entries[k])) == Panics
  }

  lemma BadFirst(entries: seq<Entry>, k: nat, check: Check)
    requires k < |entries| && AllGood(entries[..k]) && Published(entries[k])
    requires check == CheckFile(FileOf(entries[k])) && check != Good
    ensures !AllGood(entries)
    ensures PanicsFirst(entries) <==> check == Panics
  {
    hide CheckFile, FileOf, Published;
    forall j: nat | j < |entries| && PanicsAt(entries, j) ensures j == k { }
    if check == Panics {
      assert PanicsAt(entries, k);
    }
  }

  lemma GoodNeverPanics(entries: seq<Entry>)
    requires AllGood(entries[..|entries|])
    ensures AllGood(entries) && !PanicsFirst(entries)
  {
    hide CheckFile, FileOf, Published;
    assert entries[..|entries|] == entries;
  }

  lemma EntriesNone(t: Targets, release: string, entries: seq<Entry>)
    ensures AllGood(entries[..0]) && t == WithEntries(t, release, entries[..0])
    ensures entries[..|entries|] == entries
  {
  }

  lemma EntriesNext(t: Targets, release: string, entries: seq<Entry>, k: nat)
    requires k < |entries|
    ensures var e, before := entries[k], WithEntries(t, release, entries[..k]);
            WithEntries(t, release, entries[..k + 1])
              == if Published(e) then WithFile(before, release, FileOf(e), e.data, e.signature) else before
  {
    hide Published, WithFile, FileOf;
    assert entries[..k + 1][..k] == entries[..k];
  }

  lemma GoodNext(entries: seq<Entry>, k: nat)
    requires k < |entries| && AllGood(entries[..k])
    ensures if Published(entries[k]) && CheckFile(FileOf(entries[k])) != Good then !AllGood(entries) else AllGood(entries[..k + 1])
  {
    hide Published, CheckFile, FileOf;
  }

  function ChannelTarget(group: string, channel: string): string {
    Join(["channels", group, channel])
  }

  function WithChannels(t: Targets, group: string, channels: seq<Channel>): Targets {
    if channels == [] then t
    else
      var n := |channels| - 1;
      WithChannels(t, group, channels[..n])[ChannelTarget(group, channels[n].name) := channels[n].version + "\n"]
  }

  function WithConfig(t: Targets, config: seq<Group>): Targets {
    if config == [] then t
    else
      var n := |config| - 1;
      WithChannels(WithConfig(t, config[..n]), config[n].name, config[n].channels)
  }

  /** The release that a target belongs to, by its name alone. */
  function ReleaseOf(target: string): string
    requires "releases/" <= target
  {
    TrimV(Parts(target[9..])[0])
  }

  function ExistingReleases(t: Targets): set<string> {
    set path | path in t && "releases/" <= path :: ReleaseOf(path)
  }

  // ---------- which configurations are accepted ----------

  predicate GoodName(valid: string -> bool, name: string) {
    valid(name) && !("v" <= name)
  }

  predicate GoodChannel(valid: string -> bool, c: Channel) {
    c.name in CHANNEL_NAMES && GoodName(valid, c.version)
  }

  ghost predicate GoodChannels(valid: string -> bool, channels: seq<Channel>) {
    && (forall i :: 0 <= i < |channels| ==> GoodChannel(valid, channels[i]))
    && forall i, j :: 0 <= i < j < |channels| ==> channels[i].name != channels[j].name
  }

  ghost predicate GoodGroups(valid: string -> bool, config: seq<Group>) {
    && (forall i :: 0 <= i < |config| ==> GoodName(valid, config[i].name) && GoodChannels(valid, config[i].channels))
    && forall i, j :: 0 <= i < j < |config| ==> config[i].name != config[j].name
  }

  ghost predicate Mentions(config: seq<Group>, version: string) {
    exists i, j :: 0 <= i < |config| && 0 <= j < |config[i].channels| && config[i].channels[j].version == version
  }

  ghost predicate Acceptable(valid: string -> bool, config: seq<Group>, t: Targets) {
    GoodGroups(valid, config) && forall v :: Mentions(config, v) ==> v in ExistingReleases(t)
  }

  datatype Verdict = Accepted | BadGroup(group: string) | DuplicateGroup(group: string) | DuplicateChannel(channel: string)
    | BadChannelName(channel: string) | BadVersion(version: string) | NonExisting(releases: seq<string>)

  datatype Result = Done | Skipped | Refused | Panicked | NotRecorded | Rejected(verdict: Verdict)

  /** The names of channels and versions that are let through. */
  lemma GoodNames(valid: string -> bool, c: Channel)
    ensures GoodChannel(valid, c) <==>
              && (c.name == "dev" || c.name == "alpha" || c.name == "beta" || c.name == "ea" || c.name == "stable" || c.name == "rock-solid")
              && valid(c.version) && !(c.version != "" && c.version[0] == 'v')
  {
  }

  /** A leading v is dropped, one at most. */
  lemma TrimVMeaning(s: string)
    ensures TrimV("v" + s) == s
    ensures !(s != "" && s[0] == 'v') ==> TrimV(s) == s
  {
  }

  /** The release a target belongs to is named by the directory it lies in. */
  lemma ReleaseOfMeaning(dir: string, rest: string)
    requires '/' !in dir
    ensures var path := "releases/" + dir + "/" + rest; "releases/" <= path && ReleaseOf(path) == TrimV(dir)
  {
    assert ("releases/" + dir + "/" + rest)[9..] == dir + "/" + rest;
    PartsConcat(dir, rest);
    PartsOfOne(dir);
  }

  // ---------- what a release puts where ----------

  /** An entry of the archive that is released, and the path of its file. */
  ghost predicate Releases(e: Entry, file: string) {
    e.name == "result/" + file && !e.isDir
  }

  lemma PublishedReleases(e: Entry)
    ensures Published(e) <==> exists file :: Releases(e, file)
    ensures Published(e) ==> Releases(e, FileOf(e))
    ensures forall file :: Releases(e, file) ==> FileOf(e) == file
  {
    if Published(e) {
      assert e.name == "result/" + e.name[7..] && FileOf(e) == e.name[7..];
      assert Releases(e, FileOf(e));
    }
    forall file | Releases(e, file) ensures Published(e) && FileOf(e) == file {
      assert ("result/" + file)[7..] == file;
    }
  }

  lemma BelowDiffers(top: string, name: string, a: string, b: string)
    ensures top + name + "/" + a == top + name + "/" + b <==> a == b
  {
    var p := top + name + "/";
    assert (p + a)[|p|..] == a && (p + b)[|p|..] == b;
  }

  lemma ReleasesDiffer(name: string, a: string, b: string)
    ensures "releases/" + name + "/" + a != "signatures/" + name + "/" + b
  {
    assert ("releases/" + name + "/" + a)[0] == 'r' && ("signatures/" + name + "/" + b)[0] == 's';
  }

  /** What one file adds: its data and its signature, each in its place, and nothing else. */
  lemma FileWritten(t: Targets, release: string, file: string, data: string, signature: string)
    requires Plain(release) && CheckFile(file) == Good
    ensures var after, target, sig := WithFile(t, release, file, data, signature),
                "releases/" + release + "/" + Clean(file), "signatures/" + release + "/" + Clean(file + ".sig");
            && target in after && after[target] == data && sig in after && after[sig] == signature
            && forall path :: path != target && path != sig ==>
                 (path in after <==> path in t) && (path in t ==> after[path] == t[path])
  {
    TargetsBelow(release, file);
    ReleasesDiffer(release, Clean(file), Clean(file + ".sig"));
    hide CheckFile, ReleaseTarget, SignatureTarget, Clean, Plain;
  }

  /** No later entry has the same target. */
  ghost predicate LastForTarget(entries: seq<Entry>, k: nat, file: string)
    requires k < |entries|
  {
    forall j, other :: k < j < |entries| && Releases(entries[j], other) ==> Clean(other) != Clean(file)
  }

  ghost predicate LastForSignature(entries: seq<Entry>, k: nat, file: string)
    requires k < |entries|
  {
    forall j, other :: k < j < |entries| && Releases(entries[j], other) ==> Clean(other + ".sig") != Clean(file + ".sig")
  }

  /** The path is neither target nor signature of an entry. */
  ghost predicate Unrelated(entries: seq<Entry>, release: string, path: string) {
    forall j, file :: 0 <= j < |entries| && Releases(entries[j], file) ==>
      path != "releases/" + release + "/" + Clean(file) && path != "signatures/" + release + "/" + Clean(file + ".sig")
  }

  lemma {:induction false} EntryWritten(t: Targets, release: string, entries: seq<Entry>, k: nat, file: string)
    requires Plain(release) && AllGood(entries) && k < |entries| && Releases(entries[k], file)
    ensures var after, target, sig := WithEntries(t, release, entries),
                "releases/" + release + "/" + Clean(file), "signatures/" + release + "/" + Clean(file + ".sig");
            && (LastForTarget(entries, k, file) ==> target in after && after[target] == entries[k].data)
            && (LastForSignature(entries, k, file) ==> sig in after && after[sig] == entries[k].signature)
    decreases |entries|
  {
    hide CheckFile, WithFile, Clean, Plain, Releases;
    var n := |entries| - 1;
    var before, e := entries[..n], entries[n];
    assert entries[..n + 1] == entries;
    EntriesNext(t, release, entries, n);
    PublishedReleases(e);
    GoodPart(entries, n);
    if k < n {
      assert before[k] == entries[k];
      EntryWritten(t, release, before, k, file);
      LastPart(entries, k, file);
    }
    if Published(e) {
      var other := FileOf(e);
      FileWritten(WithEntries(t, release, before), release, other, e.data, e.signature);
      ReleasesDiffer(release, Clean(file), Clean(other + ".sig"));
      ReleasesDiffer(release, Clean(other), Clean(file + ".sig"));
      BelowDiffers("releases/", release, Clean(file), Clean(other));
      BelowDiffers("signatures/", release, Clean(file + ".sig"), Clean(other + ".sig"));
    }
    hide WithEntries, FileOf, Published;
  }

  lemma GoodPart(entries: seq<Entry>, n: nat)
    requires AllGood(entries) && n < |entries|
    ensures AllGood(entries[..n]) && (Published(entries[n]) ==> CheckFile(FileOf(entries[n])) == Good)
  {
    hide CheckFile, FileOf, Published;
    assert forall i :: 0 <= i < n ==> entries[..n][i] == entries[i];
  }

  lemma LastPart(entries: seq<Entry>, k: nat, file: string)
    requires k < |entries| - 1
    ensures LastForTarget(entries, k, file) ==> LastForTarget(entries[..|entries| - 1], k, file)
    ensures LastForSignature(entries, k, file) ==> LastForSignature(entries[..|entries| - 1], k, file)
  {
    hide Clean, Releases;
    assert forall j :: 0 <= j < |entries| - 1 ==> entries[..|entries| - 1][j] == entries[j];
  }

  lemma {:induction false} OthersKept(t: Targets, release: string, entries: seq<Entry>, path: string)
    requires Plain(release) && AllGood(entries) && Unrelated(entries, release, path)
    ensures var after := WithEntries(t, release, entries);
            (path in after <==> path in t) && (path in t ==> after[path] == t[path])
    decreases |entries|
  {
    hide CheckFile, WithFile, Clean, Plain, Releases;
    if entries != [] {
      var n := |entries| - 1;
      var before, e := entries[..n], entries[n];
      assert entries[..n + 1] == entries;
      EntriesNext(t, release, entries, n);
      PublishedReleases(e);
      GoodPart(entries, n);
      assert forall j :: 0 <= j < n ==> before[j] == entries[j];
      OthersKept(t, release, before, path);
      if Published(e) {
        FileWritten(WithEntries(t, release, before), release, FileOf(e), e.data, e.signature);
      }
      hide FileOf, Published;
    }
  }

  /** What a release leaves in the repository: every file under its own path, signed under its own, and all else as it was. */
  lemma ReleaseContents(valid: string -> bool, t: Targets, tag: string, entries: seq<Entry>)
    requires Sensible(valid) && valid(tag) && AllGood(entries)
    ensures var after, release := WithEntries(t, TrimV(tag), entries), TrimV(tag);
            && (forall k, file :: 0 <= k < |entries| && Releases(entries[k], file) ==>
                  var target, sig := "releases/" + release + "/" + Clean(file), "signatures/" + release + "/" + Clean(file + ".sig");
                  && (LastForTarget(entries, k, file) ==> target in after && after[target] == entries[k].data)
                  && (LastForSignature(entries, k, file) ==> sig in after && after[sig] == entries[k].signature))
            && (forall path :: Unrelated(entries, release, path) ==>
                  (path in after <==> path in t) && (path in t ==> after[path] == t[path]))
  {
    VersionedIsPlain(tag);
    hide Plain, Clean, Releases, WithEntries, AllGood, LastForTarget, LastForSignature, Unrelated, TrimV;
    var after, release := WithEntries(t, TrimV(tag), entries), TrimV(tag);
    forall k, file | 0 <= k < |entries| && Releases(entries[k], file)
      ensures var target, sig := "releases/" + release + "/" + Clean(file), "signatures/" + release + "/" + Clean(file + ".sig");
              && (LastForTarget(entries, k, file) ==> target in after && after[target] == entries[k].data)
              && (LastForSignature(entries, k, file) ==> sig in after && after[sig] == entries[k].signature)
    {
      EntryWritten(t, release, entries, k, file);
    }
    forall path | Unrelated(entries, release, path)
      ensures (path in after <==> path in t) && (path in t ==> after[path] == t[path])
    {
      OthersKept(t, release, entries, path);
    }
  }

  // ---------- the server ----------

  class Server {
    const valid: string -> bool
    const ancestor: (string, string) -> bool
    var targets: Targets
    var staged: Targets
    var lastPublished: string

    constructor (valid: string -> bool, ancestor: (string, string) -> bool, initial: string)
      ensures this.valid == valid && this.ancestor == ancestor && targets == map[] && lastPublished == initial
    {
      this.valid, this.ancestor, targets, staged, lastPublished := valid, ancestor, map[], map[], initial;
    }

    method StageReleaseTarget(release: string, file: string, data: string, signature: string) returns (check: Check)
      modifies this`staged
      ensures check == CheckFile(file)
      ensures staged == if check == Good then WithFile(old(staged), release, file, data, signature) else old(staged)
      ensures check == Good && Plain(release) ==>
                var target, sig := "releases/" + release + "/" + Clean(file), "signatures/" + release + "/" + Clean(file + ".sig");
                target in staged && staged[target] == data && sig in staged && staged[sig] == signature
    {
      var parts := PathSplit.SplitFilepath(Clean(file));
      PathSplit.FirstOfSplit(Clean(file), parts);
      check := CheckPlatform(parts[0]);
      if check == Good {
        if Plain(release) {
          FileWritten(staged, release, file, data, signature);
        }
        hide CheckFile, Clean, ReleaseTarget, SignatureTarget, Plain;
        staged := staged[ReleaseTarget(release, file) := data];
        staged := staged[SignatureTarget(release, file) := signature];
      }
    }

    /** A release: permitted says that the tag was cloned and verified, built that the build went well. */
    method Release(tag: string, permitted: bool, entries: seq<Entry>, built: bool) returns (result: Result)
      modifies this`targets, this`staged
      ensures result == Done <==> valid(tag) && permitted && built && AllGood(entries)
      ensures result == Panicked <==> valid(tag) && permitted && PanicsFirst(entries)
      ensures Step(valid, ancestor, State(old(targets), lastPublished), ReleaseTask(tag, entries), State(targets, lastPublished))
      ensures targets == if result == Done then WithEntries(old(targets), TrimV(tag), entries) else old(targets)
      ensures result == Done && Sensible(valid) ==>
                && (forall k, file :: 0 <= k < |entries| && Releases(entries[k], file) ==>
                      var target, sig := "releases/" + TrimV(tag) + "/" + Clean(file), "signatures/" + TrimV(tag) + "/" + Clean(file + ".sig");
                      && (LastForTarget(entries, k, file) ==> target in targets && targets[target] == entries[k].data)
                      && (LastForSignature(entries, k, file) ==> sig in targets && targets[sig] == entries[k].signature))
                && (forall path :: Unrelated(entries, TrimV(tag), path) ==>
                      (path in targets <==> path in old(targets)) && (path in targets ==> targets[path] == old(targets)[path]))
    {
      if !valid(tag) {
        return Refused;
      }
      var name := TrimV(tag);
      staged := targets;
      if !permitted {
        return Refused;
      }
      EntriesNone(targets, name, entries);
      for k := 0 to |entries|
        invariant AllGood(entries[..k]) && staged == WithEntries(targets, name, entries[..k])
        invariant targets == old(targets)
      {
        hide AllGood, WithEntries, CheckFile, WithFile, PanicsFirst;
        EntriesNext(targets, name, entries, k);
        GoodNext(entries, k);
        if Published(entries[k]) {
          var check := StageReleaseTarget(name, FileOf(entries[k]), entries[k].data, entries[k].signature);
          if check != Good {
            BadFirst(entries, k, check);
            return if check == Panics then Panicked else Refused;
          }
        }
      }
      GoodNeverPanics(entries);
      if !built {
        return Refused;
      }
      ghost var was := targets;
      targets := staged;
      hide *;
      if Sensible(valid) {
        ReleaseContents(valid, was, tag, entries);
      }
      return Done;
    }

    method GetExistingReleases() returns (releases: seq<string>)
      ensures forall r :: r in releases <==> r in ExistingReleases(staged)
      ensures forall i, j :: 0 <= i < j < |releases| ==> releases[i] != releases[j]
    {
      var order := Order(staged.Keys);
      releases := [];
      for k := 0 to |order|
        invariant forall r :: r in releases ==> r in ExistingReleases(staged)
        invariant forall i :: 0 <= i < k && "releases/" <= order[i] ==> ReleaseOf(order[i]) in releases
        invariant forall i, j :: 0 <= i < j < |releases| ==> releases[i] != releases[j]
      {
        if "releases/" <= order[k] {
          var name := ReleaseOf(order[k]);
          assert order[k] in staged;
          if name !in releases {
            releases := releases + [name];
          }
        }
      }
      forall r | r in ExistingReleases(staged) ensures r in releases {
        var path :| path in staged && "releases/" <= path && ReleaseOf(path) == r;
        assert path in order;
      }
    }

    method ValidateGroup(group: Group, existing: seq<string>, missing: seq<string>) returns (verdict: Verdict, more: seq<string>)
      ensures verdict.Accepted? <==> GoodChannels(valid, group.channels)
      ensures !verdict.NonExisting?
      ensures verdict.Accepted? ==> forall v :: v in more <==>
                v in missing || (v !in existing && exists j :: 0 <= j < |group.channels| && group.channels[j].version == v)
      ensures (forall i, j :: 0 <= i < j < |missing| ==> missing[i] != missing[j]) ==>
                forall i, j :: 0 <= i < j < |more| ==> more[i] != more[j]
    {
      more := missing;
      var processed: set<string> := {};
      for k := 0 to |group.channels|
        invariant GoodChannels(valid, group.channels[..k])
        invariant forall name :: name in processed <==> exists j :: 0 <= j < k && group.channels[j].name == name
        invariant forall v :: v in more <==>
                    v in missing || (v !in existing && exists j :: 0 <= j < k && group.channels[j].version == v)
        invariant (forall i, j :: 0 <= i < j < |missing| ==> missing[i] != missing[j]) ==>
                    forall i, j :: 0 <= i < j < |more| ==> more[i] != more[j]
      {
        var channel := group.channels[k];
        if channel.name in processed {
          return DuplicateChannel(channel.name), more;
        }
        if channel.name !in CHANNEL_NAMES {
          return BadChannelName(channel.name), more;
        }
        if !valid(channel.version) || "v" <= channel.version {
          return BadVersion(channel.version), more;
        }
        if channel.version !in existing && channel.version !in more {
          more := more + [channel.version];
        }
        processed := processed + {channel.name};
      }
      assert group.channels[..|group.channels|] == group.channels;
      return Accepted, more;
    }

    method ValidatePublishConfig(config: seq<Group>) returns (verdict: Verdict)
      ensures verdict.Accepted? <==> Acceptable(valid, config, staged)
      ensures verdict.NonExisting? <==> GoodGroups(valid, config) && !Acceptable(valid, config, staged)
      ensures verdict.NonExisting? ==>
                && (forall v :: v in verdict.releases <==> Mentions(config, v) && v !in ExistingReleases(staged))
                && forall i, j :: 0 <= i < j < |verdict.releases| ==> verdict.releases[i] != verdict.releases[j]
    {
      var existing := GetExistingReleases();
      var missing: seq<string> := [];
      var processed: set<string> := {};
      for k := 0 to |config|
        invariant GoodGroups(valid, config[..k])
        invariant forall name :: name in processed <==> exists i :: 0 <= i < k && config[i].name == name
        invariant forall v :: v in missing <==> v !in existing && Mentions(config[..k], v)
        invariant forall i, j :: 0 <= i < j < |missing| ==> missing[i] != missing[j]
      {
        hide GoodChannels;
        var group := config[k];
        if "v" <= group.name || !valid(group.name) {
          return BadGroup(group.name);
        }
        if group.name in processed {
          return DuplicateGroup(group.name);
        }
        verdict, missing := ValidateGroup(group, existing, missing);
        if verdict != Accepted {
          return;
        }
        processed := processed + {group.name};
      }
      assert config[..|config|] == config;
      if missing != [] {
        assert missing[0] in missing;
        return NonExisting(missing);
      }
      return Accepted;
    }

    method StageChannelsConfig(config: seq<Group>)
      modifies this`staged
      ensures staged == WithConfig(old(staged), config)
    {
      for i := 0 to |config|
        invariant staged == WithConfig(old(staged), config[..i])
      {
        ghost var before := staged;
        for j := 0 to |config[i].channels|
          invariant staged == WithChannels(before, config[i].name, config[i].channels[..j])
        {
          assert config[i].channels[..j + 1][..j] == config[i].channels[..j];
          staged := staged[ChannelTarget(config[i].name, config[i].channels[j].name) := config[i].channels[j].version + "\n"];
        }
        assert config[i].channels[..|config[i].channels|] == config[i].channels;
        assert config[..i + 1][..i] == config[..i];
      }
      assert config[..|config|] == config;
    }

    /** A publication of the head commit: its record in the storage is the last step, and may fail by itself. */
    method Publish(head: string, permitted: bool, config: Option<seq<Group>>, stored: bool) returns (result: Result)
      modifies this
      ensures result == Done <==> MayPublish(old(lastPublished), head, permitted, config, old(targets)) && stored
      ensures result == NotRecorded <==> MayPublish(old(lastPublished), head, permitted, config, old(targets)) && !stored
      ensures targets == if MayPublish(old(lastPublished), head, permitted, config, old(targets))
                         then WithConfig(old(targets), config.value) else old(targets)
      ensures lastPublished == if result == Done then head else old(lastPublished)
      ensures result == Skipped <==> old(lastPublished) == head
      ensures config.Some? ==> Step(valid, ancestor, State(old(targets), old(lastPublished)), PublishTask(head, config.value),
                                    State(targets, lastPublished))
      ensures (result == Done || result == NotRecorded) && Sensible(valid) ==>
                && (forall i, j :: 0 <= i < |config.value| && 0 <= j < |config.value[i].channels| ==>
                      var path := "channels/" + config.value[i].name + "/" + config.value[i].channels[j].name;
                      path in targets && targets[path] == config.value[i].channels[j].version + "\n")
                && (forall path :: !("channels/" <= path) ==>
                      (path in targets <==> path in old(targets)) && (path in targets ==> targets[path] == old(targets)[path]))
      ensures result.Rejected? ==> permitted && config.Some? && !Acceptable(valid, config.value, old(targets))
    {
      staged := targets;
      if lastPublished == head {
        return Skipped;
      }
      if lastPublished != "" && !ancestor(lastPublished, head) {
        return Refused;
      }
      if !permitted || config.None? {
        return Refused;
      }
      var verdict := ValidatePublishConfig(config.value);
      if verdict != Accepted {
        return Rejected(verdict);
      }
      StageChannelsConfig(config.value);
      if Sensible(valid) {
        ConfigContents(valid, targets, config.value);
      }
      hide Acceptable, WithConfig;
      targets := staged;
      if !stored {
        return NotRecorded;
      }
      lastPublished := head;
      return Done;
    }

    ghost predicate MayPublish(last: string, head: string, permitted: bool, config: Option<seq<Group>>, t: Targets) {
      && last != head && (last == "" || ancestor(last, head))
      && permitted && config.Some? && Acceptable(valid, config.value, t)
    }
  }

  // ---------- what a configuration stages ----------

  lemma ChannelNamesArePlain(name: string)
    requires name in CHANNEL_NAMES
    ensures Plain(name)
  {
  }

  lemma GoodNameIsPlain(valid: string -> bool, name: string)
    requires Sensible(valid) && GoodName(valid, name)
    ensures Plain(name) && TrimV(name) == name && TrimSpace(name + "\n") == name
  {
    VersionedIsPlain(name);
    assert TrimV(name) == name;
  }

  lemma ChannelPath(group: string, channel: string)
    requires Plain(group) && Plain(channel)
    ensures ChannelTarget(group, channel) == "channels/" + group + "/" + channel
    ensures Parts(ChannelTarget(group, channel)) == ["channels", group, channel]
  {
    JoinPlain("channels", group, channel);
    PartsOfThree("channels", group, channel);
    assert "channels" + "/" == "channels/";
    hide Join, Parts, Plain;
  }

  /** Two channels of an accepted configuration have two paths. */
  lemma ChannelPathsDiffer(valid: string -> bool, config: seq<Group>, i: nat, j: nat, k: nat, l: nat)
    requires Sensible(valid) && GoodGroups(valid, config)
    requires i < |config| && j < |config[i].channels| && k < |config| && l < |config[k].channels|
    requires i != k || j != l
    ensures ChannelTarget(config[i].name, config[i].channels[j].name) != ChannelTarget(config[k].name, config[k].channels[l].name)
  {
    GoodNameIsPlain(valid, config[i].name);
    GoodNameIsPlain(valid, config[k].name);
    var c, d := config[i].channels[j], config[k].channels[l];
    assert GoodChannel(valid, c) && GoodChannel(valid, d);
    ChannelNamesArePlain(c.name);
    ChannelNamesArePlain(d.name);
    ChannelPath(config[i].name, c.name);
    ChannelPath(config[k].name, d.name);
    assert config[i].name == config[k].name ==> i == k;
    assert i == k && c.name == d.name ==> j == l;
  }

  ghost predicate Holds(t: Targets, group: string, c: Channel) {
    ChannelTarget(group, c.name) in t && t[ChannelTarget(group, c.name)] == c.version + "\n"
  }

  /** Nothing but paths of the group's channels has changed. */
  ghost predicate ChangedIn(before: Targets, after: Targets, config: seq<Group>) {
    && before.Keys <= after.Keys
    && forall path :: path in after && !(path in before && after[path] == before[path]) ==>
         exists i, j :: 0 <= i < |config| && 0 <= j < |config[i].channels| && path == ChannelTarget(config[i].name, config[i].channels[j].name)
  }

  lemma {:induction false} ChannelsWritten(t: Targets, group: string, channels: seq<Channel>, path: string)
    ensures var after := WithChannels(t, group, channels);
            && t.Keys <= after.Keys
            && (path in after && !(path in t && after[path] == t[path]) ==>
                  exists j :: 0 <= j < |channels| && path == ChannelTarget(group, channels[j].name))
  {
    hide ChannelTarget;
    if channels != [] {
      var n := |channels| - 1;
      ChannelsWritten(t, group, channels[..n], path);
      var after := WithChannels(t, group, channels);
      if path in after && !(path in t && after[path] == t[path]) && path != ChannelTarget(group, channels[n].name) {
        var j :| 0 <= j < n && path == ChannelTarget(group, channels[..n][j].name);
        assert channels[..n][j] == channels[j];
      }
    }
  }

  lemma {:induction false} ChannelsHeld(t: Targets, group: string, channels: seq<Channel>, j: nat)
    requires j < |channels|
    requires forall k :: j < k < |channels| ==> ChannelTarget(group, channels[k].name) != ChannelTarget(group, channels[j].name)
    ensures Holds(WithChannels(t, group, channels), group, channels[j])
  {
    hide ChannelTarget;
    var n := |channels| - 1;
    if j < n {
      assert channels[..n][j] == channels[j];
      ChannelsHeld(t, group, channels[..n], j);
      assert ChannelTarget(group, channels[n].name) != ChannelTarget(group, channels[j].name);
    }
  }

  lemma {:induction false} ConfigWritten(t: Targets, config: seq<Group>)
    ensures ChangedIn(t, WithConfig(t, config), config)
  {
    hide ChannelTarget;
    if config != [] {
      var n := |config| - 1;
      var before, after := WithConfig(t, config[..n]), WithConfig(t, config);
      ConfigWritten(t, config[..n]);
      ChannelsWritten(before, config[n].name, config[n].channels, "");
      forall path | path in after && !(path in t && after[path] == t[path])
        ensures exists i, j :: 0 <= i < |config| && 0 <= j < |config[i].channels| && path == ChannelTarget(config[i].name, config[i].channels[j].name)
      {
        ChannelsWritten(before, config[n].name, config[n].channels, path);
        if path in before && after[path] == before[path] {
          var i, j :| 0 <= i < n && 0 <= j < |config[..n][i].channels| && path == ChannelTarget(config[..n][i].name, config[..n][i].channels[j].name);
          assert config[..n][i] == config[i];
        }
      }
    }
  }

  lemma {:induction false} ConfigHeld(valid: string -> bool, t: Targets, config: seq<Group>, i: nat, j: nat)
    requires Sensible(valid) && GoodGroups(valid, config) && i < |config| && j < |config[i].channels|
    ensures Holds(WithConfig(t, config), config[i].name, config[i].channels[j])
    decreases |config|
  {
    hide ChannelTarget, GoodName, GoodChannels, WithChannels;
    var n := |config| - 1;
    var before := WithConfig(t, config[..n]);
    var path := ChannelTarget(config[i].name, config[i].channels[j].name);
    if i < n {
      assert config[..n][i] == config[i];
      GoodGroupsBefore(valid, config, n);
      hide GoodGroups;
      ConfigHeld(valid, t, config[..n], i, j);
      ChannelsWritten(before, config[n].name, config[n].channels, path);
      forall l | 0 <= l < |config[n].channels| ensures path != ChannelTarget(config[n].name, config[n].channels[l].name) {
        ChannelPathsDiffer(valid, config, i, j, n, l);
      }
    } else {
      hide GoodGroups;
      forall k | j < k < |config[n].channels| ensures ChannelTarget(config[n].name, config[n].channels[k].name) != path {
        ChannelPathsDiffer(valid, config, n, j, n, k);
      }
      ChannelsHeld(before, config[n].name, config[n].channels, j);
    }
  }

  lemma GoodGroupsBefore(valid: string -> bool, config: seq<Group>, n: nat)
    requires GoodGroups(valid, config) && n <= |config|
    ensures GoodGroups(valid, config[..n])
  {
    hide GoodName, GoodChannels;
  }

  /** An accepted configuration is staged as it stands: each channel gets its own version, and nothing else changes. */
  lemma ConfigStaged(valid: string -> bool, t: Targets, config: seq<Group>)
    requires Sensible(valid) && GoodGroups(valid, config)
    ensures var after := WithConfig(t, config);
            && ChangedIn(t, after, config)
            && forall i, j :: 0 <= i < |config| && 0 <= j < |config[i].channels| ==> Holds(after, config[i].name, config[i].channels[j])
  {
    ConfigWritten(t, config);
    forall i, j | 0 <= i < |config| && 0 <= j < |config[i].channels|
      ensures Holds(WithConfig(t, config), config[i].name, config[i].channels[j])
    {
      ConfigHeld(valid, t, config, i, j);
    }
  }

  lemma AcceptedPath(valid: string -> bool, config: seq<Group>, i: nat, j: nat)
    requires Sensible(valid) && GoodGroups(valid, config) && i < |config| && j < |config[i].channels|
    ensures var group, channel := config[i].name, config[i].channels[j].name;
            ChannelTarget(group, channel) == "channels/" + group + "/" + channel && "channels/" <= ChannelTarget(group, channel)
  {
    assert GoodChannel(valid, config[i].channels[j]);
    GoodNameIsPlain(valid, config[i].name);
    ChannelNamesArePlain(config[i].channels[j].name);
    ChannelPath(config[i].name, config[i].channels[j].name);
    hide *;
  }

  /** In terms of paths: each channel's target holds its version on a line, and targets elsewhere are as they were. */
  lemma ConfigContents(valid: string -> bool, t: Targets, config: seq<Group>)
    requires Sensible(valid) && GoodGroups(valid, config)
    ensures var after := WithConfig(t, config);
            && (forall i, j :: 0 <= i < |config| && 0 <= j < |config[i].channels| ==>
                  var path := "channels/" + config[i].name + "/" + config[i].channels[j].name;
                  path in after && after[path] == config[i].channels[j].version + "\n")
            && (forall path :: !("channels/" <= path) ==> (path in after <==> path in t) && (path in t ==> after[path] == t[path]))
  {
    ConfigStaged(valid, t, config);
    hide WithConfig, ChannelTarget, GoodGroups, Sensible;
    forall i, j | 0 <= i < |config| && 0 <= j < |config[i].channels|
      ensures var path := ChannelTarget(config[i].name, config[i].channels[j].name);
              path == "channels/" + config[i].name + "/" + config[i].channels[j].name && "channels/" <= path
    {
      AcceptedPath(valid, config, i, j);
    }
  }

  /** Publishing again what has been published changes nothing, so a lost record of the commit does no harm. */
  lemma PublishedAgain(valid: string -> bool, t: Targets, config: seq<Group>)
    requires Sensible(valid) && Acceptable(valid, config, t)
    ensures var after := WithConfig(t, config);
            Acceptable(valid, config, after) && WithConfig(after, config) == after
  {
    var after := WithConfig(t, config);
    var again := WithConfig(after, config);
    ConfigStaged(valid, t, config);
    ConfigStaged(valid, after, config);
    StillExisting(t, after);
    hide WithConfig, ExistingReleases, Mentions, GoodGroups, Holds;
    NothingChanged(after, again, config);
  }

  lemma NothingChanged(before: Targets, after: Targets, config: seq<Group>)
    requires ChangedIn(before, after, config)
    requires forall i, j :: 0 <= i < |config| && 0 <= j < |config[i].channels| ==> Holds(before, config[i].name, config[i].channels[j])
    requires forall i, j :: 0 <= i < |config| && 0 <= j < |config[i].channels| ==> Holds(after, config[i].name, config[i].channels[j])
    ensures after == before
  {
    hide ChannelTarget;
    forall path | path in after ensures path in before && after[path] == before[path] { }
  }

  lemma StillExisting(t: Targets, after: Targets)
    requires t.Keys <= after.Keys
    ensures ExistingReleases(t) <= ExistingReleases(after)
  {
    hide ReleaseOf;
    forall v | v in ExistingReleases(t) ensures v in ExistingReleases(after) {
      var path :| path in t && "releases/" <= path && ReleaseOf(path) == v;
      assert path in after;
    }
  }

  // ---------- channels and releases stay consistent ----------

  ghost predicate HasRelease(t: Targets, version: string) {
    exists path :: path in t && "releases/" + version + "/" <= path
  }

  /** Every channel names a release that is there, and every release lies in a directory of its name. */
  ghost predicate Consistent(t: Targets) {
    && (forall path :: path in t && "channels/" <= path ==> HasRelease(t, TrimSpace(t[path])))
    && forall path :: path in t && "releases/" <= path ==> "releases/" + ReleaseOf(path) + "/" <= path
  }

  lemma BelowRelease(release: string, rest: string)
    requires Plain(release) && TrimV(release) == release
    ensures var path := "releases/" + release + "/" + rest;
            "releases/" <= path && !("channels/" <= path) && ReleaseOf(path) == release && "releases/" + release + "/" <= path
  {
    var path := "releases/" + release + "/" + rest;
    assert path[9..] == release + "/" + rest;
    assert path[0] == 'r';
    PartsConcat(release, rest);
    PartsOfOne(release);
  }

  lemma BelowSignatures(release: string, rest: string)
    ensures var path := "signatures/" + release + "/" + rest;
            !("releases/" <= path) && !("channels/" <= path)
  {
    assert ("signatures/" + release + "/" + rest)[0] == 's';
  }

  lemma FileKeepsConsistent(t: Targets, release: string, file: string, data: string, signature: string)
    requires Consistent(t) && Plain(release) && TrimV(release) == release && CheckFile(file) == Good
    ensures Consistent(WithFile(t, release, file, data, signature))
    ensures HasRelease(WithFile(t, release, file, data, signature), release)
  {
    TargetsBelow(release, file);
    BelowRelease(release, Clean(file));
    BelowSignatures(release, Clean(file + ".sig"));
    var target, sig := ReleaseTarget(release, file), SignatureTarget(release, file);
    hide *;
    AddedKeepsConsistent(t, target, data, release);
    SignedKeepsConsistent(t[target := data], sig, signature);
    assert WithFile(t, release, file, data, signature) == t[target := data][sig := signature] by {
      hide ReleaseTarget, SignatureTarget;
    }
    MoreReleases(t[target := data], t[target := data][sig := signature]);
  }

  lemma AddedKeepsConsistent(t: Targets, path: string, data: string, release: string)
    requires Consistent(t) && !("channels/" <= path)
    requires "releases/" <= path && ReleaseOf(path) == release && "releases/" + release + "/" <= path
    ensures Consistent(t[path := data]) && HasRelease(t[path := data], release)
  {
    MoreReleases(t, t[path := data]);
    hide ReleaseOf, TrimSpace;
    assert path in t[path := data];
  }

  lemma SignedKeepsConsistent(t: Targets, path: string, data: string)
    requires Consistent(t) && !("channels/" <= path) && !("releases/" <= path)
    ensures Consistent(t[path := data])
  {
    MoreReleases(t, t[path := data]);
    hide ReleaseOf, TrimSpace, HasRelease;
  }

  lemma MoreReleases(t: Targets, after: Targets)
    requires t.Keys <= after.Keys
    ensures forall v :: HasRelease(t, v) ==> HasRelease(after, v)
  {
    forall v | HasRelease(t, v) ensures HasRelease(after, v) {
      var path :| path in t && "releases/" + v + "/" <= path;
      assert path in after;
    }
  }

  lemma {:induction false} EntriesKeepConsistent(t: Targets, release: string, entries: seq<Entry>)
    requires Consistent(t) && Plain(release) && TrimV(release) == release && AllGood(entries)
    ensures Consistent(WithEntries(t, release, entries))
  {
    hide Consistent, WithFile, CheckFile, Plain;
    if entries != [] {
      var n := |entries| - 1;
      var e := entries[n];
      assert forall i :: 0 <= i < n ==> entries[..n][i] == entries[i];
      EntriesKeepConsistent(t, release, entries[..n]);
      if Published(e) {
        FileKeepsConsistent(WithEntries(t, release, entries[..n]), release, FileOf(e), e.data, e.signature);
      }
    }
  }

  lemma ConfigKeepsConsistent(valid: string -> bool, t: Targets, config: seq<Group>)
    requires Sensible(valid) && Consistent(t) && Acceptable(valid, config, t)
    ensures Consistent(WithConfig(t, config))
  {
    var after := WithConfig(t, config);
    ConfigStaged(valid, t, config);
    hide WithConfig, ReleaseOf, TrimSpace, ChannelTarget;
    MoreReleases(t, after);
    forall path | path in after && !(path in t && after[path] == t[path])
      ensures !("releases/" <= path) && HasRelease(after, TrimSpace(after[path]))
    {
      var i, j :| 0 <= i < |config| && 0 <= j < |config[i].channels| && path == ChannelTarget(config[i].name, config[i].channels[j].name);
      ChannelKept(valid, t, config, i, j);
      assert Holds(after, config[i].name, config[i].channels[j]);
    }
  }

  /** The version of a channel is one that the repository has. */
  lemma ChannelKept(valid: string -> bool, t: Targets, config: seq<Group>, i: nat, j: nat)
    requires Sensible(valid) && Consistent(t) && Acceptable(valid, config, t)
    requires i < |config| && j < |config[i].channels|
    ensures var c := config[i].channels[j];
            HasRelease(t, TrimSpace(c.version + "\n")) && !("releases/" <= ChannelTarget(config[i].name, c.name))
  {
    var c := config[i].channels[j];
    assert GoodChannel(valid, c);
    GoodNameIsPlain(valid, config[i].name);
    GoodNameIsPlain(valid, c.version);
    ChannelNamesArePlain(c.name);
    ChannelPath(config[i].name, c.name);
    assert Mentions(config, c.version);
    var path :| path in t && "releases/" <= path && ReleaseOf(path) == c.version;
    assert ChannelTarget(config[i].name, c.name)[0] == 'c';
  }

  // ---------- runs of tasks ----------

  datatype State = State(targets: Targets, lastPublished: string)

  datatype Task = ReleaseTask(tag: string, entries: seq<Entry>) | PublishTask(head: string, config: seq<Group>)

  /** What a task may make of the committed targets and the record of the published commit. A failed one changes nothing,
   * save that the record may be lost after the commit. */
  ghost predicate Step(valid: string -> bool, ancestor: (string, string) -> bool, before: State, task: Task, after: State) {
    after == before ||
    match task
    case ReleaseTask(tag, entries) =>
      valid(tag) && AllGood(entries) && after == before.(targets := WithEntries(before.targets, TrimV(tag), entries))
    case PublishTask(head, config) =>
      && before.lastPublished != head && (before.lastPublished == "" || ancestor(before.lastPublished, head))
      && Acceptable(valid, config, before.targets) && after.targets == WithConfig(before.targets, config)
      && (after.lastPublished == head || after.lastPublished == before.lastPublished)
  }

  /** Tasks one after another from an empty repository. */
  ghost predicate Run(valid: string -> bool, ancestor: (string, string) -> bool, states: seq<State>, tasks: seq<Task>) {
    && |states| == |tasks| + 1 && states[0].targets == map[]
    && forall i :: 0 <= i < |tasks| ==> Step(valid, ancestor, states[i], tasks[i], states[i + 1])
  }

  lemma {:induction false} RunKeepsConsistent(valid: string -> bool, ancestor: (string, string) -> bool, states: seq<State>, tasks: seq<Task>, i: nat)
    requires Sensible(valid) && Run(valid, ancestor, states, tasks) && i < |states|
    ensures Consistent(states[i].targets)
  {
    if i > 0 {
      RunKeepsConsistent(valid, ancestor, states, tasks, i - 1);
      var before, task, after := states[i - 1], tasks[i - 1], states[i];
      assert Step(valid, ancestor, before, task, after);
      hide Consistent, Acceptable, WithConfig, WithEntries, AllGood, Run;
      if after != before {
        match task
        case ReleaseTask(tag, entries) =>
          VersionedIsPlain(tag);
          EntriesKeepConsistent(before.targets, TrimV(tag), entries);
        case PublishTask(head, config) =>
          ConfigKeepsConsistent(valid, before.targets, config);
      }
    }
  }

  /** Whatever a channel says, the repository has a target of that release. */
  lemma ChannelsHaveReleases(valid: string -> bool, ancestor: (string, string) -> bool, states: seq<State>, tasks: seq<Task>, i: nat, path: string)
    requires Sensible(valid) && Run(valid, ancestor, states, tasks) && i < |states|
    requires path in states[i].targets && "channels/" <= path
    ensures exists target :: target in states[i].targets && "releases/" + TrimSpace(states[i].targets[path]) + "/" <= target
  {
    RunKeepsConsistent(valid, ancestor, states, tasks, i);
  }

  ghost predicate Transitive(ancestor: (string, string) -> bool) {
    forall a, b, c :: ancestor(a, b) && ancestor(b, c) ==> ancestor(a, c)
  }

  /** The published commits form a line: each descends from all those before it. */
  lemma {:induction false} PublishedDescend(valid: string -> bool, ancestor: (string, string) -> bool, states: seq<State>, tasks: seq<Task>, i: nat, j: nat)
    requires Run(valid, ancestor, states, tasks) && i <= j < |states|
    requires Transitive(ancestor) && forall k :: 0 <= k < |tasks| && tasks[k].PublishTask? ==> tasks[k].head != ""
    ensures var a, b := states[i].lastPublished, states[j].lastPublished;
            a == b || a == "" || (b != "" && ancestor(a, b))
  {
    if i < j {
      PublishedDescend(valid, ancestor, states, tasks, i, j - 1);
      assert Step(valid, ancestor, states[j - 1], tasks[j - 1], states[j]);
      hide Acceptable, WithConfig, WithEntries, AllGood, Run;
    }
  }
}
