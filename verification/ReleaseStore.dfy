/** The releases that a client keeps on disk, and the operations that change them. */
module ReleaseStore {
  import opened Options
  import opened Iteration
  import opened Text
  import opened Semver

  /** One clean path component. */
  type Release = string

  datatype Channel = Channel(group: string, name: string)

  /** A file of a release: the directory of its platform, and the path below it. */
  datatype File = File(osArch: string, path: string)

  type Dir = map<File, string>

  /** What the metadata says of a target, as the contents that match it. */
  type Meta = string -> bool

  type Files = map<File, Meta>

  datatype Target = ChannelTarget(channel: Channel) | ReleaseTarget(release: Release, file: File) | OtherTarget(name: string)

  type Targets = map<Target, Meta>

  datatype Platform = Platform(os: string, arch: string)

  /** Times are in seconds. */
  const DAY: int := 24 * 3600

  datatype Disk = Disk(
    channels: map<Channel, string>,
    releases: map<Release, Dir>,
    tmpChannels: map<Channel, string>,
    tmpReleases: map<Release, Dir>,
    uses: map<Release, int>,        // when a release was last taken from its channel
    pins: map<Release, int>)        // when a version was pinned

  const EMPTY: Disk := Disk(map[], map[], map[], map[], map[], map[])

  // ---------- what is wanted ----------

  function Candidates(p: Platform): seq<string> {
    [p.os + "-" + p.arch, p.os + "-any", "any-" + p.arch, "any-any"]
  }

  function Selection(targets: Targets, release: Release, osArch: string): Files {
    map t | t in targets && t.ReleaseTarget? && t.release == release && t.file.osArch == osArch :: t.file := targets[t]
  }

  /** The first of the four that has targets. */
  ghost predicate Picks(p: Platform, targets: Targets, release: Release, osArch: string) {
    exists k :: 0 <= k < |Candidates(p)| && Candidates(p)[k] == osArch && FirstAt(p, targets, release, k)
  }

  ghost predicate FirstAt(p: Platform, targets: Targets, release: Release, k: int)
    requires 0 <= k < |Candidates(p)|
  {
    && Selection(targets, release, Candidates(p)[k]) != map[]
    && forall i :: 0 <= i < k ==> Selection(targets, release, Candidates(p)[i]) == map[]
  }

  ghost predicate Available(p: Platform, targets: Targets, release: Release) {
    exists k :: 0 <= k < |Candidates(p)| && Selection(targets, release, Candidates(p)[k]) != map[]
  }

  lemma PicksOne(p: Platform, targets: Targets, release: Release, a: string, b: string)
    requires Picks(p, targets, release, a) && Picks(p, targets, release, b)
    ensures a == b
  {
  }

  lemma PicksSome(p: Platform, targets: Targets, release: Release)
    ensures Available(p, targets, release) <==> exists osArch :: Picks(p, targets, release, osArch)
  {
    if Available(p, targets, release) {
      var k :| 0 <= k < |Candidates(p)| && Selection(targets, release, Candidates(p)[k]) != map[];
      FirstBefore(p, targets, release, k);
    }
    if osArch :| Picks(p, targets, release, osArch) {
      var k :| 0 <= k < |Candidates(p)| && Candidates(p)[k] == osArch && FirstAt(p, targets, release, k);
    }
  }

  lemma FirstBefore(p: Platform, targets: Targets, release: Release, k: nat)
    requires k < |Candidates(p)| && Selection(targets, release, Candidates(p)[k]) != map[]
    ensures exists osArch :: Picks(p, targets, release, osArch)
  {
    if i :| 0 <= i < k && Selection(targets, release, Candidates(p)[i]) != map[] {
      FirstBefore(p, targets, release, i);
    } else {
      assert FirstAt(p, targets, release, k);
      assert Picks(p, targets, release, Candidates(p)[k]);
    }
  }

  /** The release has a target for the platform. */
  ghost predicate Under(targets: Targets, release: Release, osArch: string) {
    exists f :: ReleaseTarget(release, f) in targets && f.osArch == osArch
  }

  lemma SelectionMeaning(targets: Targets, release: Release, osArch: string)
    ensures forall f :: f in Selection(targets, release, osArch) <==> ReleaseTarget(release, f) in targets && f.osArch == osArch
    ensures forall f :: f in Selection(targets, release, osArch) ==>
              Selection(targets, release, osArch)[f] == targets[ReleaseTarget(release, f)]
    ensures Selection(targets, release, osArch) != map[] <==> Under(targets, release, osArch)
  {
    var files := Selection(targets, release, osArch);
    forall f | ReleaseTarget(release, f) in targets && f.osArch == osArch ensures f in files {
      assert ReleaseTarget(release, f).file == f;
    }
  }

  /** The platform's own targets are preferred, then those of its system, then those of its architecture, then the general ones. */
  lemma PlatformsOwnFirst(p: Platform, targets: Targets, release: Release, osArch: string)
    requires Picks(p, targets, release, osArch)
    ensures Under(targets, release, osArch)
    ensures osArch == (if Under(targets, release, p.os + "-" + p.arch) then p.os + "-" + p.arch
                       else if Under(targets, release, p.os + "-any") then p.os + "-any"
                       else if Under(targets, release, "any-" + p.arch) then "any-" + p.arch
                       else "any-any")
  {
    SelectionMeaning(targets, release, p.os + "-" + p.arch);
    SelectionMeaning(targets, release, p.os + "-any");
    SelectionMeaning(targets, release, "any-" + p.arch);
    SelectionMeaning(targets, release, "any-any");
    hide Selection, Under;
    var k :| 0 <= k < |Candidates(p)| && Candidates(p)[k] == osArch && FirstAt(p, targets, release, k);
    var c := Candidates(p);
    assert |c| == 4 && c[0] == p.os + "-" + p.arch && c[1] == p.os + "-any" && c[2] == "any-" + p.arch && c[3] == "any-any";
    assert forall i :: 0 <= i < k ==> Selection(targets, release, c[i]) == map[];
    hide Candidates;
    assert k > 0 ==> Selection(targets, release, c[0]) == map[];
    assert k > 1 ==> Selection(targets, release, c[1]) == map[];
    assert k > 2 ==> Selection(targets, release, c[2]) == map[];
  }

  lemma AvailableMeaning(p: Platform, targets: Targets, release: Release)
    ensures Available(p, targets, release) <==>
              || Under(targets, release, p.os + "-" + p.arch) || Under(targets, release, p.os + "-any")
              || Under(targets, release, "any-" + p.arch) || Under(targets, release, "any-any")
  {
    SelectionMeaning(targets, release, p.os + "-" + p.arch);
    SelectionMeaning(targets, release, p.os + "-any");
    SelectionMeaning(targets, release, "any-" + p.arch);
    SelectionMeaning(targets, release, "any-any");
    hide Selection, Under;
    var c := Candidates(p);
    assert |c| == 4 && c[0] == p.os + "-" + p.arch && c[1] == p.os + "-any" && c[2] == "any-" + p.arch && c[3] == "any-any";
  }

  /** Every wanted file is there and matches. */
  ghost predicate Matches(dir: Dir, wanted: Files) {
    forall f :: f in wanted ==> f in dir && wanted[f](dir[f])
  }

  /** The wanted files and nothing else. */
  ghost predicate Complete(dir: Dir, wanted: Files) {
    dir.Keys == wanted.Keys && Matches(dir, wanted)
  }

  // ---------- what an operation may do ----------

  datatype Result = Done | NoUpdate | ChannelMissing | BadConstraint | VersionMissing | NotAvailable | DownloadFailed

  /** The release is up to date on disk, with nothing changed or with its directory replaced. */
  ghost predicate Synced(p: Platform, targets: Targets, release: Release, before: Disk, after: Disk) {
    && release in after.releases
    && exists osArch :: Picks(p, targets, release, osArch) && SyncedTo(Selection(targets, release, osArch), release, before, after)
  }

  ghost predicate SyncedTo(wanted: Files, release: Release, before: Disk, after: Disk)
    requires release in after.releases
  {
    var dir := after.releases[release];
    && Matches(dir, wanted)
    && (after == before || (Complete(dir, wanted) && after == before.(releases := before.releases[release := dir])))
  }

  ghost predicate UpToDate(p: Platform, targets: Targets, release: Release, d: Disk) {
    release in d.releases && exists osArch :: Picks(p, targets, release, osArch) && Matches(d.releases[release], Selection(targets, release, osArch))
  }

  /** A moment of a synchronisation: the release has part of its old directory, none, or the complete new one. */
  ghost predicate IsSyncing(p: Platform, targets: Targets, release: Release, before: Disk, d: Disk) {
    && d == before.(releases := d.releases, tmpReleases := d.tmpReleases)
    && d.releases - {release} == before.releases - {release}
    && (release in d.releases ==>
          || (release in before.releases && Part(d.releases[release], before.releases[release]))
          || (exists osArch :: Picks(p, targets, release, osArch) && Complete(d.releases[release], Selection(targets, release, osArch))))
  }

  ghost predicate Part(dir: Dir, whole: Dir) {
    forall f :: f in dir ==> f in whole && dir[f] == whole[f]
  }

  function ReleaseNames(targets: Targets): set<Release> {
    set t | t in targets && t.ReleaseTarget? :: t.release
  }

  ghost predicate ChannelUpdated(p: Platform, targets: Targets, channel: Channel, before: Disk, after: Disk) {
    && ChannelTarget(channel) in targets && channel in after.channels
    && var meta, text := targets[ChannelTarget(channel)], after.channels[channel];
    && meta(text)
    && (if channel in before.channels && meta(before.channels[channel]) then after.channels == before.channels
        else after.channels == before.channels[channel := text])
    && Synced(p, targets, TrimSpace(text), before, after.(channels := before.channels))
  }

  ghost predicate Pinned(p: Platform, parse: Parse, check: Constraint, targets: Targets, release: Release, now: int, before: Disk, after: Disk) {
    && IsLatest(parse, check, ReleaseNames(targets), release)
    && Synced(p, targets, release, before, after.(pins := before.pins))
    && after.pins == before.pins[release := now]
  }

  /** Some channel file names the release. */
  ghost predicate Named(d: Disk, release: Release) {
    exists c :: c in d.channels && TrimSpace(d.channels[c]) == release
  }

  ghost predicate RecentlyUsed(d: Disk, release: Release, now: int) {
    release in d.uses && d.uses[release] + DAY > now
  }

  ghost predicate Kept(d: Disk, release: Release, now: int) {
    Named(d, release) || release in d.pins || RecentlyUsed(d, release, now)
  }

  ghost function Stale(d: Disk, now: int): set<Release> {
    set r | r in d.releases && !Kept(d, r, now)
  }

  /** The stale releases are gone, and so is the record of their use. */
  ghost function Cleaned(d: Disk, gone: set<Release>): Disk {
    d.(releases := d.releases - gone, uses := d.uses - gone)
  }

  // ---------- the client ----------

  class Client {
    const platform: Platform
    const parse: Parse
    var disk: Disk
    ghost var trace: seq<Disk>

    constructor (platform: Platform, parse: Parse)
      ensures this.platform == platform && this.parse == parse && disk == EMPTY && trace == []
    {
      this.platform, this.parse, disk, trace := platform, parse, EMPTY, [];
    }

    // ---------- the file system, one change at a time ----------

    method Change(after: Disk)
      modifies this`disk, this`trace
      ensures disk == after && trace == old(trace) + [after]
    {
      disk := after;
      trace := trace + [after];
    }

    /** The library downloads, compares with the metadata, and removes what does not match. */
    method DownloadChannel(channel: Channel, meta: Meta) returns (ok: bool)
      requires channel !in disk.tmpChannels
      modifies this`disk, this`trace
      ensures !ok ==> disk == old(disk) && trace == old(trace)
      ensures ok ==> channel in disk.tmpChannels && meta(disk.tmpChannels[channel])
      ensures ok ==> disk == old(disk).(tmpChannels := old(disk).tmpChannels[channel := disk.tmpChannels[channel]])
      ensures ok ==> trace == old(trace) + [disk]
    {
      var content: string := *;
      ok := meta(content);
      if ok {
        Change(disk.(tmpChannels := disk.tmpChannels[channel := content]));
      }
    }

    method DownloadFile(release: Release, file: File, meta: Meta) returns (ok: bool)
      modifies this`disk, this`trace
      ensures !ok ==> disk == old(disk) && trace == old(trace)
      ensures ok ==> release in disk.tmpReleases && file in disk.tmpReleases[release] && meta(disk.tmpReleases[release][file])
      ensures ok ==> disk == old(disk).(tmpReleases := old(disk).tmpReleases[release :=
                       Staged(old(disk), release)[file := disk.tmpReleases[release][file]]])
      ensures ok ==> trace == old(trace) + [disk]
    {
      var content: string := *;
      ok := meta(content);
      if ok {
        Change(disk.(tmpReleases := disk.tmpReleases[release := Staged(disk, release)[file := content]]));
      }
    }

    method RemoveReleaseTmp(release: Release)
      modifies this`disk, this`trace
      ensures disk == old(disk).(tmpReleases := old(disk).tmpReleases - {release}) && trace == old(trace) + [disk]
    {
      Change(disk.(tmpReleases := disk.tmpReleases - {release}));
    }

    /** Removing a directory removes its files one by one, in any order. */
    method RemoveReleaseDir(release: Release)
      modifies this`disk, this`trace
      ensures disk == old(disk).(releases := old(disk).releases - {release})
      ensures Grew(old(trace), trace, Moment.Removing(release, old(disk)))
    {
      ghost var before, moment := disk, Moment.Removing(release, disk);
      GrewStill(trace, moment);
      if release in disk.releases {
        var order := Order(disk.releases[release].Keys);
        for k := 0 to |order|
          invariant release in disk.releases && IsRemoving(release, before, disk)
          invariant Grew(old(trace), trace, moment)
        {
          var after := disk.(releases := disk.releases[release := disk.releases[release] - {order[k]}]);
          RemovingMore(release, before, disk, after.releases[release]);
          GrewOne(old(trace), trace, after, moment);
          hide IsRemoving, Grew, During;
          Change(after);
        }
        RemovingLast(release, before, disk);
        var after := disk.(releases := disk.releases - {release});
        GrewOne(old(trace), trace, after, moment);
        hide IsRemoving, Grew, During;
        Change(after);
      } else {
        assert disk.releases == before.releases - {release};
      }
    }

    method RenameRelease(release: Release)
      requires release in disk.tmpReleases && release !in disk.releases
      modifies this`disk, this`trace
      ensures disk == old(disk).(releases := old(disk).releases[release := old(disk).tmpReleases[release]],
                                 tmpReleases := old(disk).tmpReleases - {release})
      ensures trace == old(trace) + [disk]
    {
      Change(disk.(releases := disk.releases[release := disk.tmpReleases[release]], tmpReleases := disk.tmpReleases - {release}));
    }

    /** The old directory goes before the new one comes. */
    method ReplaceRelease(release: Release)
      requires release in disk.tmpReleases
      modifies this`disk, this`trace
      ensures disk == Replaced(release, old(disk))
      ensures Grew(old(trace), trace, Moment.Replacing(release, old(disk)))
    {
      ghost var before, moment := disk, Moment.Replacing(release, disk);
      GrewStill(trace, moment);
      RemoveReleaseDir(release);
      GrewMore(old(trace), old(trace), trace, moment, Moment.Removing(release, before));
      ghost var was := trace;
      RenameRelease(release);
      assert disk == Replaced(release, before);
      GrewOne(old(trace), was, disk, moment);
    }

    // ---------- synchronising a release ----------

    method SelectAppropriateReleaseTargets(targets: Targets, release: Release) returns (selected: Option<Files>, osArch: string)
      ensures selected.None? <==> !Available(platform, targets, release)
      ensures selected.Some? ==> Picks(platform, targets, release, osArch) && selected.value == Selection(targets, release, osArch)
      ensures selected.Some? ==> Under(targets, release, osArch)
      ensures selected.Some? ==>
                osArch == (if Under(targets, release, platform.os + "-" + platform.arch) then platform.os + "-" + platform.arch
                           else if Under(targets, release, platform.os + "-any") then platform.os + "-any"
                           else if Under(targets, release, "any-" + platform.arch) then "any-" + platform.arch
                           else "any-any")
      ensures selected.Some? ==>
                forall f :: f in selected.value <==> ReleaseTarget(release, f) in targets && f.osArch == osArch
    {
      var candidates := Candidates(platform);
      for k := 0 to |candidates|
        invariant forall i :: 0 <= i < k ==> Selection(targets, release, candidates[i]) == map[]
      {
        var files := Selection(targets, release, candidates[k]);
        if files != map[] {
          assert FirstAt(platform, targets, release, k);
          PlatformsOwnFirst(platform, targets, release, candidates[k]);
          SelectionMeaning(targets, release, candidates[k]);
          return Some(files), candidates[k];
        }
      }
      return None, "";
    }

    method AllUpToDate(release: Release, wanted: Files) returns (upToDate: bool)
      requires wanted != map[]
      ensures upToDate <==> release in disk.releases && Matches(disk.releases[release], wanted)
    {
      var order := Order(wanted.Keys);
      upToDate := true;
      var k := 0;
      while k < |order| && upToDate
        invariant 0 <= k <= |order| && forall i :: 0 <= i < |order| ==> order[i] in wanted
        invariant upToDate ==> forall i :: 0 <= i < k ==> IsUpToDate(disk, release, order[i], wanted[order[i]])
        invariant !upToDate ==> !(release in disk.releases && Matches(disk.releases[release], wanted))
      {
        hide IsUpToDate, Matches;
        upToDate := IsUpToDate(disk, release, order[k], wanted[order[k]]);
        if !upToDate {
          NotAll(disk, release, wanted, order[k]);
        }
        k := k + 1;
      }
      if upToDate {
        AllOf(disk, release, wanted, order);
      }
    }

    /** Downloads every file into the temporary directory, which is removed again when a download fails. */
    method StageRelease(release: Release, wanted: Files) returns (ok: bool)
      requires disk.tmpReleases == map[] && wanted != map[]
      modifies this`disk, this`trace
      ensures ok ==> release in disk.tmpReleases && Complete(disk.tmpReleases[release], wanted)
      ensures ok ==> disk == old(disk).(tmpReleases := map[release := disk.tmpReleases[release]])
      ensures !ok ==> disk == old(disk)
      ensures Grew(old(trace), trace, Moment.Staging(old(disk)))
    {
      ghost var before, moment := disk, Moment.Staging(disk);
      GrewStill(trace, moment);
      var order := Order(wanted.Keys);
      StagedNone(disk, release, wanted, order);
      for k := 0 to |order|
        invariant StagedSome(before, disk, release, wanted, order, k)
        invariant Grew(old(trace), trace, moment)
      {
        hide StagedSome, Grew, During, Complete, Matches;
        ghost var at, was := disk, trace;
        ok := DownloadFile(release, order[k], wanted[order[k]]);
        if !ok {
          GrewOne(old(trace), trace, before, moment);
          StagedDropped(before, disk, release, wanted, order, k);
          RemoveReleaseTmp(release);
          return;
        }
        StagedNext(before, at, disk, release, wanted, order, k);
        GrewOne(old(trace), was, disk, moment);
      }
      StagedAll(before, disk, release, wanted, order);
      return true;
    }

    method SyncChannelRelease(targets: Targets, release: Release) returns (result: Result)
      requires disk.tmpReleases == map[]
      modifies this`disk, this`trace
      ensures result == Done || result == NotAvailable || result == DownloadFailed
      ensures result == NotAvailable <==> !Available(platform, targets, release)
      ensures result == Done ==> Synced(platform, targets, release, old(disk), disk)
      ensures result == Done ==>
                var osArch := if Under(targets, release, platform.os + "-" + platform.arch) then platform.os + "-" + platform.arch
                              else if Under(targets, release, platform.os + "-any") then platform.os + "-any"
                              else if Under(targets, release, "any-" + platform.arch) then "any-" + platform.arch
                              else "any-any";
                && release in disk.releases
                && (forall f :: ReleaseTarget(release, f) in targets && f.osArch == osArch ==>
                      f in disk.releases[release] && targets[ReleaseTarget(release, f)](disk.releases[release][f]))
                && (disk != old(disk) ==>
                      forall f :: f in disk.releases[release] <==> ReleaseTarget(release, f) in targets && f.osArch == osArch)
      ensures result != Done ==> disk == old(disk)
      ensures UpToDate(platform, targets, release, old(disk)) ==> result == Done && disk == old(disk) && trace == old(trace)
      ensures Grew(old(trace), trace, Moment.Syncing(platform, targets, release, old(disk)))
    {
      var selected, osArch := SelectAppropriateReleaseTargets(targets, release);
      if selected.None? {
        UnavailableIsNotUpToDate(platform, targets, release, disk);
        return NotAvailable;
      }
      var wanted := selected.value;
      ghost var before, moment := disk, Moment.Syncing(platform, targets, release, disk);
      PickedUpToDate(platform, targets, release, osArch, disk);
      StagingIsSyncing(platform, targets, release, disk);
      GrewStill(trace, moment);
      hide *;
      var upToDate := AllUpToDate(release, wanted);
      if upToDate {
        SyncedFiles(platform, targets, release, before, disk);
        return Done;
      }
      var ok := StageRelease(release, wanted);
      GrewMore(old(trace), old(trace), trace, moment, Moment.Staging(before));
      if !ok {
        return DownloadFailed;
      }
      ghost var staged, was := disk, trace;
      ReplaceRelease(release);
      ReplacingIsSyncing(platform, targets, release, osArch, before, staged);
      SyncedFiles(platform, targets, release, before, disk);
      GrewMore(old(trace), was, trace, moment, Moment.Replacing(release, staged));
      return Done;
    }

    // ---------- updates ----------

    method RemoveChannelTmp(channel: Channel)
      modifies this`disk, this`trace
      ensures disk == old(disk).(tmpChannels := old(disk).tmpChannels - {channel}) && trace == old(trace) + [disk]
    {
      Change(disk.(tmpChannels := disk.tmpChannels - {channel}));
    }

    method RenameChannel(channel: Channel)
      requires channel in disk.tmpChannels
      modifies this`disk, this`trace
      ensures disk == old(disk).(channels := old(disk).channels[channel := old(disk).tmpChannels[channel]],
                                 tmpChannels := old(disk).tmpChannels - {channel})
      ensures trace == old(trace) + [disk]
    {
      Change(disk.(channels := disk.channels[channel := disk.tmpChannels[channel]], tmpChannels := disk.tmpChannels - {channel}));
    }

    method UpdateChannel(channel: Channel, update: Option<Targets>, now: int) returns (result: Result)
      requires disk.tmpReleases == map[] && disk.tmpChannels == map[]
      modifies this`disk, this`trace
      ensures Step(platform, parse, old(disk), Event(Op.UpdateChannel(channel, update), now, None), disk)
      ensures result == NoUpdate <==> update.None?
      ensures result == ChannelMissing <==> update.Some? && ChannelTarget(channel) !in update.value
      ensures result == Done ==> ChannelUpdated(platform, update.value, channel, old(disk), disk)
      ensures result != Done ==> disk == old(disk)
      ensures update.Some? && Settled(platform, update.value, channel, old(disk)) ==>
                result == Done && disk == old(disk) && trace == old(trace)
      ensures update.Some? ==> Grew(old(trace), trace, Moment.Updating(platform, update.value, channel, old(disk)))
    {
      if update.None? {
        return NoUpdate;
      }
      var targets := update.value;
      if ChannelTarget(channel) !in targets {
        return ChannelMissing;
      }
      var meta := targets[ChannelTarget(channel)];
      if channel in disk.channels && meta(disk.channels[channel]) {
        result := SyncCurrentChannel(channel, targets);
      } else {
        result := SyncNewChannel(channel, targets);
      }
    }

    /** The channel file is up to date: only its release is synchronised. */
    method SyncCurrentChannel(channel: Channel, targets: Targets) returns (result: Result)
      requires disk.tmpReleases == map[] && ChannelTarget(channel) in targets
      requires channel in disk.channels && targets[ChannelTarget(channel)](disk.channels[channel])
      modifies this`disk, this`trace
      ensures result == Done || result == NotAvailable || result == DownloadFailed
      ensures result == Done ==> ChannelUpdated(platform, targets, channel, old(disk), disk)
      ensures result != Done ==> disk == old(disk)
      ensures Settled(platform, targets, channel, old(disk)) ==> result == Done && disk == old(disk) && trace == old(trace)
      ensures Grew(old(trace), trace, Moment.Updating(platform, targets, channel, old(disk)))
    {
      ghost var before, moment := disk, Moment.Updating(platform, targets, channel, disk);
      GrewStill(trace, moment);
      var release := TrimSpace(disk.channels[channel]);
      result := SyncChannelRelease(targets, release);
      SyncingIsUpdating(platform, targets, channel, disk.channels[channel], before, before);
      if result == Done {
        CurrentUpdated(platform, targets, channel, before, disk);
      }
      hide *;
      GrewMore(old(trace), old(trace), trace, moment, Moment.Syncing(platform, targets, release, before));
    }

    /** The new channel file takes its place last, after its release. */
    method SyncNewChannel(channel: Channel, targets: Targets) returns (result: Result)
      requires disk.tmpReleases == map[] && disk.tmpChannels == map[] && ChannelTarget(channel) in targets
      requires !(channel in disk.channels && targets[ChannelTarget(channel)](disk.channels[channel]))
      modifies this`disk, this`trace
      ensures result == Done || result == NotAvailable || result == DownloadFailed
      ensures result == Done ==> ChannelUpdated(platform, targets, channel, old(disk), disk)
      ensures result != Done ==> disk == old(disk)
      ensures Grew(old(trace), trace, Moment.Updating(platform, targets, channel, old(disk)))
    {
      ghost var before, moment := disk, Moment.Updating(platform, targets, channel, disk);
      GrewStill(trace, moment);
      var ok := DownloadChannel(channel, targets[ChannelTarget(channel)]);
      if !ok {
        return DownloadFailed;
      }
      ghost var staged, was := disk, trace;
      var text := disk.tmpChannels[channel];
      StagedChannel(platform, targets, channel, before, staged);
      SyncingIsUpdating(platform, targets, channel, text, before, staged);
      hide *;
      GrewOne(old(trace), old(trace), staged, moment);
      result := SyncChannelRelease(targets, TrimSpace(text));
      GrewMore(old(trace), was, trace, moment, Moment.Syncing(platform, targets, TrimSpace(text), staged));
      ghost var synced := disk;
      was := trace;
      if result != Done {
        RemoveChannelTmp(channel);
        UnstagedChannel(platform, targets, channel, text, before, disk);
        GrewOne(old(trace), was, disk, moment);
        return;
      }
      SyncedKeepsTmp(platform, targets, TrimSpace(text), staged, synced);
      RenameChannel(channel);
      NewUpdated(platform, targets, channel, before, staged, synced, disk);
      GrewOne(old(trace), was, disk, moment);
    }

    method FindRelease(targets: Targets, check: Constraint) returns (release: Option<Release>)
      ensures release.None? <==> forall r :: r in ReleaseNames(targets) ==> !Admits(parse, check, r)
      ensures release.Some? ==> IsLatest(parse, check, ReleaseNames(targets), release.value)
      ensures forall r, f :: ReleaseTarget(r, f) in targets && parse(r).Some? && check(parse(r).value) ==>
                release.Some? && !NumbersAbove(parse(r).value, parse(release.value).value)
    {
      var order := Order(ReleaseNames(targets));
      assert Names(order) == ReleaseNames(targets);
      release := Latest(parse, check, order);
      NoneAbove(parse, check, targets, release);
    }

    method UpdateToVersion(check: Option<Constraint>, update: Option<Targets>, now: int) returns (result: Result, release: Option<Release>)
      requires disk.tmpReleases == map[]
      modifies this`disk, this`trace
      ensures Step(platform, parse, old(disk), Event(Op.UpdateToVersion(check, update), now, release), disk)
      ensures result == Done <==> release.Some?
      ensures result == NoUpdate <==> update.None?
      ensures result == BadConstraint <==> update.Some? && check.None?
      ensures result == VersionMissing <==>
                update.Some? && check.Some? && forall r :: r in ReleaseNames(update.value) ==> !Admits(parse, check.value, r)
      ensures result != Done ==> disk == old(disk)
      ensures release.Some? ==> release.value in disk.pins && parse(release.value).Some? && check.value(parse(release.value).value)
      ensures release.Some? ==> forall r, f :: ReleaseTarget(r, f) in update.value && parse(r).Some? && check.value(parse(r).value) ==>
                !NumbersAbove(parse(r).value, parse(release.value).value)
      ensures update.Some? && check.Some? ==>
                Grew(old(trace), trace, Moment.Versioning(platform, parse, check.value, update.value, old(disk)))
    {
      hide IsLatest, Synced, Grew, Admits;
      release := None;
      if update.None? {
        return NoUpdate, None;
      }
      if check.None? {
        return BadConstraint, None;
      }
      GrewStill(trace, Moment.Versioning(platform, parse, check.value, update.value, disk));
      var found := FindRelease(update.value, check.value);
      if found.None? {
        return VersionMissing, None;
      }
      AdmitsMeaning(parse, check.value, ReleaseNames(update.value), found.value);
      result := InstallVersion(update.value, check.value, found.value, now);
      release := if result == Done then found else None;
    }

    /** The pin is set only after the release is in place. */
    method InstallVersion(targets: Targets, check: Constraint, release: Release, now: int) returns (result: Result)
      requires disk.tmpReleases == map[] && IsLatest(parse, check, ReleaseNames(targets), release)
      modifies this`disk, this`trace
      ensures result == Done || result == NotAvailable || result == DownloadFailed
      ensures result == Done ==> Pinned(platform, parse, check, targets, release, now, old(disk), disk) && release in disk.pins
      ensures result != Done ==> disk == old(disk)
      ensures Grew(old(trace), trace, Moment.Versioning(platform, parse, check, targets, old(disk)))
    {
      ghost var before, moment := disk, Moment.Versioning(platform, parse, check, targets, disk);
      GrewStill(trace, moment);
      SyncingIsVersioning(platform, parse, check, targets, release, disk);
      hide Grew, During, Synced, IsSyncing, IsLatest, UpToDate, Available;
      result := SyncChannelRelease(targets, release);
      GrewMore(old(trace), old(trace), trace, moment, Moment.Syncing(platform, targets, release, before));
      if result != Done {
        return;
      }
      ghost var synced, was := disk, trace;
      PinningIsVersioning(platform, parse, check, targets, release, before, synced);
      ResetPin(release, now);
      GrewMore(old(trace), was, trace, moment, Moment.Pinning(release, synced));
      assert disk.(pins := before.pins) == synced;
    }

    // ---------- last use and pins ----------

    method ResetPin(release: Release, now: int)
      modifies this`disk, this`trace
      ensures disk == old(disk).(pins := old(disk).pins[release := now])
      ensures Grew(old(trace), trace, Moment.Pinning(release, old(disk)))
    {
      if release in disk.pins {
        Change(disk.(pins := disk.pins - {release}));
      }
      Change(disk.(pins := disk.pins[release := now]));
    }

    method ResetUse(release: Release, now: int)
      modifies this`disk, this`trace
      ensures disk == old(disk).(uses := old(disk).uses[release := now])
      ensures Grew(old(trace), trace, Moment.Using(release, old(disk)))
    {
      if release in disk.uses {
        Change(disk.(uses := disk.uses - {release}));
      }
      Change(disk.(uses := disk.uses[release := now]));
    }

    method GetChannelRelease(channel: Channel, now: int) returns (release: Option<Release>)
      modifies this`disk, this`trace
      ensures Step(platform, parse, old(disk), Event(Op.UseChannel(channel), now, release), disk)
      ensures if release.None? then trace == old(trace) else Grew(old(trace), trace, Moment.Using(release.value, old(disk)))
    {
      if channel !in disk.channels {
        return None;
      }
      var name := TrimSpace(disk.channels[channel]);
      ResetUse(name, now);
      return Some(name);
    }

    /** The only directory below the release's own. */
    method FindReleaseDir(release: Release) returns (found: Option<string>, several: bool)
      ensures found.Some? <==> release in disk.releases && OneChild(disk.releases[release])
      ensures found.Some? ==> forall f :: f in disk.releases[release] ==> f.osArch == found.value
      ensures several ==> found.None? && release in disk.releases && disk.releases[release] != map[]
      ensures found.None? && !several ==> release !in disk.releases || disk.releases[release] == map[]
    {
      if release !in disk.releases {
        return None, false;
      }
      var dir := disk.releases[release];
      var matches := Order(set f | f in dir :: f.osArch);
      ChildrenCounted(dir, matches);
      if |matches| > 1 {
        return None, true;
      } else if |matches| == 0 {
        return None, false;
      }
      return Some(matches[0]), false;
    }

    method FindLocalReleaseByVersion(check: Option<Constraint>) returns (release: Option<Release>)
      ensures release.None? <==> check.None? || forall r :: r in disk.pins ==> !Admits(parse, check.value, r)
      ensures release.Some? ==> IsLatest(parse, check.value, disk.pins.Keys, release.value)
      ensures check.Some? ==> forall r :: r in disk.pins && parse(r).Some? && check.value(parse(r).value) ==>
                release.Some? && !NumbersAbove(parse(r).value, parse(release.value).value)
    {
      if check.None? {
        return None;
      }
      var order := Order(disk.pins.Keys);
      assert Names(order) == disk.pins.Keys;
      release := Latest(parse, check.value, order);
      forall r | r in disk.pins && parse(r).Some? && check.value(parse(r).value)
        ensures release.Some? && !NumbersAbove(parse(r).value, parse(release.value).value)
      {
        assert Admits(parse, check.value, r);
        LatestIsGreatest(parse, check.value, disk.pins.Keys, release.value, r);
      }
    }

    // ---------- cleaning ----------

    method GetActualLocalReleases() returns (actual: set<Release>)
      ensures forall r :: r in actual <==> Named(disk, r)
    {
      actual := {};
      var order := Order(disk.channels.Keys);
      for k := 0 to |order|
        invariant forall r :: r in actual <==> exists i :: 0 <= i < k && TrimSpace(disk.channels[order[i]]) == r
      {
        actual := actual + {TrimSpace(disk.channels[order[k]])};
      }
      forall r | Named(disk, r) ensures r in actual {
        var c :| c in disk.channels && TrimSpace(disk.channels[c]) == r;
        assert c in order;
      }
    }

    method CleanReleases(now: int)
      modifies this`disk, this`trace
      ensures Step(platform, parse, old(disk), Event(Op.CleanReleases, now, None), disk)
      ensures Grew(old(trace), trace, Moment.Cleaning(now, old(disk)))
    {
      ghost var before, moment := disk, Moment.Cleaning(now, disk);
      ghost var gone := {};
      GrewStill(trace, moment);
      assert disk == Cleaned(before, gone);
      var actual := GetActualLocalReleases();
      var order := Order(disk.releases.Keys);
      for k := 0 to |order|
        invariant disk == Cleaned(before, gone) && Grew(old(trace), trace, moment)
        invariant forall r :: r in gone <==> r in order[..k] && !Kept(before, r, now)
      {
        hide Cleaned, Grew, During, Named;
        assert order[..k + 1] == order[..k] + [order[k]];
        var release := order[k];
        assert release !in order[..k];
        CleanedAt(before, gone, release);
        var recent := HasBeenModifiedWithinPeriod(release, now);
        if release !in actual && !recent && release !in disk.pins {
          ForgettingIsCleaning(now, before, gone, release);
          ghost var at, was := disk, trace;
          gone := gone + {release};
          ForgetRelease(release);
          GrewMore(old(trace), was, trace, moment, Moment.Forgetting(release, at));
        }
      }
      assert order[..|order|] == order;
      assert gone == Stale(before, now);
    }

    method HasBeenModifiedWithinPeriod(release: Release, now: int) returns (recent: bool)
      ensures recent <==> RecentlyUsed(disk, release, now)
    {
      return release in disk.uses && disk.uses[release] + DAY > now;
    }

    /** The record of the last use goes first, then the directory. */
    method ForgetRelease(release: Release)
      modifies this`disk, this`trace
      ensures disk == Cleaned(old(disk), {release})
      ensures Grew(old(trace), trace, Moment.Forgetting(release, old(disk)))
    {
      ghost var before, moment := disk, Moment.Forgetting(release, disk);
      var after := disk.(uses := disk.uses - {release});
      GrewStill(trace, moment);
      if release in disk.uses {
        GrewOne(old(trace), trace, after, moment);
        Change(after);
      }
      assert disk == after;
      hide Grew;
      ghost var was := trace;
      RemoveReleaseDir(release);
      GrewMore(old(trace), was, trace, moment, Moment.Removing(release, after));
    }
  }

  lemma CleanedAt(before: Disk, gone: set<Release>, release: Release)
    requires release !in gone
    ensures var d := Cleaned(before, gone);
            && (release in d.uses <==> release in before.uses) && (release in d.uses ==> d.uses[release] == before.uses[release])
            && d.pins == before.pins && Cleaned(d, {release}) == Cleaned(before, gone + {release})
  {
    var d := Cleaned(before, gone);
    assert before.releases - gone - {release} == before.releases - (gone + {release});
    assert before.uses - gone - {release} == before.uses - (gone + {release});
  }

  lemma ForgettingIsCleaning(now: int, before: Disk, gone: set<Release>, release: Release)
    requires !Kept(before, release, now) && forall r :: r in gone ==> !Kept(before, r, now)
    ensures forall d :: During(Moment.Forgetting(release, Cleaned(before, gone)), d) ==> During(Moment.Cleaning(now, before), d)
  {
    hide Kept;
    forall d | During(Moment.Forgetting(release, Cleaned(before, gone)), d) ensures IsCleaning(now, before, d) {
      RemovingKeeps(release, Cleaned(before, gone).(uses := before.uses - gone - {release}), d);
    }
  }

  lemma RemovingKeeps(release: Release, before: Disk, d: Disk)
    requires IsRemoving(release, before, d)
    ensures forall r :: r in before.releases && r != release ==> r in d.releases && d.releases[r] == before.releases[r]
    ensures forall r :: r in d.releases ==> r in before.releases && Part(d.releases[r], before.releases[r])
  {
    forall r | r != release && (r in before.releases || r in d.releases)
      ensures r in before.releases && r in d.releases && d.releases[r] == before.releases[r]
    {
      assert r in before.releases - {release} <==> r in d.releases - {release};
      assert (before.releases - {release})[r] == (d.releases - {release})[r];
    }
  }

  // ---------- operations and runs ----------

  datatype Op =
    | UpdateChannel(channel: Channel, update: Option<Targets>)
    | UpdateToVersion(check: Option<Constraint>, update: Option<Targets>)
    | UseChannel(channel: Channel)
    | CleanReleases

  datatype Event = Event(op: Op, at: int, answer: Option<Release>)

  /** What an operation may make of the disk. An operation that fails leaves it as it was. */
  ghost predicate Step(p: Platform, parse: Parse, before: Disk, e: Event, after: Disk) {
    match e.op
    case UpdateChannel(channel, update) =>
      after == before || (update.Some? && ChannelUpdated(p, update.value, channel, before, after))
    case UpdateToVersion(check, update) =>
      if e.answer.None? then after == before
      else check.Some? && update.Some? && Pinned(p, parse, check.value, update.value, e.answer.value, e.at, before, after)
    case UseChannel(channel) =>
      if channel !in before.channels then e.answer.None? && after == before
      else
        var release := TrimSpace(before.channels[channel]);
        e.answer == Some(release) && after == before.(uses := before.uses[release := e.at])
    case CleanReleases => after == Cleaned(before, Stale(before, e.at))
  }

  /** The channel file and its release are up to date. */
  ghost predicate Settled(p: Platform, targets: Targets, channel: Channel, d: Disk) {
    && ChannelTarget(channel) in targets && channel in d.channels
    && targets[ChannelTarget(channel)](d.channels[channel])
    && UpToDate(p, targets, TrimSpace(d.channels[channel]), d)
  }

  /** Exactly one directory, with something in it. */
  ghost predicate OneChild(dir: Dir) {
    dir != map[] && forall f, g :: f in dir && g in dir ==> f.osArch == g.osArch
  }

  lemma ChildrenCounted(dir: Dir, matches: seq<string>)
    requires forall k :: k in matches <==> k in set f | f in dir :: f.osArch
    requires forall i, j :: 0 <= i < j < |matches| ==> matches[i] != matches[j]
    ensures |matches| == 0 <==> dir == map[]
    ensures |matches| == 1 <==> OneChild(dir)
    ensures |matches| == 1 ==> forall f :: f in dir ==> f.osArch == matches[0]
  {
    forall f | f in dir ensures f.osArch in matches { }
    if |matches| > 0 {
      assert matches[0] in matches;
    }
    if |matches| > 1 {
      assert matches[1] in matches && matches[0] != matches[1];
    }
    if dir != map[] {
      var f :| f in dir;
      assert f.osArch in matches;
    }
  }

  lemma SyncingIsUpdating(p: Platform, targets: Targets, channel: Channel, text: string, before: Disk, staged: Disk)
    requires ChannelTarget(channel) in targets && targets[ChannelTarget(channel)](text)
    requires staged == before.(tmpChannels := staged.tmpChannels)
    ensures forall d :: During(Moment.Syncing(p, targets, TrimSpace(text), staged), d) ==>
              During(Moment.Updating(p, targets, channel, before), d)
  {
  }

  lemma CurrentUpdated(p: Platform, targets: Targets, channel: Channel, before: Disk, after: Disk)
    requires ChannelTarget(channel) in targets && channel in before.channels
    requires targets[ChannelTarget(channel)](before.channels[channel])
    requires Synced(p, targets, TrimSpace(before.channels[channel]), before, after)
    ensures ChannelUpdated(p, targets, channel, before, after)
  {
  }

  lemma StagedChannel(p: Platform, targets: Targets, channel: Channel, before: Disk, staged: Disk)
    requires ChannelTarget(channel) in targets && before.tmpChannels == map[] && channel in staged.tmpChannels
    requires staged == before.(tmpChannels := before.tmpChannels[channel := staged.tmpChannels[channel]])
    requires targets[ChannelTarget(channel)](staged.tmpChannels[channel])
    ensures staged.tmpChannels - {channel} == map[] && staged.(tmpChannels := map[]) == before
    ensures During(Moment.Updating(p, targets, channel, before), staged)
  {
    var text := staged.tmpChannels[channel];
    assert IsSyncing(p, targets, TrimSpace(text), before, staged.(tmpChannels := before.tmpChannels));
  }

  lemma UnstagedChannel(p: Platform, targets: Targets, channel: Channel, text: string, before: Disk, d: Disk)
    requires ChannelTarget(channel) in targets && targets[ChannelTarget(channel)](text) && d == before
    ensures During(Moment.Updating(p, targets, channel, before), d)
  {
    assert IsSyncing(p, targets, TrimSpace(text), before, d.(tmpChannels := before.tmpChannels));
  }

  lemma SyncedKeepsTmp(p: Platform, targets: Targets, release: Release, before: Disk, after: Disk)
    requires Synced(p, targets, release, before, after)
    ensures after == before.(releases := after.releases)
  {
  }

  lemma NewUpdated(p: Platform, targets: Targets, channel: Channel, before: Disk, staged: Disk, synced: Disk, after: Disk)
    requires ChannelTarget(channel) in targets && channel in staged.tmpChannels
    requires staged.(tmpChannels := map[]) == before && staged.tmpChannels - {channel} == map[]
    requires !(channel in before.channels && targets[ChannelTarget(channel)](before.channels[channel]))
    requires targets[ChannelTarget(channel)](staged.tmpChannels[channel])
    requires Synced(p, targets, TrimSpace(staged.tmpChannels[channel]), staged, synced)
    requires synced == staged.(releases := synced.releases)
    requires after == synced.(channels := synced.channels[channel := synced.tmpChannels[channel]],
                              tmpChannels := synced.tmpChannels - {channel})
    ensures ChannelUpdated(p, targets, channel, before, after)
    ensures During(Moment.Updating(p, targets, channel, before), after)
  {
    hide Picks, Selection, Matches, Complete, IsSyncingFor;
    assert after.(channels := before.channels) == synced.(tmpChannels := map[]);
    SyncedElsewhere(p, targets, TrimSpace(staged.tmpChannels[channel]), staged, synced);
  }

  lemma SyncedElsewhere(p: Platform, targets: Targets, release: Release, before: Disk, after: Disk)
    requires Synced(p, targets, release, before, after)
    ensures Synced(p, targets, release, before.(tmpChannels := map[]), after.(tmpChannels := map[]))
  {
    hide Picks, Selection, Matches, Complete;
    var osArch :| Picks(p, targets, release, osArch) && SyncedTo(Selection(targets, release, osArch), release, before, after);
    assert SyncedTo(Selection(targets, release, osArch), release, before.(tmpChannels := map[]), after.(tmpChannels := map[]));
  }

  lemma SyncingIsVersioning(p: Platform, parse: Parse, check: Constraint, targets: Targets, release: Release, before: Disk)
    requires IsLatest(parse, check, ReleaseNames(targets), release)
    ensures forall d :: During(Moment.Syncing(p, targets, release, before), d) ==>
              During(Moment.Versioning(p, parse, check, targets, before), d)
  {
    hide IsLatest, IsSyncing, Synced;
  }

  lemma PinningIsVersioning(p: Platform, parse: Parse, check: Constraint, targets: Targets, release: Release, before: Disk, synced: Disk)
    requires IsLatest(parse, check, ReleaseNames(targets), release) && Synced(p, targets, release, before, synced)
    ensures synced.pins == before.pins
    ensures forall d :: During(Moment.Pinning(release, synced), d) ==>
              During(Moment.Versioning(p, parse, check, targets, before), d)
  {
    hide IsLatest, IsSyncing;
    SyncedKeepsTmp(p, targets, release, before, synced);
    forall d | During(Moment.Pinning(release, synced), d) ensures During(Moment.Versioning(p, parse, check, targets, before), d) {
      assert d.(pins := before.pins) == synced;
    }
  }

  lemma AdmitsMeaning(parse: Parse, check: Constraint, names: set<string>, best: string)
    requires IsLatest(parse, check, names, best)
    ensures parse(best).Some? && check(parse(best).value)
  {
  }

  /** No release among the targets that the constraint admits has greater numbers than the answer. */
  lemma NoneAbove(parse: Parse, check: Constraint, targets: Targets, release: Option<Release>)
    requires release.None? ==> forall r :: r in ReleaseNames(targets) ==> !Admits(parse, check, r)
    requires release.Some? ==> IsLatest(parse, check, ReleaseNames(targets), release.value)
    ensures forall r, f :: ReleaseTarget(r, f) in targets && parse(r).Some? && check(parse(r).value) ==>
              release.Some? && parse(release.value).Some? && !NumbersAbove(parse(r).value, parse(release.value).value)
  {
    forall r, f | ReleaseTarget(r, f) in targets && parse(r).Some? && check(parse(r).value)
      ensures release.Some? && parse(release.value).Some? && !NumbersAbove(parse(r).value, parse(release.value).value)
    {
      assert ReleaseTarget(r, f).release == r && r in ReleaseNames(targets) && Admits(parse, check, r);
      LatestIsGreatest(parse, check, ReleaseNames(targets), release.value, r);
    }
  }

  /** After a synchronisation the preferred targets match, and a directory that was replaced has no other files. */
  lemma SyncedFiles(p: Platform, targets: Targets, release: Release, before: Disk, after: Disk)
    requires Synced(p, targets, release, before, after)
    ensures var osArch := if Under(targets, release, p.os + "-" + p.arch) then p.os + "-" + p.arch
                          else if Under(targets, release, p.os + "-any") then p.os + "-any"
                          else if Under(targets, release, "any-" + p.arch) then "any-" + p.arch
                          else "any-any";
            && release in after.releases
            && (forall f :: ReleaseTarget(release, f) in targets && f.osArch == osArch ==>
                  f in after.releases[release] && targets[ReleaseTarget(release, f)](after.releases[release][f]))
            && (after != before ==>
                  forall f :: f in after.releases[release] <==> ReleaseTarget(release, f) in targets && f.osArch == osArch)
  {
    hide Picks, Selection, Under;
    var osArch :| Picks(p, targets, release, osArch) && SyncedTo(Selection(targets, release, osArch), release, before, after);
    PlatformsOwnFirst(p, targets, release, osArch);
    SelectionMeaning(targets, release, osArch);
  }

  predicate IsUpToDate(d: Disk, release: Release, file: File, meta: Meta) {
    release in d.releases && file in d.releases[release] && meta(d.releases[release][file])
  }

  lemma NotAll(d: Disk, release: Release, wanted: Files, file: File)
    requires file in wanted && !IsUpToDate(d, release, file, wanted[file])
    ensures !(release in d.releases && Matches(d.releases[release], wanted))
  {
  }

  lemma AllOf(d: Disk, release: Release, wanted: Files, order: seq<File>)
    requires wanted != map[] && forall f :: f in order <==> f in wanted.Keys
    requires forall i :: 0 <= i < |order| ==> order[i] in wanted && IsUpToDate(d, release, order[i], wanted[order[i]])
    ensures release in d.releases && Matches(d.releases[release], wanted)
  {
    var f :| f in wanted;
    assert f in order;
    forall f | f in wanted ensures IsUpToDate(d, release, f, wanted[f]) {
      assert f in order;
    }
  }

  /** What an operation is in the middle of, and the disk it started from. */
  datatype Moment =
    | Staging(before: Disk)
    | Removing(release: Release, before: Disk)
    | Replacing(release: Release, before: Disk)
    | Syncing(p: Platform, targets: Targets, release: Release, before: Disk)
    | Updating(p: Platform, targets: Targets, channel: Channel, before: Disk)
    | Pinning(release: Release, before: Disk)
    | Versioning(p: Platform, parse: Parse, check: Constraint, targets: Targets, before: Disk)
    | Using(release: Release, before: Disk)
    | Forgetting(release: Release, before: Disk)
    | Cleaning(now: int, before: Disk)

  ghost predicate During(m: Moment, d: Disk) {
    match m
    case Staging(before) => IsStaging(before, d)
    case Removing(release, before) => IsRemoving(release, before, d)
    case Replacing(release, before) =>
      IsRemoving(release, before, d) || (release in before.tmpReleases && d == Replaced(release, before))
    case Syncing(p, targets, release, before) => IsSyncing(p, targets, release, before, d)
    case Updating(p, targets, channel, before) =>
      IsSyncingFor(p, targets, channel, before, d) || ChannelUpdated(p, targets, channel, before, d)
    case Pinning(release, before) => d == before.(pins := d.pins) && d.pins - {release} == before.pins - {release}
    case Versioning(p, parse, check, targets, before) => IsVersioning(p, parse, check, targets, before, d)
    case Using(release, before) => d == before.(uses := d.uses) && d.uses - {release} == before.uses - {release}
    case Forgetting(release, before) => IsRemoving(release, before.(uses := before.uses - {release}), d)
    case Cleaning(now, before) => IsCleaning(now, before, d)
  }

  /** A moment of the synchronisation of the release that some matching channel file names. */
  ghost predicate IsSyncingFor(p: Platform, targets: Targets, channel: Channel, before: Disk, d: Disk) {
    ChannelTarget(channel) in targets && exists text ::
      targets[ChannelTarget(channel)](text) && IsSyncing(p, targets, TrimSpace(text), before, d.(tmpChannels := before.tmpChannels))
  }

  /** A moment of the synchronisation of the latest release the constraint admits, or of its pinning. */
  ghost predicate IsVersioning(p: Platform, parse: Parse, check: Constraint, targets: Targets, before: Disk, d: Disk) {
    exists release :: IsLatest(parse, check, ReleaseNames(targets), release) && IsPinning(p, targets, release, before, d)
  }

  ghost predicate IsPinning(p: Platform, targets: Targets, release: Release, before: Disk, d: Disk) {
    || IsSyncing(p, targets, release, before, d)
    || (d.pins - {release} == before.pins - {release} && Synced(p, targets, release, before, d.(pins := before.pins)))
  }

  /** A moment of a cleaning: what is kept is whole. */
  ghost predicate IsCleaning(now: int, before: Disk, d: Disk) {
    && d == before.(releases := d.releases, uses := d.uses)
    && (forall r :: r in before.releases && Kept(before, r, now) ==> r in d.releases && d.releases[r] == before.releases[r])
    && (forall r :: r in d.releases ==> r in before.releases && Part(d.releases[r], before.releases[r]))
  }

  /** Every disk that has been added to the trace belongs to such a moment. */
  ghost predicate Grew(was: seq<Disk>, now: seq<Disk>, m: Moment) {
    was <= now && forall i :: |was| <= i < |now| ==> During(m, now[i])
  }

  lemma GrewStill(was: seq<Disk>, m: Moment)
    ensures Grew(was, was, m)
  {
  }

  lemma GrewOne(was: seq<Disk>, now: seq<Disk>, d: Disk, m: Moment)
    requires Grew(was, now, m) && During(m, d)
    ensures Grew(was, now + [d], m)
  {
  }

  lemma GrewMore(was: seq<Disk>, now: seq<Disk>, next: seq<Disk>, m: Moment, n: Moment)
    requires Grew(was, now, m) && Grew(now, next, n) && forall d :: During(n, d) ==> During(m, d)
    ensures Grew(was, next, m)
  {
  }

  /** A moment of a removal. */
  ghost predicate IsRemoving(release: Release, before: Disk, d: Disk) {
    && d == before.(releases := d.releases)
    && d.releases - {release} == before.releases - {release}
    && (release in d.releases ==> release in before.releases && Part(d.releases[release], before.releases[release]))
  }

  lemma RemovingMore(release: Release, before: Disk, d: Disk, dir: Dir)
    requires IsRemoving(release, before, d) && release in d.releases && Part(dir, d.releases[release])
    ensures IsRemoving(release, before, d.(releases := d.releases[release := dir]))
  {
    assert d.releases[release := dir] - {release} == d.releases - {release};
  }

  lemma RemovingLast(release: Release, before: Disk, d: Disk)
    requires IsRemoving(release, before, d)
    ensures d.(releases := d.releases - {release}) == before.(releases := before.releases - {release})
    ensures IsRemoving(release, before, d.(releases := d.releases - {release}))
  {
    assert d.releases - {release} - {release} == d.releases - {release};
  }

  function Replaced(release: Release, d: Disk): Disk
    requires release in d.tmpReleases
  {
    d.(releases := d.releases[release := d.tmpReleases[release]], tmpReleases := d.tmpReleases - {release})
  }

  /** A moment of the downloads. */
  ghost predicate IsStaging(before: Disk, d: Disk) {
    d == before.(tmpReleases := d.tmpReleases)
  }

  /** The first k files of the order have been staged. */
  ghost predicate StagedSome(before: Disk, d: Disk, release: Release, wanted: Files, order: seq<File>, k: nat)
    requires k <= |order|
  {
    var dir := Staged(d, release);
    && d == before.(tmpReleases := if k == 0 then map[] else map[release := dir])
    && (forall f :: f in dir <==> f in order[..k])
    && (forall f :: f in dir ==> f in wanted && wanted[f](dir[f]))
  }

  lemma StagedNone(d: Disk, release: Release, wanted: Files, order: seq<File>)
    requires d.tmpReleases == map[]
    ensures StagedSome(d, d, release, wanted, order, 0)
  {
  }

  lemma StagedDropped(before: Disk, d: Disk, release: Release, wanted: Files, order: seq<File>, k: nat)
    requires before.tmpReleases == map[] && k <= |order| && StagedSome(before, d, release, wanted, order, k)
    ensures d.(tmpReleases := d.tmpReleases - {release}) == before
  {
    assert d.tmpReleases - {release} == map[];
  }

  lemma StagedNext(before: Disk, d: Disk, next: Disk, release: Release, wanted: Files, order: seq<File>, k: nat)
    requires k < |order| && StagedSome(before, d, release, wanted, order, k) && order[k] in wanted
    requires release in next.tmpReleases && order[k] in next.tmpReleases[release]
    requires wanted[order[k]](next.tmpReleases[release][order[k]])
    requires next == d.(tmpReleases := d.tmpReleases[release :=
                          Staged(d, release)[order[k] := next.tmpReleases[release][order[k]]]])
    ensures StagedSome(before, next, release, wanted, order, k + 1)
    ensures During(Moment.Staging(before), next)
  {
    assert order[..k + 1] == order[..k] + [order[k]];
  }

  lemma StagedAll(before: Disk, d: Disk, release: Release, wanted: Files, order: seq<File>)
    requires StagedSome(before, d, release, wanted, order, |order|) && wanted != map[]
    requires forall f :: f in order <==> f in wanted.Keys
    ensures release in d.tmpReleases && Complete(d.tmpReleases[release], wanted)
    ensures d == before.(tmpReleases := map[release := d.tmpReleases[release]])
  {
    assert order[..|order|] == order;
    var f :| f in wanted;
    assert f in order;
  }

  lemma UnavailableIsNotUpToDate(p: Platform, targets: Targets, release: Release, d: Disk)
    requires !Available(p, targets, release)
    ensures !UpToDate(p, targets, release, d)
  {
    PicksSome(p, targets, release);
    hide Picks;
  }

  lemma PickedUpToDate(p: Platform, targets: Targets, release: Release, osArch: string, d: Disk)
    requires Picks(p, targets, release, osArch)
    ensures Available(p, targets, release) && Selection(targets, release, osArch) != map[]
    ensures UpToDate(p, targets, release, d) <==> release in d.releases && Matches(d.releases[release], Selection(targets, release, osArch))
    ensures UpToDate(p, targets, release, d) ==> Synced(p, targets, release, d, d)
  {
    forall a | Picks(p, targets, release, a) ensures a == osArch {
      PicksOne(p, targets, release, a, osArch);
    }
  }

  lemma StagingIsSyncing(p: Platform, targets: Targets, release: Release, before: Disk)
    ensures forall d :: During(Moment.Staging(before), d) ==> During(Moment.Syncing(p, targets, release, before), d)
  {
  }

  lemma ReplacingIsSyncing(p: Platform, targets: Targets, release: Release, osArch: string, before: Disk, staged: Disk)
    requires Picks(p, targets, release, osArch) && release in staged.tmpReleases && before.tmpReleases == map[]
    requires Complete(staged.tmpReleases[release], Selection(targets, release, osArch))
    requires staged == before.(tmpReleases := map[release := staged.tmpReleases[release]])
    ensures forall d :: During(Moment.Replacing(release, staged), d) ==> During(Moment.Syncing(p, targets, release, before), d)
    ensures Synced(p, targets, release, before, Replaced(release, staged))
  {
    var dir, after := staged.tmpReleases[release], Replaced(release, staged);
    assert staged.tmpReleases - {release} == before.tmpReleases;
    assert after == before.(releases := before.releases[release := dir]);
    hide Picks, Selection, Complete, Replaced;
    ReplacedIsSynced(p, targets, release, osArch, before, after);
    RemovingIsSyncing(p, targets, release, before, staged);
  }

  lemma ReplacedIsSynced(p: Platform, targets: Targets, release: Release, osArch: string, before: Disk, after: Disk)
    requires Picks(p, targets, release, osArch) && release in after.releases
    requires Complete(after.releases[release], Selection(targets, release, osArch))
    requires after == before.(releases := before.releases[release := after.releases[release]])
    ensures IsSyncing(p, targets, release, before, after) && Synced(p, targets, release, before, after)
  {
    hide Picks, Selection;
    assert after.releases - {release} == before.releases - {release};
  }

  lemma RemovingIsSyncing(p: Platform, targets: Targets, release: Release, before: Disk, staged: Disk)
    requires staged == before.(tmpReleases := staged.tmpReleases)
    ensures forall d :: IsRemoving(release, staged, d) ==> IsSyncing(p, targets, release, before, d)
  {
    hide Picks, Selection, Complete;
  }

  function Staged(d: Disk, release: Release): Dir {
    if release in d.tmpReleases then d.tmpReleases[release] else map[]
  }

  // ---------- reference integrity ----------

  ghost predicate Whole(d: Disk, release: Release) {
    release in d.releases && OneChild(d.releases[release])
  }

  ghost predicate Referenced(d: Disk, release: Release) {
    Named(d, release) || release in d.pins
  }

  /** Between two operations: every release is whole, every reference leads to one, and nothing temporary is left. */
  ghost predicate Sound(d: Disk) {
    && d.tmpChannels == map[] && d.tmpReleases == map[]
    && (forall r :: r in d.releases ==> OneChild(d.releases[r]))
    && (forall r :: Referenced(d, r) ==> r in d.releases)
  }

  lemma SelectionIsOneChild(targets: Targets, release: Release, osArch: string, dir: Dir)
    requires Selection(targets, release, osArch) != map[] && Complete(dir, Selection(targets, release, osArch))
    ensures OneChild(dir)
  {
    var f :| f in Selection(targets, release, osArch);
    assert f in dir.Keys;
  }

  /** A synchronisation replaces one directory at most, by a whole one. */
  lemma SyncEffect(p: Platform, targets: Targets, release: Release, before: Disk, after: Disk)
    requires Synced(p, targets, release, before, after)
    ensures after == before.(releases := before.releases[release := after.releases[release]])
    ensures after != before ==> OneChild(after.releases[release])
  {
    var osArch :| Picks(p, targets, release, osArch) && SyncedTo(Selection(targets, release, osArch), release, before, after);
    assert before.releases[release := after.releases[release]] == after.releases;
    if after != before {
      SelectionIsOneChild(targets, release, osArch, after.releases[release]);
    }
  }

  lemma SyncKeepsSound(p: Platform, targets: Targets, release: Release, before: Disk, after: Disk)
    requires Sound(before) && Synced(p, targets, release, before, after)
    ensures Sound(after) && Whole(after, release) && after == before.(releases := after.releases)
  {
    SyncEffect(p, targets, release, before, after);
    hide Synced, OneChild;
    SameNames(before, after);
    hide Named;
  }

  lemma SameNames(d: Disk, e: Disk)
    requires d.channels == e.channels
    ensures forall r :: Named(d, r) <==> Named(e, r)
  {
  }

  /** A release that is whole may be named. */
  lemma NamingKeepsSound(before: Disk, after: Disk, channel: Channel)
    requires Sound(before) && channel in after.channels && Whole(before, TrimSpace(after.channels[channel]))
    requires after == before.(channels := after.channels)
    requires forall c :: c in after.channels && c != channel ==> c in before.channels && before.channels[c] == after.channels[c]
    ensures Sound(after)
  {
    hide OneChild, TrimSpace;
    forall r | Named(after, r) ensures Named(before, r) || r == TrimSpace(after.channels[channel]) {
      var c :| c in after.channels && TrimSpace(after.channels[c]) == r;
      if c != channel {
        assert c in before.channels && TrimSpace(before.channels[c]) == r;
      }
    }
  }

  lemma UpdateKeepsSound(p: Platform, targets: Targets, channel: Channel, before: Disk, after: Disk)
    requires Sound(before) && ChannelUpdated(p, targets, channel, before, after)
    ensures Sound(after)
  {
    var synced := after.(channels := before.channels);
    SyncKeepsSound(p, targets, TrimSpace(after.channels[channel]), before, synced);
    NamingKeepsSound(synced, after, channel);
  }

  lemma PinKeepsSound(p: Platform, parse: Parse, check: Constraint, targets: Targets, release: Release, now: int, before: Disk, after: Disk)
    requires Sound(before) && Pinned(p, parse, check, targets, release, now, before, after)
    ensures Sound(after)
  {
    var synced := after.(pins := before.pins);
    SyncKeepsSound(p, targets, release, before, synced);
    SameNames(synced, after);
    hide OneChild, Named, Synced, IsLatest;
  }

  lemma CleanKeepsSound(now: int, before: Disk)
    requires Sound(before)
    ensures Sound(Cleaned(before, Stale(before, now)))
  {
    SameNames(before, Cleaned(before, Stale(before, now)));
    hide OneChild, Named;
  }

  lemma UseKeepsSound(before: Disk, after: Disk)
    requires Sound(before) && after == before.(uses := after.uses)
    ensures Sound(after)
  {
    SameNames(before, after);
    hide OneChild, Named;
  }

  lemma StepKeepsSound(p: Platform, parse: Parse, before: Disk, e: Event, after: Disk)
    requires Sound(before) && Step(p, parse, before, e, after)
    ensures Sound(after)
  {
    hide Sound, ChannelUpdated, Pinned, Cleaned, Stale;
    if after != before {
      match e.op
      case UpdateChannel(channel, update) => UpdateKeepsSound(p, update.value, channel, before, after);
      case UpdateToVersion(check, update) =>
        PinKeepsSound(p, parse, check.value, update.value, e.answer.value, e.at, before, after);
      case UseChannel(_) => UseKeepsSound(before, after);
      case CleanReleases => CleanKeepsSound(e.at, before);
    }
  }

  /** Operations one after another from an empty directory, with the targets free to change in between. */
  ghost predicate Run(p: Platform, parse: Parse, disks: seq<Disk>, events: seq<Event>) {
    && |disks| == |events| + 1 && disks[0] == EMPTY
    && (forall i :: 0 <= i < |events| ==> Step(p, parse, disks[i], events[i], disks[i + 1]))
    && forall i, j :: 0 <= i <= j < |events| ==> events[i].at <= events[j].at
  }

  lemma {:induction false} RunKeepsSound(p: Platform, parse: Parse, disks: seq<Disk>, events: seq<Event>, i: nat)
    requires Run(p, parse, disks, events) && i < |disks|
    ensures Sound(disks[i])
  {
    if i == 0 {
      assert forall r :: !Named(EMPTY, r);
    } else {
      hide Step, Sound;
      RunKeepsSound(p, parse, disks, events, i - 1);
      StepKeepsSound(p, parse, disks[i - 1], events[i - 1], disks[i]);
    }
  }

  /** Every release that a channel file names, and every pinned one, has exactly one directory: it can be found. */
  lemma ReferencesHold(p: Platform, parse: Parse, disks: seq<Disk>, events: seq<Event>, i: nat, release: Release)
    requires Run(p, parse, disks, events) && i < |disks| && Referenced(disks[i], release)
    ensures Whole(disks[i], release)
  {
    RunKeepsSound(p, parse, disks, events, i);
  }

  // ---------- cleaning ----------

  /** A cleaning removes exactly the releases that no channel names, that are not pinned and not used within a day. */
  lemma CleaningIsExact(d: Disk, now: int, release: Release)
    ensures var after := Cleaned(d, Stale(d, now));
            && (release in after.releases <==>
                  release in d.releases &&
                  (Named(d, release) || release in d.pins || (release in d.uses && now < d.uses[release] + 86400)))
            && (release in after.releases ==> after.releases[release] == d.releases[release])
            && (forall r :: Referenced(after, r) <==> Referenced(d, r))
  {
    SameNames(d, Cleaned(d, Stale(d, now)));
    hide Named;
  }

  /** The release has been used at the given time or later. */
  ghost predicate UsedSince(d: Disk, release: Release, t: int) {
    release in d.releases && release in d.uses && d.uses[release] >= t
  }

  lemma UseStays(p: Platform, parse: Parse, before: Disk, e: Event, after: Disk, release: Release, t: int)
    requires Step(p, parse, before, e, after) && UsedSince(before, release, t)
    requires t <= e.at && (e.op.CleanReleases? ==> e.at < t + DAY)
    ensures UsedSince(after, release, t)
  {
    hide Named, ChannelUpdated, Pinned, TrimSpace;
    if after != before {
      match e.op
      case UpdateChannel(channel, update) => UpdateKeeps(p, update.value, channel, before, after);
      case UpdateToVersion(check, update) =>
        PinKeeps(p, parse, check.value, update.value, e.answer.value, e.at, before, after);
      case UseChannel(_) =>
      case CleanReleases =>
    }
  }

  /** An update removes no release and no pin, and leaves the times of use alone. */
  lemma UpdateKeeps(p: Platform, targets: Targets, channel: Channel, before: Disk, after: Disk)
    requires ChannelUpdated(p, targets, channel, before, after)
    ensures after.uses == before.uses && after.pins == before.pins && before.releases.Keys <= after.releases.Keys
  {
    SyncEffect(p, targets, TrimSpace(after.channels[channel]), before, after.(channels := before.channels));
    hide Synced;
  }

  lemma PinKeeps(p: Platform, parse: Parse, check: Constraint, targets: Targets, release: Release, now: int, before: Disk, after: Disk)
    requires Pinned(p, parse, check, targets, release, now, before, after)
    ensures after.uses == before.uses && before.pins.Keys <= after.pins.Keys && before.releases.Keys <= after.releases.Keys
  {
    SyncEffect(p, targets, release, before, after.(pins := before.pins));
    hide Synced, IsLatest;
  }

  lemma {:induction false} UseStaysOverRun(p: Platform, parse: Parse, disks: seq<Disk>, events: seq<Event>, i: nat, j: nat, release: Release, t: int)
    requires Run(p, parse, disks, events) && i <= j < |disks| && UsedSince(disks[i], release, t)
    requires forall k :: i <= k < j ==> t <= events[k].at
    requires forall k :: i <= k < j && events[k].op.CleanReleases? ==> events[k].at < t + DAY
    ensures UsedSince(disks[j], release, t)
  {
    hide Step, UsedSince;
    if i < j {
      UseStaysOverRun(p, parse, disks, events, i, j - 1, release, t);
      UseStays(p, parse, disks[j - 1], events[j - 1], disks[j], release, t);
    }
  }

  /** A release taken from its channel is there, whole, until a cleaning a day later or more. */
  lemma HeldForADay(p: Platform, parse: Parse, disks: seq<Disk>, events: seq<Event>, i: nat, j: nat, release: Release)
    requires Run(p, parse, disks, events) && i < j < |disks|
    requires events[i].op.UseChannel? && events[i].answer == Some(release)
    requires forall k :: i < k < j && events[k].op.CleanReleases? ==> events[k].at < events[i].at + 86400
    ensures Whole(disks[j], release)
  {
    RunKeepsSound(p, parse, disks, events, i);
    RunKeepsSound(p, parse, disks, events, j);
    assert Step(p, parse, disks[i], events[i], disks[i + 1]);
    assert Referenced(disks[i], release);
    UseStaysOverRun(p, parse, disks, events, i + 1, j, release, events[i].at);
  }

  // ---------- pins ----------

  lemma PinStays(p: Platform, parse: Parse, before: Disk, e: Event, after: Disk)
    requires Step(p, parse, before, e, after)
    ensures before.pins.Keys <= after.pins.Keys
  {
    hide Named, ChannelUpdated, Pinned;
    if after != before && e.op.UpdateChannel? {
      UpdateKeeps(p, e.op.update.value, e.op.channel, before, after);
    } else if after != before && e.op.UpdateToVersion? {
      PinKeeps(p, parse, e.op.check.value, e.op.update.value, e.answer.value, e.at, before, after);
    }
  }

  lemma {:induction false} PinsStay(p: Platform, parse: Parse, disks: seq<Disk>, events: seq<Event>, i: nat, j: nat)
    requires Run(p, parse, disks, events) && i <= j < |disks|
    ensures disks[i].pins.Keys <= disks[j].pins.Keys
  {
    hide Step;
    if i < j {
      PinsStay(p, parse, disks, events, i, j - 1);
      PinStays(p, parse, disks[j - 1], events[j - 1], disks[j]);
    }
  }

  /** A version once installed is found by the same constraint ever after: itself, or one that does not come before it. */
  lemma PinnedIsFound(p: Platform, parse: Parse, disks: seq<Disk>, events: seq<Event>, i: nat, j: nat, release: Release)
    requires Run(p, parse, disks, events) && i < j < |disks|
    requires events[i].op.UpdateToVersion? && events[i].answer == Some(release)
    ensures events[i].op.check.Some?
    ensures var check := events[i].op.check.value;
            && Admits(parse, check, release)
            && (exists best :: IsLatest(parse, check, disks[j].pins.Keys, best))
            && forall best :: IsLatest(parse, check, disks[j].pins.Keys, best) ==>
                 Admits(parse, check, best) && !Less(parse(best).value, parse(release).value) && Whole(disks[j], best)
  {
    assert Step(p, parse, disks[i], events[i], disks[i + 1]);
    var check := events[i].op.check.value;
    hide Synced, Less;
    assert Admits(parse, check, release) && release in disks[i + 1].pins.Keys;
    PinsStay(p, parse, disks, events, i + 1, j);
    RunKeepsSound(p, parse, disks, events, j);
    LatestExists(parse, check, disks[j].pins.Keys, release);
  }

  // ---------- a second update ----------

  /** An update that has succeeded leaves nothing to do for the same targets. */
  lemma UpdateSettles(p: Platform, targets: Targets, channel: Channel, before: Disk, after: Disk)
    requires ChannelUpdated(p, targets, channel, before, after)
    ensures Settled(p, targets, channel, after)
  {
    var release := TrimSpace(after.channels[channel]);
    var osArch :| Picks(p, targets, release, osArch) &&
      SyncedTo(Selection(targets, release, osArch), release, before, after.(channels := before.channels));
  }

  // ---------- every moment ----------

  /** No directory mixes platforms. */
  ghost predicate Platforms(d: Disk) {
    forall r :: r in d.releases ==> d.releases[r] == map[] || OneChild(d.releases[r])
  }

  /** All references but one were there before, and lead to what they led to. */
  ghost predicate Spares(before: Disk, d: Disk, s: Release) {
    && (forall r :: r != s && Referenced(d, r) ==>
          Referenced(before, r) && (r in before.releases ==> r in d.releases && d.releases[r] == before.releases[r]))
    && Platforms(d)
  }

  /** At every moment all references but one lead to an untouched release, and no directory mixes platforms. */
  ghost predicate Steady(before: Disk, d: Disk, s: Release) {
    && (forall r :: r != s && Referenced(d, r) ==> r in before.releases && r in d.releases && d.releases[r] == before.releases[r])
    && Platforms(d)
  }

  lemma PartOneChild(dir: Dir, whole: Dir)
    requires (whole == map[] || OneChild(whole)) && Part(dir, whole)
    ensures dir == map[] || OneChild(dir)
  {
  }

  lemma SyncingSpares(p: Platform, targets: Targets, release: Release, before: Disk, d: Disk)
    requires Platforms(before) && IsSyncing(p, targets, release, before, d)
    ensures Spares(before, d, release)
  {
    SyncingChild(p, targets, release, before, d);
    assert d == before.(releases := d.releases, tmpReleases := d.tmpReleases);
    OthersSame(before.releases, d.releases, release);
    hide IsSyncing, OneChild;
    OneDisturbedSpares(before, d, release);
  }

  /** Whatever is left of the directory, it is of one platform. */
  lemma SyncingChild(p: Platform, targets: Targets, release: Release, before: Disk, d: Disk)
    requires Platforms(before) && IsSyncing(p, targets, release, before, d)
    ensures d.releases - {release} == before.releases - {release}
    ensures release in d.releases ==> d.releases[release] == map[] || OneChild(d.releases[release])
  {
    hide Picks, Selection, Complete, Named, Part, OneChild;
    if release in d.releases {
      if release in before.releases && Part(d.releases[release], before.releases[release]) {
        PartOneChild(d.releases[release], before.releases[release]);
      } else {
        var osArch :| Picks(p, targets, release, osArch) && Complete(d.releases[release], Selection(targets, release, osArch));
        PickedNotEmpty(p, targets, release, osArch);
        SelectionIsOneChild(targets, release, osArch, d.releases[release]);
      }
    }
  }

  lemma PickedNotEmpty(p: Platform, targets: Targets, release: Release, osArch: string)
    requires Picks(p, targets, release, osArch)
    ensures Selection(targets, release, osArch) != map[]
  {
    hide Selection;
  }

  lemma OthersSame(before: map<Release, Dir>, after: map<Release, Dir>, release: Release)
    requires after - {release} == before - {release}
    ensures forall r :: r != release && (r in before || r in after) ==> r in before && r in after && after[r] == before[r]
  {
    forall r | r != release && (r in before || r in after) ensures r in before && r in after && after[r] == before[r] {
      assert r in before - {release} <==> r in after - {release};
      assert (before - {release})[r] == (after - {release})[r];
    }
  }

  lemma OneDisturbedSpares(before: Disk, d: Disk, release: Release)
    requires Platforms(before) && d == before.(releases := d.releases, tmpReleases := d.tmpReleases)
    requires forall r :: r != release && (r in before.releases || r in d.releases) ==>
               r in before.releases && r in d.releases && d.releases[r] == before.releases[r]
    requires release in d.releases ==> d.releases[release] == map[] || OneChild(d.releases[release])
    ensures Spares(before, d, release)
  {
    SameNames(before, d);
    hide Named, OneChild;
  }

  lemma SyncedSpares(p: Platform, targets: Targets, release: Release, before: Disk, d: Disk)
    requires Platforms(before) && Synced(p, targets, release, before, d)
    ensures Spares(before, d, release)
  {
    SyncEffect(p, targets, release, before, d);
    hide Synced, OneChild;
    OneReplacedSpares(before, d, release);
  }

  lemma OneReplacedSpares(before: Disk, d: Disk, release: Release)
    requires Platforms(before) && release in d.releases && (d != before ==> OneChild(d.releases[release]))
    requires d == before.(releases := before.releases[release := d.releases[release]])
    ensures Spares(before, d, release)
  {
    SameNames(before, d);
    hide Named, OneChild;
  }

  lemma UpdatedSpares(p: Platform, targets: Targets, channel: Channel, before: Disk, d: Disk)
    requires Platforms(before) && ChannelUpdated(p, targets, channel, before, d)
    ensures Spares(before, d, TrimSpace(d.channels[channel]))
  {
    var synced, s := d.(channels := before.channels), TrimSpace(d.channels[channel]);
    hide *;
    UpdatedParts(p, targets, channel, before, d);
    SyncedSpares(p, targets, s, before, synced);
    NamedSpares(before, d, channel);
  }

  lemma UpdatedParts(p: Platform, targets: Targets, channel: Channel, before: Disk, d: Disk)
    requires ChannelUpdated(p, targets, channel, before, d)
    ensures channel in d.channels && Synced(p, targets, TrimSpace(d.channels[channel]), before, d.(channels := before.channels))
    ensures forall c :: c in d.channels && c != channel ==> c in before.channels && before.channels[c] == d.channels[c]
  {
    hide Synced, TrimSpace;
  }

  lemma NamedSpares(before: Disk, d: Disk, channel: Channel)
    requires channel in d.channels && Spares(before, d.(channels := before.channels), TrimSpace(d.channels[channel]))
    requires forall c :: c in d.channels && c != channel ==> c in before.channels && before.channels[c] == d.channels[c]
    ensures Spares(before, d, TrimSpace(d.channels[channel]))
  {
    var synced, s := d.(channels := before.channels), TrimSpace(d.channels[channel]);
    hide OneChild, TrimSpace;
    forall r | Named(d, r) && r != s ensures Named(synced, r) {
      var c :| c in d.channels && TrimSpace(d.channels[c]) == r;
      assert c in synced.channels && TrimSpace(synced.channels[c]) == r;
    }
  }

  lemma PinningSpares(p: Platform, targets: Targets, release: Release, before: Disk, d: Disk)
    requires Platforms(before) && IsPinning(p, targets, release, before, d)
    ensures Spares(before, d, release)
  {
    hide IsSyncing, Synced, Platforms, Spares;
    if IsSyncing(p, targets, release, before, d) {
      SyncingSpares(p, targets, release, before, d);
    } else {
      SyncedSpares(p, targets, release, before, d.(pins := before.pins));
      PinnedSpares(before, d, release);
    }
  }

  lemma PinnedSpares(before: Disk, d: Disk, release: Release)
    requires Spares(before, d.(pins := before.pins), release) && d.pins - {release} == before.pins - {release}
    ensures Spares(before, d, release)
  {
    SameNames(d.(pins := before.pins), d);
    hide Named, OneChild;
    forall r | r in d.pins && r != release ensures r in before.pins {
      assert r in d.pins - {release};
    }
  }

  lemma CleaningSpares(now: int, before: Disk, d: Disk, s: Release)
    requires Platforms(before) && IsCleaning(now, before, d)
    ensures Spares(before, d, s)
  {
    SameNames(before, d);
    forall r | r in d.releases ensures d.releases[r] == map[] || OneChild(d.releases[r]) {
      PartOneChild(d.releases[r], before.releases[r]);
    }
    hide Named, OneChild, Part;
  }

  /** The release that an operation may be replacing: the one its channel is about to name, or the latest it may pin. */
  ghost predicate MayReplace(m: Moment, s: Release) {
    match m
    case Updating(_, targets, channel, _) =>
      ChannelTarget(channel) in targets && exists text :: targets[ChannelTarget(channel)](text) && s == TrimSpace(text)
    case Versioning(_, parse, check, targets, _) => IsLatest(parse, check, ReleaseNames(targets), s)
    case _ => false
  }

  /** However an operation is stopped, it spares all references but that to the release it replaces; a cleaning or a use replaces none. */
  lemma MomentsSpare(m: Moment, d: Disk)
    requires m.Updating? || m.Versioning? || m.Cleaning? || m.Using?
    requires Platforms(m.before) && During(m, d)
    ensures m.Updating? || m.Versioning? ==> exists s :: MayReplace(m, s) && Spares(m.before, d, s)
    ensures m.Cleaning? || m.Using? ==> forall s :: Spares(m.before, d, s)
  {
    match m
    case Updating(p, targets, channel, before) =>
      if ChannelUpdated(p, targets, channel, before, d) {
        UpdatedSpares(p, targets, channel, before, d);
        assert MayReplace(m, TrimSpace(d.channels[channel]));
      } else {
        var text :| targets[ChannelTarget(channel)](text) && IsSyncing(p, targets, TrimSpace(text), before, d.(tmpChannels := before.tmpChannels));
        SyncingSpares(p, targets, TrimSpace(text), before, d.(tmpChannels := before.tmpChannels));
        SparesElsewhere(before, d.(tmpChannels := before.tmpChannels), d, TrimSpace(text));
        assert MayReplace(m, TrimSpace(text));
      }
    case Versioning(p, parse, check, targets, before) =>
      var r :| IsLatest(parse, check, ReleaseNames(targets), r) && IsPinning(p, targets, r, before, d);
      PinningSpares(p, targets, r, before, d);
      assert MayReplace(m, r);
    case Cleaning(now, before) =>
      forall s ensures Spares(before, d, s) {
        CleaningSpares(now, before, d, s);
      }
    case Using(_, before) => UsingSpares(before, d);
  }

  /** However an operation is stopped, only the release it replaces may be incomplete; a cleaning or a use replaces none. */
  lemma MomentsAreSteady(m: Moment, d: Disk)
    requires m.Updating? || m.Versioning? || m.Cleaning? || m.Using?
    requires Sound(m.before) && During(m, d)
    ensures m.Updating? || m.Versioning? ==> exists s :: MayReplace(m, s) && Steady(m.before, d, s)
    ensures m.Cleaning? || m.Using? ==> forall s :: Steady(m.before, d, s)
  {
    hide During, MayReplace, Referenced, OneChild;
    MomentsSpare(m, d);
    forall s | Spares(m.before, d, s) ensures Steady(m.before, d, s) { }
  }

  lemma UsingSpares(before: Disk, d: Disk)
    requires Platforms(before) && d == before.(uses := d.uses)
    ensures forall s :: Spares(before, d, s)
  {
    SameNames(before, d);
    hide Named, OneChild;
  }

  lemma SparesElsewhere(before: Disk, d: Disk, e: Disk, s: Release)
    requires Spares(before, d, s) && e == d.(tmpChannels := e.tmpChannels)
    ensures Spares(before, e, s)
  {
    SameNames(d, e);
    hide Named, OneChild;
  }
}
