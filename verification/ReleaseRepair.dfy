/** Runs in which operations are stopped half-way, and how later updates repair what was left. */
module ReleaseRepair {
  import opened Options
  import opened Text
  import opened Semver
  import opened ReleaseStore

  /** An operation that has finished, or one that was stopped at some moment. */
  datatype Turn = Finished(event: Event) | Stopped(moment: Moment)

  /** What a stopped operation leaves, once the temporary directories have been cleared. */
  function Cleared(d: Disk): Disk {
    d.(tmpChannels := map[], tmpReleases := map[])
  }

  predicate IsOperation(m: Moment) {
    m.Updating? || m.Versioning? || m.Cleaning? || m.Using?
  }

  ghost predicate Turned(p: Platform, parse: Parse, before: Disk, turn: Turn, after: Disk) {
    match turn
    case Finished(e) => Step(p, parse, before, e, after)
    case Stopped(m) => IsOperation(m) && m.before == before && exists d :: During(m, d) && after == Cleared(d)
  }

  /** Operations one after another from an empty directory, any of which may be stopped at any file-system step. */
  ghost predicate StoppedRun(p: Platform, parse: Parse, disks: seq<Disk>, turns: seq<Turn>) {
    && |disks| == |turns| + 1 && disks[0] == EMPTY
    && forall i :: 0 <= i < |turns| ==> Turned(p, parse, disks[i], turns[i], disks[i + 1])
  }

  /** The releases that a finished operation has brought up to date. */
  ghost predicate Repairs(p: Platform, parse: Parse, before: Disk, e: Event, after: Disk, release: Release) {
    match e.op
    case UpdateChannel(channel, update) =>
      update.Some? && ChannelUpdated(p, update.value, channel, before, after) && release == TrimSpace(after.channels[channel])
    case UpdateToVersion(_, _) => e.answer == Some(release)
    case UseChannel(_) => false
    case CleanReleases => false
  }

  /** The releases that a stopped operation may have left incomplete and no finished one has brought up to date since. */
  ghost function Suspects(p: Platform, parse: Parse, disks: seq<Disk>, turns: seq<Turn>, i: nat): iset<Release>
    requires i <= |turns| < |disks|
  {
    if i == 0 then iset{}
    else
      var before := Suspects(p, parse, disks, turns, i - 1);
      match turns[i - 1]
      case Finished(e) => iset r | r in before && !Repairs(p, parse, disks[i - 1], e, disks[i], r)
      case Stopped(m) => iset r | r in before || MayReplace(m, r)
  }

  /** Nothing temporary is left, no directory mixes platforms, and every reference but the suspect ones leads to a whole release. */
  ghost predicate SoundBut(d: Disk, suspects: iset<Release>) {
    && d.tmpChannels == map[] && d.tmpReleases == map[] && Platforms(d)
    && forall r :: Referenced(d, r) && r !in suspects ==> Whole(d, r)
  }

  // ---------- finished operations ----------

  /** What has been synchronised is whole, whatever it was before. */
  lemma SyncMakesWhole(p: Platform, targets: Targets, release: Release, before: Disk, after: Disk)
    requires Platforms(before) && Synced(p, targets, release, before, after)
    ensures Whole(after, release) && Platforms(after)
    ensures after == before.(releases := before.releases[release := after.releases[release]])
    ensures UpToDate(p, targets, release, after)
  {
    SyncEffect(p, targets, release, before, after);
    SyncMatches(p, targets, release, before, after);
    hide Synced, UpToDate, OneChild;
  }

  lemma SyncMatches(p: Platform, targets: Targets, release: Release, before: Disk, after: Disk)
    requires Synced(p, targets, release, before, after)
    ensures release in after.releases && after.releases[release] != map[] && UpToDate(p, targets, release, after)
  {
    hide Picks, Selection, Complete;
    var osArch :| Picks(p, targets, release, osArch) && SyncedTo(Selection(targets, release, osArch), release, before, after);
    PickedNotEmpty(p, targets, release, osArch);
    var f :| f in Selection(targets, release, osArch);
    assert f in after.releases[release];
  }

  lemma SyncKeepsOthers(before: Disk, after: Disk, release: Release, suspects: iset<Release>)
    requires SoundBut(before, suspects) && Whole(after, release) && Platforms(after)
    requires after == before.(releases := before.releases[release := after.releases[release]])
    ensures SoundBut(after, iset r | r in suspects && r != release)
  {
    SameNames(before, after);
    hide Named, OneChild;
  }

  lemma UpdateRepairs(p: Platform, targets: Targets, channel: Channel, before: Disk, after: Disk, suspects: iset<Release>)
    requires SoundBut(before, suspects) && ChannelUpdated(p, targets, channel, before, after)
    ensures SoundBut(after, iset r | r in suspects && r != TrimSpace(after.channels[channel]))
    ensures Whole(after, TrimSpace(after.channels[channel])) && Settled(p, targets, channel, after)
  {
    var synced, s := after.(channels := before.channels), TrimSpace(after.channels[channel]);
    SyncMakesWhole(p, targets, s, before, synced);
    SyncKeepsOthers(before, synced, s, suspects);
    UpdateSettles(p, targets, channel, before, after);
    assert forall c :: c in after.channels && c != channel ==> c in before.channels && before.channels[c] == after.channels[c];
    hide Synced, TrimSpace, OneChild, ReleaseStore.Settled, ChannelUpdated;
    forall r | Named(after, r) && r != s ensures Named(synced, r) {
      var c :| c in after.channels && TrimSpace(after.channels[c]) == r;
      assert c in synced.channels && TrimSpace(synced.channels[c]) == r;
    }
  }

  lemma PinRepairs(p: Platform, parse: Parse, check: Constraint, targets: Targets, release: Release, now: int,
                   before: Disk, after: Disk, suspects: iset<Release>)
    requires SoundBut(before, suspects) && Pinned(p, parse, check, targets, release, now, before, after)
    ensures SoundBut(after, iset r | r in suspects && r != release) && Whole(after, release)
  {
    var synced := after.(pins := before.pins);
    SyncMakesWhole(p, targets, release, before, synced);
    SyncKeepsOthers(before, synced, release, suspects);
    SameNames(synced, after);
    hide Named, OneChild, Synced, IsLatest;
  }

  lemma CleanKeepsBut(now: int, before: Disk, suspects: iset<Release>)
    requires SoundBut(before, suspects)
    ensures SoundBut(Cleaned(before, Stale(before, now)), suspects)
  {
    SameNames(before, Cleaned(before, Stale(before, now)));
    hide OneChild, Named;
  }

  lemma UseKeepsBut(before: Disk, after: Disk, suspects: iset<Release>)
    requires SoundBut(before, suspects) && after == before.(uses := after.uses)
    ensures SoundBut(after, suspects)
  {
    SameNames(before, after);
    hide OneChild, Named;
  }

  lemma MoreSuspects(d: Disk, few: iset<Release>, many: iset<Release>)
    requires SoundBut(d, few) && few <= many
    ensures SoundBut(d, many)
  {
    hide Referenced, Whole, Platforms;
  }

  lemma FinishedKeeps(p: Platform, parse: Parse, before: Disk, e: Event, after: Disk, suspects: iset<Release>)
    requires SoundBut(before, suspects) && Step(p, parse, before, e, after)
    ensures SoundBut(after, iset r | r in suspects && !Repairs(p, parse, before, e, after, r))
  {
    var left := iset r | r in suspects && !Repairs(p, parse, before, e, after, r);
    hide SoundBut, ChannelUpdated, Pinned, Cleaned, Stale;
    match e.op
    case UpdateChannel(channel, update) =>
      if update.Some? && ChannelUpdated(p, update.value, channel, before, after) {
        UpdateRepairs(p, update.value, channel, before, after, suspects);
        assert left == iset r | r in suspects && r != TrimSpace(after.channels[channel]);
      } else {
        assert after == before && left == suspects;
      }
    case UpdateToVersion(check, update) =>
      if e.answer.Some? {
        PinRepairs(p, parse, check.value, update.value, e.answer.value, e.at, before, after, suspects);
        assert left == iset r | r in suspects && r != e.answer.value;
      } else {
        assert after == before && left == suspects;
      }
    case UseChannel(_) =>
      UseKeepsBut(before, after, suspects);
      assert left == suspects;
    case CleanReleases =>
      CleanKeepsBut(e.at, before, suspects);
      assert left == suspects;
  }

  // ---------- stopped operations ----------

  lemma SparedIsSound(before: Disk, d: Disk, s: Release, suspects: iset<Release>, all: iset<Release>)
    requires SoundBut(before, suspects) && Spares(before, d, s) && suspects <= all && s in all
    ensures SoundBut(Cleared(d), all)
  {
    SameNames(d, Cleared(d));
    hide Named, OneChild;
  }

  /** A stopped operation makes suspect what it may have been replacing, and nothing else. */
  lemma StoppedKeeps(m: Moment, d: Disk, suspects: iset<Release>)
    requires IsOperation(m) && SoundBut(m.before, suspects) && During(m, d)
    ensures SoundBut(Cleared(d), iset r | r in suspects || MayReplace(m, r))
  {
    var all := iset r | r in suspects || MayReplace(m, r);
    MomentsSpare(m, d);
    hide During, MayReplace, Spares;
    if m.Updating? || m.Versioning? {
      var s :| MayReplace(m, s) && Spares(m.before, d, s);
      SparedIsSound(m.before, d, s, suspects, all);
    } else {
      AllSpared(m.before, d, suspects);
      MoreSuspects(Cleared(d), suspects, all);
    }
  }

  lemma AllSpared(before: Disk, d: Disk, suspects: iset<Release>)
    requires SoundBut(before, suspects) && forall s :: Spares(before, d, s)
    ensures SoundBut(Cleared(d), suspects)
  {
    SameNames(d, Cleared(d));
    hide Named, OneChild;
    assert Spares(before, d, "") && Spares(before, d, "x");
  }

  // ---------- runs ----------

  lemma {:induction false} StoppedRunKeepsSound(p: Platform, parse: Parse, disks: seq<Disk>, turns: seq<Turn>, i: nat)
    requires StoppedRun(p, parse, disks, turns) && i <= |turns|
    ensures SoundBut(disks[i], Suspects(p, parse, disks, turns, i))
  {
    hide SoundBut, Turned, Repairs, MayReplace;
    if i == 0 {
      NothingUnsound();
    } else {
      StoppedRunKeepsSound(p, parse, disks, turns, i - 1);
      var before := Suspects(p, parse, disks, turns, i - 1);
      assert Turned(p, parse, disks[i - 1], turns[i - 1], disks[i]);
      TurnKeeps(p, parse, disks[i - 1], turns[i - 1], disks[i], before);
      hide StoppedRun;
    }
  }

  lemma TurnKeeps(p: Platform, parse: Parse, before: Disk, turn: Turn, after: Disk, suspects: iset<Release>)
    requires SoundBut(before, suspects) && Turned(p, parse, before, turn, after)
    ensures turn.Finished? ==> SoundBut(after, iset r | r in suspects && !Repairs(p, parse, before, turn.event, after, r))
    ensures turn.Stopped? ==> SoundBut(after, iset r | r in suspects || MayReplace(turn.moment, r))
  {
    hide SoundBut, Step, Repairs, During, MayReplace, IsOperation;
    match turn
    case Finished(e) => FinishedKeeps(p, parse, before, e, after, suspects);
    case Stopped(m) =>
      var d :| During(m, d) && after == Cleared(d);
      StoppedKeeps(m, d, suspects);
  }

  lemma NothingUnsound()
    ensures SoundBut(EMPTY, iset{})
  {
    assert forall r :: !Named(EMPTY, r);
  }

  /** In every run with interruptions a referenced release is whole unless a stopped update left it and none has finished since. */
  lemma ReferencesHoldBut(p: Platform, parse: Parse, disks: seq<Disk>, turns: seq<Turn>, i: nat, release: Release)
    requires StoppedRun(p, parse, disks, turns) && i <= |turns|
    requires Referenced(disks[i], release) && release !in Suspects(p, parse, disks, turns, i)
    ensures Whole(disks[i], release)
  {
    StoppedRunKeepsSound(p, parse, disks, turns, i);
  }

  /** One finished update of the channel repairs its release, with all its files, whatever was stopped before. */
  lemma UpdateMakesWhole(p: Platform, parse: Parse, disks: seq<Disk>, turns: seq<Turn>, i: nat, targets: Targets, channel: Channel)
    requires StoppedRun(p, parse, disks, turns) && i < |turns|
    requires ChannelUpdated(p, targets, channel, disks[i], disks[i + 1])
    requires turns[i].Finished? && turns[i].event.op == Op.UpdateChannel(channel, Some(targets))
    ensures var release := TrimSpace(disks[i + 1].channels[channel]);
            && Whole(disks[i + 1], release) && UpToDate(p, targets, release, disks[i + 1])
            && release !in Suspects(p, parse, disks, turns, i + 1)
  {
    StoppedRunKeepsSound(p, parse, disks, turns, i);
    UpdateRepairs(p, targets, channel, disks[i], disks[i + 1], Suspects(p, parse, disks, turns, i));
    hide SoundBut, ChannelUpdated, Whole, UpToDate, StoppedRun;
  }
}
