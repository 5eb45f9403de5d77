/** Rotation of the four TUF roles, and the hourly gate that drives it. */
module Rotator {
  import opened Options
  import opened Calendar

  /** The fields version and expires of a role (TUF specification, sections 4.3 to 4.6). */
  datatype Role = Role(version: int, expires: Instant)

  datatype Roles = Roles(root: Role, targets: Role, snapshot: Role, timestamp: Role)

  // ---------- when a role is due ----------

  /** Root expires every year and is due 3 months into it. */
  function RootRotateAt(r: Roles): Instant {
    AddDate(AddDate(r.root.expires, -1, 0, 0), 0, 3, 0)
  }

  /** Targets expire every 3 months and are due 3 weeks into them. */
  function TargetsRotateAt(r: Roles): Instant {
    AddDate(AddDate(r.targets.expires, 0, -3, 0), 0, 0, 21)
  }

  /** Snapshot expires every 7 days and is due on the 2nd. */
  function SnapshotRotateAt(r: Roles): Instant {
    AddDate(AddDate(r.snapshot.expires, 0, 0, -7), 0, 0, 2)
  }

  /** Timestamp expires every day and is due at its 4th hour. */
  function TimestampRotateAt(r: Roles): Instant {
    AddDate(r.timestamp.expires, 0, 0, -1) + 4 * HOUR
  }

  /** The repository may round an expiry when it stores it, by less than a second. */
  ghost predicate Rounding(store: Instant -> Instant) {
    forall t :: t - SECOND < store(t) < t + SECOND
  }

  function Renewed(role: Role, expires: Instant, store: Instant -> Instant): Role {
    Role(role.version + 1, store(expires))
  }

  // ---------- the repository and the rotator ----------

  /** The accessor the rotator works through: staged changes become visible on Commit. */
  class TufRepo {
    var staged: Roles
    var committed: Roles
    ghost var commits: nat
    const store: Instant -> Instant

    constructor (roles: Roles, store: Instant -> Instant)
      ensures staged == committed == roles && this.store == store && commits == 0
    {
      staged, committed, this.store, commits := roles, roles, store, 0;
    }

    method IncrementRootVersionWithExpires(expires: Instant)
      modifies this`staged
      ensures staged == old(staged).(root := Renewed(old(staged).root, expires, store))
    {
      staged := staged.(root := Renewed(staged.root, expires, store));
    }

    method IncrementTargetsVersionWithExpires(expires: Instant)
      modifies this`staged
      ensures staged == old(staged).(targets := Renewed(old(staged).targets, expires, store))
    {
      staged := staged.(targets := Renewed(staged.targets, expires, store));
    }

    method IncrementSnapshotVersionWithExpires(expires: Instant)
      modifies this`staged
      ensures staged == old(staged).(snapshot := Renewed(old(staged).snapshot, expires, store))
    {
      staged := staged.(snapshot := Renewed(staged.snapshot, expires, store));
    }

    method IncrementTimestampVersionWithExpires(expires: Instant)
      modifies this`staged
      ensures staged == old(staged).(timestamp := Renewed(old(staged).timestamp, expires, store))
    {
      staged := staged.(timestamp := Renewed(staged.timestamp, expires, store));
    }

    method Commit()
      modifies this`committed, this`commits
      ensures committed == staged && commits == old(commits) + 1
    {
      committed, commits := staged, commits + 1;
    }
  }

  /** Which roles one rotation at now renews: a changed role drags along every role that signs over it. */
  datatype Due = Due(root: bool, targets: bool, snapshot: bool, timestamp: bool)

  function DueAt(r: Roles, now: Instant): Due {
    var root, targets := RootRotateAt(r) <= now, TargetsRotateAt(r) <= now;
    var snapshot := root || targets || SnapshotRotateAt(r) <= now;
    Due(root, targets, snapshot, snapshot || TimestampRotateAt(r) <= now)
  }

  function Rotated(r: Roles, now: Instant, store: Instant -> Instant): Roles {
    var due := DueAt(r, now);
    Roles(if due.root then Renewed(r.root, AddDate(now, 1, 0, 0), store) else r.root,
          if due.targets then Renewed(r.targets, AddDate(now, 0, 3, 0), store) else r.targets,
          if due.snapshot then Renewed(r.snapshot, AddDate(now, 0, 0, 7), store) else r.snapshot,
          if due.timestamp then Renewed(r.timestamp, AddDate(now, 0, 0, 1), store) else r.timestamp)
  }

  method Rotate(repo: TufRepo, now: Instant)
    modifies repo
    ensures repo.staged == Rotated(old(repo.staged), now, repo.store)
    ensures repo.commits == old(repo.commits) + if repo.staged != old(repo.staged) then 1 else 0
    ensures repo.committed == if repo.staged != old(repo.staged) then repo.staged else old(repo.committed)
    ensures Rounding(repo.store) ==>
              var before, after, day, second := old(repo.staged), repo.staged, 86400 * 1_000_000_000, 1_000_000_000;
              && (after.root != before.root ==> now + 336 * day - second < after.root.expires < now + 372 * day + second)
              && (after.targets != before.targets ==> now + 84 * day - second < after.targets.expires < now + 93 * day + second)
              && (after.snapshot != before.snapshot ==> now + 7 * day - second < after.snapshot.expires < now + 7 * day + second)
              && (after.timestamp != before.timestamp ==> now + day - second < after.timestamp.expires < now + day + second)
  {
    if Rounding(repo.store) {
      RenewalPeriods(repo.staged, now, repo.store);
    }
    var changedRoot, changedTargets, changedSnapshot, changedTimestamp := false, false, false, false;
    if RootRotateAt(repo.staged) - now <= 0 {
      repo.IncrementRootVersionWithExpires(AddDate(now, 1, 0, 0));
      changedRoot := true;
    }
    if TargetsRotateAt(repo.staged) - now <= 0 {
      repo.IncrementTargetsVersionWithExpires(AddDate(now, 0, 3, 0));
      changedTargets := true;
    }
    var hitRotationPeriod := SnapshotRotateAt(repo.staged) - now <= 0;
    if changedRoot || changedTargets || hitRotationPeriod {
      repo.IncrementSnapshotVersionWithExpires(AddDate(now, 0, 0, 7));
      changedSnapshot := true;
    }
    hitRotationPeriod := TimestampRotateAt(repo.staged) - now <= 0;
    if changedSnapshot || hitRotationPeriod {
      repo.IncrementTimestampVersionWithExpires(AddDate(now, 0, 0, 1));
      changedTimestamp := true;
    }
    if changedRoot || changedTargets || changedSnapshot || changedTimestamp {
      repo.Commit();
    }
  }

  // ---------- one rotation ----------

  ghost predicate NoneDue(r: Roles, now: Instant) {
    && RootRotateAt(r) > now && TargetsRotateAt(r) > now
    && SnapshotRotateAt(r) > now && TimestampRotateAt(r) > now
  }

  /** How far before the expiry each role is due, and how far after its renewal it becomes due again. */
  lemma DueWindow(r: Roles)
    ensures RootRotateAt(r) + 243 * DAY <= r.root.expires <= RootRotateAt(r) + 288 * DAY
    ensures TargetsRotateAt(r) + 63 * DAY <= r.targets.expires <= TargetsRotateAt(r) + 72 * DAY
    ensures SnapshotRotateAt(r) + 5 * DAY == r.snapshot.expires
    ensures TimestampRotateAt(r) + 20 * HOUR == r.timestamp.expires
  {
    hide AddDate;
    Moved(r.root.expires, -1, 0, 0);
    Moved(AddDate(r.root.expires, -1, 0, 0), 0, 3, 0);
    Moved(r.targets.expires, 0, -3, 0);
    Moved(AddDate(r.targets.expires, 0, -3, 0), 0, 0, 21);
    Moved(r.snapshot.expires, 0, 0, -7);
    Moved(AddDate(r.snapshot.expires, 0, 0, -7), 0, 0, 2);
    Moved(r.timestamp.expires, 0, 0, -1);
  }

  lemma Moved(t: Instant, years: int, months: int, days: int)
    ensures var k := 12 * years + months;
            var lo, hi := if k >= 0 then 28 * k else 31 * k, if k >= 0 then 31 * k else 28 * k;
            t + (lo + days) * DAY <= AddDate(t, years, months, days) <= t + (hi + days) * DAY
  {
    hide AddDate, MonthShift;
    AddDateShifts(t, years, months, days);
    MonthShiftBounds(t / DAY, 12 * years + months);
  }

  /** After any rotation every role is due strictly later than now. */
  lemma RotatedIsNotDue(r: Roles, now: Instant, store: Instant -> Instant)
    requires Rounding(store)
    ensures NoneDue(Rotated(r, now, store), now)
  {
    hide AddDate;
    var s := Rotated(r, now, store);
    DueWindow(r);
    DueWindow(s);
    Moved(now, 1, 0, 0);
    Moved(now, 0, 3, 0);
    Moved(now, 0, 0, 7);
    Moved(now, 0, 0, 1);
  }

  /** A second rotation at the same instant changes nothing. */
  lemma RotateTwice(r: Roles, now: Instant, store: Instant -> Instant)
    requires Rounding(store)
    ensures Rotated(Rotated(r, now, store), now, store) == Rotated(r, now, store)
  {
    RotatedIsNotDue(r, now, store);
  }

  /** A role changes only by one version step; root or targets drag snapshot along, snapshot drags timestamp along. */
  lemma Cascade(r: Roles, now: Instant, store: Instant -> Instant)
    ensures var s := Rotated(r, now, store);
            && (s.root == r.root || s.root.version == r.root.version + 1)
            && (s.targets == r.targets || s.targets.version == r.targets.version + 1)
            && (s.snapshot == r.snapshot || s.snapshot.version == r.snapshot.version + 1)
            && (s.timestamp == r.timestamp || s.timestamp.version == r.timestamp.version + 1)
            && (s.root != r.root || s.targets != r.targets ==> s.snapshot.version == r.snapshot.version + 1)
            && (s.snapshot != r.snapshot ==> s.timestamp.version == r.timestamp.version + 1)
            && (s.root.version == r.root.version + 1 <==> RootRotateAt(r) <= now)
            && (s.targets.version == r.targets.version + 1 <==> TargetsRotateAt(r) <= now)
            && (s.snapshot.version == r.snapshot.version + 1 <==>
                  r.snapshot.expires - 5 * 86400 * 1_000_000_000 <= now || s.root != r.root || s.targets != r.targets)
            && (s.timestamp.version == r.timestamp.version + 1 <==>
                  r.timestamp.expires - 20 * 3600 * 1_000_000_000 <= now || s.snapshot != r.snapshot)
  {
    DueWindow(r);
  }

  /** A renewed role is good for its period from now, no longer: root for a year, targets for 3 months, snapshot for 7 days, timestamp for a day. */
  lemma RenewalPeriods(r: Roles, now: Instant, store: Instant -> Instant)
    requires Rounding(store)
    ensures var s, day, second := Rotated(r, now, store), 86400 * 1_000_000_000, 1_000_000_000;
            && (s.root != r.root ==> now + 336 * day - second < s.root.expires < now + 372 * day + second)
            && (s.targets != r.targets ==> now + 84 * day - second < s.targets.expires < now + 93 * day + second)
            && (s.snapshot != r.snapshot ==> now + 7 * day - second < s.snapshot.expires < now + 7 * day + second)
            && (s.timestamp != r.timestamp ==> now + day - second < s.timestamp.expires < now + day + second)
  {
    hide AddDate;
    Moved(now, 1, 0, 0);
    Moved(now, 0, 3, 0);
    Moved(now, 0, 0, 7);
    Moved(now, 0, 0, 1);
  }

  /** And it is due again within its interval: timestamp after 4 hours, snapshot after 2 days, targets after 12 to 30 days. */
  lemma DueAgain(r: Roles, now: Instant, store: Instant -> Instant)
    requires Rounding(store)
    ensures var s, hour, day, second := Rotated(r, now, store), 3600 * 1_000_000_000, 86400 * 1_000_000_000, 1_000_000_000;
            && (s.root != r.root ==> now + 48 * day - second < RootRotateAt(s) < now + 129 * day + second)
            && (s.targets != r.targets ==> now + 12 * day - second < TargetsRotateAt(s) < now + 30 * day + second)
            && (s.snapshot != r.snapshot ==> now + 2 * day - second < SnapshotRotateAt(s) < now + 2 * day + second)
            && (s.timestamp != r.timestamp ==> now + 4 * hour - second < TimestampRotateAt(s) < now + 4 * hour + second)
  {
    RenewalPeriods(r, now, store);
    DueWindow(Rotated(r, now, store));
    hide Rotated, RootRotateAt, TargetsRotateAt, SnapshotRotateAt, TimestampRotateAt;
  }

  /** The role expires on the given date, at the time of day of now, as far as the repository stores it. */
  ghost predicate ExpiresOn(role: Role, store: Instant -> Instant, now: Instant, d: Date) {
    exists t :: role.expires == store(t) && t % DAY == now % DAY && DateOf(t / DAY) == d
  }

  /** Root is due 9 months before it expires: 3 months into its year. */
  lemma RootDueDate(r: Roles)
    requires DateOf(r.root.expires / DAY).day <= 28
    ensures var d := DateOf(r.root.expires / DAY);
            && RootRotateAt(r) % DAY == r.root.expires % DAY
            && DateOf(RootRotateAt(r) / DAY) == if d.month > 9 then Date(d.year, d.month - 9, d.day) else Date(d.year - 1, d.month + 3, d.day)
  {
    DayRoundTrip(r.root.expires / DAY);
    var d := DateOf(r.root.expires / DAY);
    var back := Date(d.year - 1, d.month, d.day);
    AddDateKeepsDay(r.root.expires, -1, 0, back);
    var start := AddDate(r.root.expires, -1, 0, 0);
    AddDateKeepsDay(start, 0, 3, if d.month > 9 then Date(d.year, d.month - 9, d.day) else Date(d.year - 1, d.month + 3, d.day));
    hide AddDate, DateOf;
  }

  /** Up to the 28th of a month the year and the 3 months are those of the calendar: same day of the month, same time of day. */
  lemma RenewalDates(r: Roles, now: Instant, store: Instant -> Instant)
    requires DateOf(now / DAY).day <= 28
    ensures var s, d := Rotated(r, now, store), DateOf(now / DAY);
            && (s.root != r.root ==> ExpiresOn(s.root, store, now, Date(d.year + 1, d.month, d.day)))
            && (s.targets != r.targets ==> ExpiresOn(s.targets, store, now,
                  if d.month <= 9 then Date(d.year, d.month + 3, d.day) else Date(d.year + 1, d.month - 9, d.day)))
  {
    DayRoundTrip(now / DAY);
    var d := DateOf(now / DAY);
    var later := if d.month <= 9 then Date(d.year, d.month + 3, d.day) else Date(d.year + 1, d.month - 9, d.day);
    AddDateKeepsDay(now, 1, 0, Date(d.year + 1, d.month, d.day));
    AddDateKeepsDay(now, 0, 3, later);
    hide AddDate, DateOf, RootRotateAt, TargetsRotateAt, SnapshotRotateAt, TimestampRotateAt;
  }

  // ---------- runs of rotations ----------

  ghost predicate Live(r: Roles, t: Instant) {
    r.root.expires > t && r.targets.expires > t && r.snapshot.expires > t && r.timestamp.expires > t
  }

  /** A rotation keeps every role alive for the next 20 hours. */
  lemma LiveFor20Hours(r: Roles, now: Instant, store: Instant -> Instant, t: Instant)
    requires Rounding(store)
    requires t <= now + 20 * HOUR
    ensures Live(Rotated(r, now, store), t)
  {
    RotatedIsNotDue(r, now, store);
    DueWindow(Rotated(r, now, store));
  }

  /** 20 hours is the exact bound: some roles are left alone by a rotation and have expired a nanosecond later. */
  lemma TwentyHoursIsTight(now: Instant, store: Instant -> Instant)
    ensures exists r :: Rotated(r, now, store) == r && NoneDue(r, now) && !Live(r, now + 20 * HOUR + 1)
  {
    var far := now + 300 * DAY;
    var r := Roles(Role(1, far), Role(1, far), Role(1, far), Role(1, now + 20 * HOUR + 1));
    DueWindow(r);
    assert Rotated(r, now, store) == r && NoneDue(r, now) && !Live(r, now + 20 * HOUR + 1);
  }

  /** A rotation, or a task that commits targets of its own and thereby signs roles anew. */
  datatype Change = Rotation(at: Instant) | Commit(at: Instant, signed: Roles)

  function After(r: Roles, changes: seq<Change>, store: Instant -> Instant): Roles {
    if changes == [] then r
    else
      match changes[|changes| - 1]
      case Rotation(now) => Rotated(After(r, changes[..|changes| - 1], store), now, store)
      case Commit(_, signed) => signed
  }

  function Rotations(changes: seq<Change>): seq<Instant> {
    if changes == [] then []
    else
      var before := Rotations(changes[..|changes| - 1]);
      if changes[|changes| - 1].Rotation? then before + [changes[|changes| - 1].at] else before
  }

  /** A role that is signed anew is good for more than 20 hours. */
  ghost predicate Fresh(before: Role, after: Role, now: Instant) {
    after == before || after.expires > now + 20 * HOUR
  }

  ghost predicate FreshRoles(before: Roles, after: Roles, now: Instant) {
    && Fresh(before.root, after.root, now) && Fresh(before.targets, after.targets, now)
    && Fresh(before.snapshot, after.snapshot, now) && Fresh(before.timestamp, after.timestamp, now)
  }

  /** The validity periods the TUF library gives by default are the rotator's, and long enough. */
  lemma DefaultsAreFresh(before: Roles, now: Instant, store: Instant -> Instant, added: bool)
    requires Rounding(store)
    ensures FreshRoles(before, before.(
              targets := if added then Renewed(before.targets, AddDate(now, 0, 3, 0), store) else before.targets,
              snapshot := Renewed(before.snapshot, AddDate(now, 0, 0, 7), store),
              timestamp := Renewed(before.timestamp, AddDate(now, 0, 0, 1), store)), now)
  {
    hide AddDate;
    Moved(now, 0, 3, 0);
    Moved(now, 0, 0, 7);
    Moved(now, 0, 0, 1);
  }

  /** Changes in the order of time, whose commits sign nothing that is about to expire. */
  ghost predicate Proper(r: Roles, changes: seq<Change>, store: Instant -> Instant) {
    && (forall i, j :: 0 <= i <= j < |changes| ==> changes[i].at <= changes[j].at)
    && forall i :: 0 <= i < |changes| && changes[i].Commit? ==>
         FreshRoles(After(r, changes[..i], store), changes[i].signed, changes[i].at)
  }

  lemma ProperBefore(r: Roles, changes: seq<Change>, store: Instant -> Instant, n: nat)
    requires Proper(r, changes, store) && n <= |changes|
    ensures Proper(r, changes[..n], store)
  {
    hide FreshRoles, After;
    forall i | 0 <= i < n && changes[..n][i].Commit?
      ensures FreshRoles(After(r, changes[..n][..i], store), changes[..n][i].signed, changes[..n][i].at)
    {
      assert changes[..n][..i] == changes[..i];
    }
  }

  /** From the first rotation on all roles are alive until 20 hours after the latest one, whatever is committed in between. */
  lemma {:induction false} LiveSince(r: Roles, changes: seq<Change>, store: Instant -> Instant, t: Instant)
    requires Rounding(store) && Proper(r, changes, store) && Rotations(changes) != []
    requires var times := Rotations(changes); t <= times[|times| - 1] + 20 * HOUR
    ensures var times := Rotations(changes); times[|times| - 1] <= changes[|changes| - 1].at
    ensures Live(After(r, changes, store), t)
  {
    hide Rotated, Rounding;
    var n := |changes| - 1;
    if changes[n].Rotation? {
      LiveFor20Hours(After(r, changes[..n], store), changes[n].at, store, t);
    } else {
      ProperBefore(r, changes, store, n);
      LiveSince(r, changes[..n], store, t);
    }
  }

  lemma {:induction false} RotationsGrow(changes: seq<Change>, n: nat)
    requires n <= |changes|
    ensures Rotations(changes[..n]) <= Rotations(changes)
    decreases |changes|
  {
    if n < |changes| {
      RotationsGrow(changes[..|changes| - 1], n);
      assert changes[..|changes| - 1][..n] == changes[..n];
    } else {
      assert changes[..n] == changes;
    }
  }

  /** With gaps of at most 20 hours between rotations no role is ever expired after the first one. */
  lemma NeverExpired(r: Roles, changes: seq<Change>, store: Instant -> Instant, i: nat, t: Instant)
    requires Rounding(store) && Proper(r, changes, store) && i < |changes|
    requires var times := Rotations(changes); forall j :: 0 <= j < |times| - 1 ==> times[j + 1] - times[j] <= 20 * HOUR
    requires var times, k := Rotations(changes), |Rotations(changes[..i + 1])|;
             k > 0 && (k <= |times| ==> t <= if k < |times| then times[k] else times[k - 1] + 20 * HOUR)
    ensures Live(After(r, changes[..i + 1], store), t)
  {
    hide After, Live, Rounding;
    var times, k := Rotations(changes), |Rotations(changes[..i + 1])|;
    RotationsGrow(changes, i + 1);
    assert Rotations(changes[..i + 1])[k - 1] == times[k - 1];
    ProperBefore(r, changes, store, i + 1);
    hide Proper, Rotations;
    LiveSince(r, changes[..i + 1], store, t);
  }

  // ---------- renewals in a run ----------

  ghost predicate RotationsOnly(changes: seq<Change>) {
    && (forall i :: 0 <= i < |changes| ==> changes[i].Rotation?)
    && forall i, j :: 0 <= i <= j < |changes| ==> changes[i].at <= changes[j].at
  }

  /** After a rotation the timestamp role never lasts for more than a day. */
  lemma {:induction false} TimestampIsShort(r: Roles, changes: seq<Change>, store: Instant -> Instant)
    requires Rounding(store) && RotationsOnly(changes) && changes != []
    requires r.timestamp.expires < changes[0].at + DAY + SECOND
    ensures After(r, changes, store).timestamp.expires < changes[|changes| - 1].at + DAY + SECOND
  {
    hide Rotated;
    var n := |changes| - 1;
    var before := After(r, changes[..n], store);
    RenewalPeriods(before, changes[n].at, store);
    if n > 0 {
      TimestampIsShort(r, changes[..n], store);
    }
  }

  /** Between two rotations the timestamp role is the same or has been renewed. */
  lemma {:induction false} SameOrNewer(r: Roles, changes: seq<Change>, store: Instant -> Instant, i: nat)
    requires RotationsOnly(changes) && i <= |changes|
    ensures var a, b := After(r, changes[..i], store).timestamp, After(r, changes, store).timestamp;
            b == a || b.version > a.version
    decreases |changes|
  {
    hide Rotated;
    if i < |changes| {
      var n := |changes| - 1;
      SameOrNewer(r, changes[..n], store, i);
      assert changes[..n][..i] == changes[..i];
      Cascade(After(r, changes[..n], store), changes[n].at, store);
    } else {
      assert changes[..i] == changes;
    }
  }

  /** The timestamp role is renewed at least once in every 4 hours, by the first rotation after them at the latest. */
  lemma TimestampIsRenewed(r: Roles, changes: seq<Change>, store: Instant -> Instant, i: nat, j: nat)
    requires Rounding(store) && RotationsOnly(changes) && i < j < |changes|
    requires r.timestamp.expires < changes[0].at + 86400 * 1_000_000_000 + 1_000_000_000
    requires changes[j].at >= changes[i].at + 4 * 3600 * 1_000_000_000 + 1_000_000_000
    ensures After(r, changes[..j + 1], store).timestamp.version > After(r, changes[..i + 1], store).timestamp.version
  {
    hide Rotated, Rounding;
    var before := changes[..j];
    assert changes[..j + 1][..j] == before && changes[..j + 1][j] == changes[j];
    assert before[..i + 1] == changes[..i + 1];
    RenewedParts(changes, i, j);
    TimestampIsShort(r, changes[..i + 1], store);
    SameOrNewer(r, before, store, i + 1);
    Cascade(After(r, before, store), changes[j].at, store);
  }

  lemma RenewedParts(changes: seq<Change>, i: nat, j: nat)
    requires RotationsOnly(changes) && i < j < |changes|
    ensures RotationsOnly(changes[..i + 1]) && RotationsOnly(changes[..j])
  {
  }

  // ---------- the gate ----------

  const PERIODIC_RUN_PERIOD: int := HOUR

  /** One call of the periodic function. Blocked: not configured, not initialized, or another task is queued or running.
   * A task it queues would run, fail or be canceled at the given time. */
  datatype Call = Call(at: Instant, runs: Instant, blocked: bool)

  /** The stored timestamp in seconds, which survives a restart, and the calls that went through since. */
  datatype Schedule = Schedule(last: Option<int>, passed: seq<Call>)

  /** A call goes through when nothing stands in its way, the timestamp is an hour old and the previous task is done. */
  predicate Opens(s: Schedule, c: Call) {
    && !c.blocked
    && (s.last.Some? ==> c.at - s.last.value * SECOND >= PERIODIC_RUN_PERIOD)
    && (s.passed != [] ==> s.passed[|s.passed| - 1].runs <= c.at)
  }

  function Called(s: Schedule, c: Call): Schedule {
    if Opens(s, c) then Schedule(Some(c.at / SECOND), s.passed + [c]) else s
  }

  function Calls(last: Option<int>, calls: seq<Call>): Schedule {
    if calls == [] then Schedule(last, []) else Called(Calls(last, calls[..|calls| - 1]), calls[|calls| - 1])
  }

  /** The backend's periodic function. */
  class Backend {
    var schedule: Schedule

    /** After a restart the storage still holds the timestamp. */
    constructor (last: Option<int>)
      ensures schedule == Schedule(last, [])
    {
      schedule := Schedule(last, []);
    }

    /** The task is queued and the timestamp stored only when nothing stands in the way. */
    method Periodic(now: Instant, runs: Instant, configured: bool, initialized: bool, otherTask: bool) returns (queued: bool)
      modifies this
      ensures var c := Call(now, runs, !configured || !initialized || otherTask);
              (queued <==> Opens(old(schedule), c)) && schedule == Called(old(schedule), c)
      ensures queued <==>
                && configured && initialized && !otherTask
                && (old(schedule.last).Some? ==> now - old(schedule.last).value * 1_000_000_000 >= 3600 * 1_000_000_000)
                && (old(schedule.passed) != [] ==> old(schedule.passed)[|old(schedule.passed)| - 1].runs <= now)
      ensures schedule.last == if queued then Some(now / 1_000_000_000) else old(schedule.last)
    {
      queued := false;
      if schedule.last.Some? && now - schedule.last.value * SECOND < PERIODIC_RUN_PERIOD {
        return;
      }
      if !configured || !initialized {
        return;
      }
      var busy := otherTask || (schedule.passed != [] && now < schedule.passed[|schedule.passed| - 1].runs);
      if busy {
        return;
      }
      schedule := Schedule(Some(now / SECOND), schedule.passed + [Call(now, runs, false)]);
      queued := true;
    }
  }

  function Unblocked(calls: seq<Call>): seq<Call> {
    if calls == [] then []
    else
      var before := Unblocked(calls[..|calls| - 1]);
      if calls[|calls| - 1].blocked then before else before + [calls[|calls| - 1]]
  }

  /** A call that is blocked leaves no trace. */
  lemma {:induction false} BlockedLeaveNoTrace(last: Option<int>, calls: seq<Call>)
    ensures Calls(last, calls) == Calls(last, Unblocked(calls))
    ensures forall i :: 0 <= i < |Unblocked(calls)| ==> !Unblocked(calls)[i].blocked
  {
    if calls != [] {
      hide Opens;
      var n := |calls| - 1;
      BlockedLeaveNoTrace(last, calls[..n]);
      var before := Unblocked(calls[..n]);
      if !calls[n].blocked {
        CallsAppend(last, before, calls[n]);
      } else {
        BlockedCall(Calls(last, calls[..n]), calls[n]);
      }
      hide Called;
    }
  }

  lemma CallsAppend(last: Option<int>, calls: seq<Call>, c: Call)
    ensures Calls(last, calls + [c]) == Called(Calls(last, calls), c)
  {
    hide Called;
    assert (calls + [c])[..|calls|] == calls;
  }

  lemma BlockedCall(s: Schedule, c: Call)
    requires c.blocked
    ensures Called(s, c) == s
  {
  }

  /** Calls at most gap apart, each task running at most delay after the call that queued it. */
  ghost predicate Regular(calls: seq<Call>, gap: int, delay: int) {
    && (forall i :: 0 <= i < |calls| ==> calls[i].at <= calls[i].runs <= calls[i].at + delay)
    && (forall i :: 0 < i < |calls| ==> calls[i - 1].at <= calls[i].at <= calls[i - 1].at + gap)
  }

  function Max(a: int, b: int): int {
    if a < b then b else a
  }

  /** Some call went through, rotations are at most bound apart, and the latest call is not long after the latest of them. */
  ghost predicate Kept(s: Schedule, latest: Instant, gap: int, delay: int) {
    && s.passed != []
    && var o := s.passed[|s.passed| - 1];
    && s.last == Some(o.at / SECOND)
    && o.at <= o.runs <= o.at + delay
    && o.at <= latest <= o.at + Max(HOUR, delay)
    && forall i :: 0 < i < |s.passed| ==>
         s.passed[i - 1].runs <= s.passed[i].runs <= s.passed[i - 1].runs + Max(HOUR, delay) + gap + delay
  }

  /** No call has gone through yet, since the timestamp from before the restart is still too young. */
  ghost predicate Held(s: Schedule, last: Option<int>, latest: Instant) {
    s == Schedule(last, []) && last.Some? && latest < last.value * SECOND + HOUR
  }

  lemma {:induction false} CallsKept(last: Option<int>, calls: seq<Call>, gap: int, delay: int)
    requires calls != [] && Regular(calls, gap, delay) && forall i :: 0 <= i < |calls| ==> !calls[i].blocked
    ensures var s, latest := Calls(last, calls), calls[|calls| - 1].at;
            Held(s, last, latest) || Kept(s, latest, gap, delay)
  {
    var n := |calls| - 1;
    var c := calls[n];
    if n == 0 {
      assert Calls(last, calls[..0]) == Schedule(last, []);
    } else {
      CallsKept(last, calls[..n], gap, delay);
      assert calls[n - 1].at <= c.at <= calls[n - 1].at + gap;
      var s := Calls(last, calls[..n]);
      if Kept(s, calls[n - 1].at, gap, delay) {
        CalledKept(s, calls[n - 1].at, c, gap, delay);
      } else {
        assert Held(s, last, calls[n - 1].at);
      }
    }
  }

  lemma CalledKept(s: Schedule, latest: Instant, c: Call, gap: int, delay: int)
    requires Kept(s, latest, gap, delay) && !c.blocked
    requires latest <= c.at <= latest + gap && c.at <= c.runs <= c.at + delay
    ensures Kept(Called(s, c), c.at, gap, delay)
  {
    var o, next := s.passed[|s.passed| - 1], Called(s, c);
    if Opens(s, c) {
      assert next.passed == s.passed + [c];
      forall i | 0 < i < |next.passed|
        ensures next.passed[i - 1].runs <= next.passed[i].runs <= next.passed[i - 1].runs + Max(HOUR, delay) + gap + delay
      {
        if i == |s.passed| { assert next.passed[i - 1] == o; }
      }
    }
  }

  function Runs(calls: seq<Call>): (times: seq<Instant>)
    ensures |times| == |calls| && forall i :: 0 <= i < |calls| ==> times[i] == calls[i].runs
  {
    seq(|calls|, i requires 0 <= i < |calls| => calls[i].runs)
  }

  // ---------- tasks that fail ----------

  /** The times of the tasks that did rotate the roles. */
  function Done(times: seq<Instant>, done: seq<bool>): seq<Instant>
    requires |times| == |done|
  {
    if times == [] then []
    else
      var n := |times| - 1;
      var before := Done(times[..n], done[..n]);
      if done[n] then before + [times[n]] else before
  }

  /** No more than m tasks in a row fail. */
  ghost predicate FailuresWithin(done: seq<bool>, m: nat) {
    forall i :: 0 <= i < |done| - m ==> DoneIn(done, i, m)
  }

  ghost predicate DoneIn(done: seq<bool>, i: nat, m: nat)
    requires i + m < |done|
  {
    exists j :: i <= j <= i + m && done[j]
  }

  /** Consecutive times are at most step apart. */
  ghost predicate Gaps(times: seq<Instant>, step: int) {
    forall i :: 0 <= i < |times| - 1 ==> times[i] <= times[i + 1] <= times[i] + step
  }

  lemma {:induction false} Span(times: seq<Instant>, step: int, i: nat, j: nat)
    requires Gaps(times, step) && i <= j < |times|
    ensures times[i] <= times[j] <= times[i] + (j - i) * step
  {
    if i < j {
      Span(times, step, i, j - 1);
      assert times[j - 1] <= times[j - 1 + 1] <= times[j - 1] + step;
      assert (j - i) * step == (j - 1 - i) * step + step;
    }
  }

  /** The last task that rotated the roles, or -1. */
  function LastDone(done: seq<bool>): (i: int)
    ensures -1 <= i < |done| && (i >= 0 ==> done[i]) && forall j :: i < j < |done| ==> !done[j]
  {
    if done == [] then -1
    else if done[|done| - 1] then |done| - 1
    else LastDone(done[..|done| - 1])
  }

  lemma LastDoneWithin(done: seq<bool>, m: nat)
    requires FailuresWithin(done, m)
    ensures |done| - 1 - LastDone(done) <= m
  {
    if |done| > m {
      assert DoneIn(done, |done| - 1 - m, m);
    }
  }

  lemma FailuresPart(done: seq<bool>, m: nat, n: nat)
    requires FailuresWithin(done, m) && n <= |done|
    ensures FailuresWithin(done[..n], m)
  {
    forall i | 0 <= i < n - m ensures DoneIn(done[..n], i, m) {
      assert DoneIn(done, i, m);
      var j :| i <= j <= i + m && done[j];
      assert done[..n][j];
    }
  }

  lemma Several(k: int, m: nat, step: int)
    requires 0 <= step && k <= m
    ensures k * step <= m * step
  {
  }

  /** With at most m failures in a row the gaps are at most m + 1 times as long. */
  lemma {:induction false} DoneGaps(times: seq<Instant>, done: seq<bool>, m: nat, step: int)
    requires |times| == |done| && Gaps(times, step) && FailuresWithin(done, m) && 0 <= step
    ensures Gaps(Done(times, done), (m + 1) * step)
    ensures var ts, l := Done(times, done), LastDone(done);
            (ts == [] <==> l < 0) && (l >= 0 ==> ts[|ts| - 1] == times[l])
  {
    if times != [] {
      hide *;
      var n := |times| - 1;
      FailuresPart(done, m, n);
      GapsPart(times, step, n);
      DoneGaps(times[..n], done[..n], m, step);
      DoneNext(times, done);
      var before, l := Done(times[..n], done[..n]), LastDone(done[..n]);
      if done[n] {
        if before != [] {
          LastDoneWithin(done[..n], m);
          Span(times, step, l, n);
          Several(n - l, m + 1, step);
        }
        GapsAppend(before, times[n], (m + 1) * step);
      }
    } else {
      GapsNone((m + 1) * step);
    }
  }

  lemma GapsNone(step: int)
    ensures Gaps([], step)
  {
  }

  lemma GapsPart(times: seq<Instant>, step: int, n: nat)
    requires Gaps(times, step) && n <= |times|
    ensures Gaps(times[..n], step)
  {
  }

  lemma GapsAppend(times: seq<Instant>, t: Instant, step: int)
    requires Gaps(times, step) && (times != [] ==> times[|times| - 1] <= t <= times[|times| - 1] + step)
    ensures Gaps(times + [t], step)
  {
  }

  lemma DoneNext(times: seq<Instant>, done: seq<bool>)
    requires |times| == |done| && times != []
    ensures var n := |times| - 1;
            && Done(times, done) == (if done[n] then Done(times[..n], done[..n]) + [times[n]] else Done(times[..n], done[..n]))
            && LastDone(done) == if done[n] then n else LastDone(done[..n])
  {
  }

  /**
   * Calls that are regular but for those that are blocked keep every role alive from the first rotation on, until the
   * call after the last, whatever other tasks commit and whatever timestamp a restart found, as long as no more than m
   * rotation tasks in a row fail or are canceled. Until the first call goes through that timestamp is less than an hour
   * old.
   */
  lemma PeriodicKeepsAlive(r: Roles, last: Option<int>, calls: seq<Call>, done: seq<bool>, changes: seq<Change>,
                           gap: int, delay: int, m: nat, store: Instant -> Instant, i: nat, t: Instant)
    requires Rounding(store) && Proper(r, changes, store)
    requires Unblocked(calls) != [] && Regular(Unblocked(calls), gap, delay)
    requires 0 <= gap && 0 <= delay && (m + 1) * (Max(HOUR, delay) + gap + delay) <= 20 * HOUR
    requires |done| == |Calls(last, calls).passed| && FailuresWithin(done, m)
    requires Rotations(changes) == Done(Runs(Calls(last, calls).passed), done)
    ensures var latest := Unblocked(calls)[|Unblocked(calls)| - 1].at;
            && (done == [] ==> last.Some? && latest < last.value * SECOND + HOUR)
            && (Rotations(changes) == [] ==> |done| <= m)
            && (i < |changes| && Rotations(changes[..i + 1]) != [] ==>
                  var times, k := Rotations(changes), |Rotations(changes[..i + 1])|;
                  k <= |times| && (t <= (if k < |times| then times[k] else latest + gap) ==>
                    Live(After(r, changes[..i + 1], store), t)))
  {
    hide *;
    var u := Unblocked(calls);
    BlockedLeaveNoTrace(last, calls);
    CallsKept(last, u, gap, delay);
    var s, times, latest := Calls(last, u), Rotations(changes), u[|u| - 1].at;
    GapsKept(s, last, latest, gap, delay);
    RotationGaps(s, done, latest, gap, delay, m);
    if i < |changes| && Rotations(changes[..i + 1]) != [] {
      RotationsGrow(changes, i + 1);
      var k := |Rotations(changes[..i + 1])|;
      if t <= if k < |times| then times[k] else latest + gap {
        NeverExpired(r, changes, store, i, t);
      }
    }
  }

  /** What the schedule says of the tasks. */
  lemma GapsKept(s: Schedule, last: Option<int>, latest: Instant, gap: int, delay: int)
    requires Held(s, last, latest) || Kept(s, latest, gap, delay)
    requires 0 <= gap && 0 <= delay
    ensures var times := Runs(s.passed);
            && (times == [] ==> last.Some? && latest < last.value * SECOND + HOUR)
            && (times != [] ==> latest <= times[|times| - 1] + Max(HOUR, delay))
            && Gaps(times, Max(HOUR, delay) + gap + delay) && Max(HOUR, delay) >= 0
  {
    var times, step := Runs(s.passed), Max(HOUR, delay) + gap + delay;
    forall j | 0 <= j < |times| - 1 ensures times[j] <= times[j + 1] <= times[j] + step {
      assert s.passed[j + 1 - 1].runs == times[j];
    }
  }

  /** And what follows for the rotations. */
  lemma RotationGaps(s: Schedule, done: seq<bool>, latest: Instant, gap: int, delay: int, m: nat)
    requires |done| == |s.passed| && FailuresWithin(done, m) && 0 <= gap && 0 <= delay && Max(HOUR, delay) >= 0
    requires (m + 1) * (Max(HOUR, delay) + gap + delay) <= 20 * HOUR
    requires var times := Runs(s.passed);
             && (times != [] ==> latest <= times[|times| - 1] + Max(HOUR, delay))
             && Gaps(times, Max(HOUR, delay) + gap + delay)
    ensures var ts := Done(Runs(s.passed), done);
            && (ts == [] ==> |done| <= m)
            && (ts != [] ==> latest + gap <= ts[|ts| - 1] + 20 * HOUR)
            && forall j :: 0 <= j < |ts| - 1 ==> ts[j + 1] - ts[j] <= 20 * HOUR
  {
    var times, step, l := Runs(s.passed), Max(HOUR, delay) + gap + delay, LastDone(done);
    DoneGaps(times, done, m, step);
    LastDoneWithin(done, m);
    if l >= 0 {
      var n := |times| - 1;
      Span(times, step, l, n);
      Several(n - l, m, step);
      assert (m + 1) * step == m * step + step;
    }
    hide FailuresWithin, Done, LastDone;
  }
}
