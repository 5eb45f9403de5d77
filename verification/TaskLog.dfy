/** Reading a task's log page by page while the task is still writing it. */
module TaskLog {
  import opened Options

  newtype Byte = x: int | 0 <= x < 256

  type Log = seq<Byte>

  datatype Answer = Refused | Page(data: Log)

  /** The reader's side of the service: a limit of zero asks for everything that is left. */
  function ReadLog(log: Log, offset: int, limit: int): (answer: Answer)
    ensures answer.Refused? <==> offset < 0 || limit < 0
  {
    if offset < 0 || limit < 0 then Refused
    else if |log| <= offset then Page([])
    else if |log[offset..]| < limit || limit == 0 then Page(log[offset..])
    else Page(log[offset..offset + limit])
  }

  /** A page is what follows the offset, empty exactly at the end of the log, and full unless it reaches the end. */
  lemma PageMeaning(log: Log, offset: nat, limit: nat)
    ensures var data := ReadLog(log, offset, limit).data;
            && (data == [] <==> |log| <= offset)
            && (offset <= |log| ==> log[..offset] + data <= log)
            && (limit > 0 ==> |data| <= limit)
            && (limit > 0 && |data| < limit ==> offset + |data| >= |log|)
            && (limit == 0 ==> offset + |data| >= |log|)
  {
    if offset < |log| {
      var data := ReadLog(log, offset, limit).data;
      assert log[..offset] + data == log[..offset + |data|];
    }
  }

  /** Logs only grow. */
  ghost predicate Growing(logs: seq<Log>) {
    forall i, j :: 0 <= i <= j < |logs| ==> logs[i] <= logs[j]
  }

  function Min(a: int, b: int): int {
    if a <= b then a else b
  }

  /** How far a watcher has come after polling the given logs. */
  function Reach(logs: seq<Log>, limit: nat): (r: int)
  {
    if logs == [] then 0
    else
      var end := |logs[|logs| - 1]|;
      if limit == 0 then end else Min(Reach(logs[..|logs| - 1], limit) + limit, end)
  }

  /** The offset is bounded by every log seen, plus what the polls since then could carry. */
  ghost predicate Bounds(logs: seq<Log>, limit: nat, offset: int) {
    && offset <= |logs| * limit
    && forall i :: 0 <= i < |logs| ==> offset <= |logs[i]| + (|logs| - 1 - i) * limit
  }

  /** One of the bounds is met exactly. */
  ghost predicate Meets(logs: seq<Log>, limit: nat, offset: int) {
    || offset == |logs| * limit
    || exists i :: 0 <= i < |logs| && offset == |logs[i]| + (|logs| - 1 - i) * limit
  }

  /** The watcher is as far as the polls could carry it: no bound is missed, and one is met. */
  lemma {:induction false} ReachIsTightest(logs: seq<Log>, limit: nat)
    requires limit > 0
    ensures Bounds(logs, limit, Reach(logs, limit)) && Meets(logs, limit, Reach(logs, limit))
  {
    if logs != [] {
      var n := |logs| - 1;
      var before := logs[..n];
      ReachIsTightest(before, limit);
      var last, now := Reach(before, limit), Reach(logs, limit);
      assert (n + 1) * limit == n * limit + limit;
      forall i | 0 <= i < |logs| ensures now <= |logs[i]| + (n - i) * limit {
        if i < n {
          assert before[i] == logs[i] && (n - i) * limit == (n - 1 - i) * limit + limit;
        }
      }
      if now == last + limit && last != n * limit {
        var i :| 0 <= i < n && last == |before[i]| + (n - 1 - i) * limit;
        assert logs[i] == before[i] && (n - i) * limit == (n - 1 - i) * limit + limit;
        assert now == |logs[i]| + (n - i) * limit;
      } else if now == |logs[n]| {
        assert now == |logs[n]| + (n - n) * limit;
      }
    }
  }

  /** The polls that were answered. */
  function Answered(polls: seq<Option<Log>>): seq<Log> {
    if polls == [] then []
    else
      var before := Answered(polls[..|polls| - 1]);
      match polls[|polls| - 1]
      case None => before
      case Some(log) => before + [log]
  }

  function Final(logs: seq<Log>): Log {
    if logs == [] then [] else logs[|logs| - 1]
  }

  // ---------- a page on its way ----------

  predicate Continues(b: Byte) {
    0x80 <= b <= 0xBF
  }

  /** The length of the UTF-8 character at the start, or 0 if there is none (Unicode, table of well-formed sequences). */
  function RuneLen(p: Log): (n: nat)
    ensures n <= |p|
  {
    if p == [] then 0
    else if p[0] < 0x80 then 1
    else if 0xC2 <= p[0] <= 0xDF then
      if |p| > 1 && Continues(p[1]) then 2 else 0
    else if 0xE0 <= p[0] <= 0xEF then
      if |p| > 2 && Continues(p[1]) && Continues(p[2]) && (p[0] == 0xE0 ==> p[1] >= 0xA0) && (p[0] == 0xED ==> p[1] <= 0x9F) then 3 else 0
    else if 0xF0 <= p[0] <= 0xF4 then
      if |p| > 3 && Continues(p[1]) && Continues(p[2]) && Continues(p[3])
        && (p[0] == 0xF0 ==> p[1] >= 0x90) && (p[0] == 0xF4 ==> p[1] <= 0x8F) then 4 else 0
    else 0
  }

  /** The UTF-8 encoding of a character (RFC 3629, section 3). */
  function Encode(c: int): Log
    requires 0 <= c <= 0x10FFFF
  {
    if c < 0x80 then [c as Byte]
    else if c < 0x800 then [(0xC0 + c / 0x40) as Byte, (0x80 + c % 0x40) as Byte]
    else if c < 0x10000 then [(0xE0 + c / 0x1000) as Byte, (0x80 + c / 0x40 % 0x40) as Byte, (0x80 + c % 0x40) as Byte]
    else [(0xF0 + c / 0x40000) as Byte, (0x80 + c / 0x1000 % 0x40) as Byte, (0x80 + c / 0x40 % 0x40) as Byte, (0x80 + c % 0x40) as Byte]
  }

  /** A character, but no half of a surrogate pair. */
  predicate Scalar(c: int) {
    0 <= c <= 0x10FFFF && !(0xD800 <= c <= 0xDFFF)
  }

  /** U+FFFD, which stands for a byte that belongs to no character. */
  const REPLACEMENT: Log := [0xEF, 0xBF, 0xBD]

  /** The page travels as a JSON string, in which every byte that belongs to no character is replaced. */
  function Transmit(p: Log): Log
    decreases |p|
  {
    if p == [] then []
    else if RuneLen(p) == 0 then REPLACEMENT + Transmit(p[1..])
    else p[..RuneLen(p)] + Transmit(p[RuneLen(p)..])
  }

  /** How many bytes belong to no character. */
  function Strays(p: Log): nat
    decreases |p|
  {
    if p == [] then 0
    else if RuneLen(p) == 0 then 1 + Strays(p[1..])
    else Strays(p[RuneLen(p)..])
  }

  predicate Whole(p: Log) {
    Strays(p) == 0
  }

  /** A page arrives two bytes longer for every stray byte, and unchanged exactly if it consists of whole characters. */
  lemma {:induction false} Transmitted(p: Log)
    ensures |Transmit(p)| == |p| + 2 * Strays(p)
    ensures Transmit(p) == p <==> Whole(p)
    decreases |p|
  {
    if p != [] {
      if RuneLen(p) == 0 {
        Transmitted(p[1..]);
      } else {
        Transmitted(p[RuneLen(p)..]);
        assert p == p[..RuneLen(p)] + p[RuneLen(p)..];
      }
    }
  }

  /** What is taken for a character is the encoding of one, and every encoding is taken for a character. */
  lemma RunesAreCharacters(p: Log)
    ensures RuneLen(p) > 0 ==> exists c :: Scalar(c) && p[..RuneLen(p)] == Encode(c)
    ensures forall c :: Scalar(c) && Encode(c) <= p ==> RuneLen(p) == |Encode(c)|
  {
    if RuneLen(p) > 0 {
      var c := Decoded(p);
      assert Scalar(c) && p[..RuneLen(p)] == Encode(c);
    }
    forall c | Scalar(c) && Encode(c) <= p ensures RuneLen(p) == |Encode(c)| {
      EncodedIsRune(c, p);
    }
  }

  lemma EncodedIsRune(c: int, p: Log)
    requires Scalar(c) && Encode(c) <= p
    ensures RuneLen(p) == |Encode(c)|
  {
    var e := Encode(c);
    assert forall i :: 0 <= i < |e| ==> p[i] == e[i];
  }

  lemma Decoded(p: Log) returns (c: int)
    requires RuneLen(p) > 0
    ensures Scalar(c) && p[..RuneLen(p)] == Encode(c)
  {
    var a := p[0] as int;
    if RuneLen(p) == 1 {
      c := a;
    } else if RuneLen(p) == 2 {
      c := (a - 0xC0) * 0x40 + (p[1] as int - 0x80);
    } else if RuneLen(p) == 3 {
      c := (a - 0xE0) * 0x1000 + (p[1] as int - 0x80) * 0x40 + (p[2] as int - 0x80);
      assert c / 0x40 == (a - 0xE0) * 0x40 + (p[1] as int - 0x80);
    } else {
      c := FourDecoded(p);
    }
  }

  lemma FourDecoded(p: Log) returns (c: int)
    requires RuneLen(p) == 4
    ensures Scalar(c) && p[..4] == Encode(c)
  {
    c := (p[0] as int - 0xF0) * 0x40000 + (p[1] as int - 0x80) * 0x1000 + (p[2] as int - 0x80) * 0x40 + (p[3] as int - 0x80);
    assert c / 0x40 == (p[0] as int - 0xF0) * 0x1000 + (p[1] as int - 0x80) * 0x40 + (p[2] as int - 0x80);
    assert c / 0x1000 == (p[0] as int - 0xF0) * 0x40 + (p[1] as int - 0x80);
  }

  /** The replacement is the encoding of U+FFFD. */
  lemma ReplacementIsCharacter()
    ensures Encode(0xFFFD) == REPLACEMENT == [0xEF, 0xBF, 0xBD]
  {
  }

  lemma RuneStays(a: Log, b: Log)
    requires RuneLen(a) > 0
    ensures RuneLen(a + b) == RuneLen(a)
  {
    assert forall i :: 0 <= i < |a| ==> (a + b)[i] == a[i];
  }

  /** After whole characters, what follows is judged by itself. */
  lemma {:induction false} WholeThen(a: Log, b: Log)
    requires Whole(a)
    ensures Whole(a + b) <==> Whole(b)
    decreases |a|
  {
    if a == [] {
      assert a + b == b;
    } else {
      var n := RuneLen(a);
      assert n > 0;
      RuneStays(a, b);
      assert (a + b)[n..] == a[n..] + b;
      WholeThen(a[n..], b);
    }
  }

  // ---------- the watcher ----------

  /** What the watcher has shown, which is as long as its offset, and whether every page was of whole characters. */
  datatype Watch = Watch(shown: Log, whole: bool)

  function NextPage(w: Watch, log: Log, limit: nat): Log {
    ReadLog(log, |w.shown|, limit).data
  }

  function Watching(logs: seq<Log>, limit: nat): Watch {
    if logs == [] then Watch([], true)
    else
      var w := Watching(logs[..|logs| - 1], limit);
      var page := NextPage(w, logs[|logs| - 1], limit);
      Watch(w.shown + Transmit(page), w.whole && Whole(page))
  }

  /** One more page leads from what an earlier log had shown to as much of the next log as the limit allows. */
  lemma PageNext(logs: seq<Log>, shown: Log, limit: nat)
    requires logs != [] && Growing(logs)
    requires shown <= Final(logs[..|logs| - 1]) && |shown| == Reach(logs[..|logs| - 1], limit)
    ensures var data := ReadLog(Final(logs), |shown|, limit).data;
            shown + data <= Final(logs) && |shown + data| == Reach(logs, limit)
  {
    var log := Final(logs);
    if |logs| > 1 {
      assert logs[|logs| - 2] <= logs[|logs| - 1];
    }
    assert shown == log[..|shown|];
    PageMeaning(log, |shown|, limit);
  }

  lemma GrowingPart(part: seq<Log>, logs: seq<Log>)
    requires part <= logs && Growing(logs)
    ensures Growing(part)
  {
    forall i, j | 0 <= i <= j < |part| ensures part[i] <= part[j] {
      assert part[i] == logs[i] && part[j] == logs[j];
    }
  }

  /** As long as all pages are whole, what was shown is the log so far, and as much of it as the polls could carry. */
  lemma {:induction false} WholePagesShowTheLog(logs: seq<Log>, limit: nat)
    requires Growing(logs) && Watching(logs, limit).whole
    ensures var w := Watching(logs, limit); w.shown <= Final(logs) && |w.shown| == Reach(logs, limit)
  {
    if logs != [] {
      var before := logs[..|logs| - 1];
      GrowingPart(before, logs);
      hide Growing, ReadLog, Transmit, Strays;
      WholePagesShowTheLog(before, limit);
      var w := Watching(before, limit);
      Transmitted(NextPage(w, Final(logs), limit));
      PageNext(logs, w.shown, limit);
    }
  }

  /** The page of poll k starts where the page before it ended. */
  ghost predicate StepsExactly(logs: seq<Log>, limit: nat, k: nat)
    requires k < |logs|
  {
    var w := Watching(logs[..k], limit);
    |Watching(logs[..k + 1], limit).shown| == |w.shown| + |NextPage(w, logs[k], limit)|
  }

  /** Nothing is skipped exactly if every page is of whole characters: each stray byte takes the offset two bytes too far. */
  lemma {:induction false} StrayBytesSkip(logs: seq<Log>, limit: nat)
    ensures Watching(logs, limit).whole <==> forall k :: 0 <= k < |logs| ==> StepsExactly(logs, limit, k)
    ensures logs != [] ==>
              var w := Watching(logs[..|logs| - 1], limit);
              var page := NextPage(w, logs[|logs| - 1], limit);
              |Watching(logs, limit).shown| == |w.shown| + |page| + 2 * Strays(page)
  {
    if logs != [] {
      var n := |logs| - 1;
      var before := logs[..n];
      StrayBytesSkip(before, limit);
      Transmitted(NextPage(Watching(before, limit), logs[n], limit));
      assert logs[..n + 1] == logs;
      hide Transmit, Strays, ReadLog;
      forall k | 0 <= k < n ensures StepsExactly(before, limit, k) <==> StepsExactly(logs, limit, k) {
        assert before[..k] == logs[..k] && before[..k + 1] == logs[..k + 1];
      }
      assert StepsExactly(logs, limit, n) <==> Whole(NextPage(Watching(before, limit), logs[n], limit));
    }
  }

  /** No log is longer than a page. */
  ghost predicate Unlimited(logs: seq<Log>, limit: nat) {
    forall i :: 0 <= i < |logs| ==> limit == 0 || |logs[i]| <= limit
  }

  /** After poll k the offset is no further than the log was. */
  ghost predicate WithinLog(logs: seq<Log>, limit: nat, k: nat)
    requires k < |logs|
  {
    |Watching(logs[..k + 1], limit).shown| <= |logs[k]|
  }

  /** The offset never runs ahead of the log. */
  ghost predicate AllWithin(logs: seq<Log>, limit: nat) {
    forall k :: 0 <= k < |logs| ==> WithinLog(logs, limit, k)
  }

  /** The log was of whole characters every time a poll was answered. */
  ghost predicate AllWhole(logs: seq<Log>) {
    forall k :: 0 <= k < |logs| ==> Whole(logs[k])
  }

  /**
   * Where a page can hold the whole log, the offset never runs ahead of the log if and only if the log was of whole
   * characters every time a poll was answered.
   */
  lemma {:induction false} WatchIsExact(logs: seq<Log>, limit: nat)
    requires Growing(logs) && Unlimited(logs, limit)
    ensures AllWithin(logs, limit) <==> AllWhole(logs)
    ensures Watching(logs, limit).whole <==> AllWhole(logs)
  {
    if logs == [] {
      assert Watching(logs, limit).whole;
    } else {
      hide *;
      var before := logs[..|logs| - 1];
      GrowingPart(before, logs);
      PollsNext(logs, limit);
      WatchIsExact(before, limit);
      WatchedNext(logs, limit);
      if Watching(before, limit).whole {
        LastWithin(logs, limit);
      }
    }
  }

  lemma PollsNext(logs: seq<Log>, limit: nat)
    requires logs != [] && Unlimited(logs, limit)
    ensures var n := |logs| - 1;
            && Unlimited(logs[..n], limit)
            && (AllWhole(logs) <==> AllWhole(logs[..n]) && Whole(logs[n]))
            && (AllWithin(logs, limit) <==> AllWithin(logs[..n], limit) && WithinLog(logs, limit, n))
  {
    hide Strays, WithinLog;
    var n := |logs| - 1;
    forall k | 0 <= k < n ensures logs[..n][k] == logs[k] && (WithinLog(logs[..n], limit, k) <==> WithinLog(logs, limit, k)) {
      WithinPart(logs, n, limit, k);
    }
  }

  lemma WithinPart(logs: seq<Log>, n: nat, limit: nat, k: nat)
    requires k < n <= |logs|
    ensures WithinLog(logs[..n], limit, k) <==> WithinLog(logs, limit, k)
  {
    hide Watching;
    assert logs[..n][..k + 1] == logs[..k + 1];
  }

  /** After whole pages the next poll decides for itself. */
  lemma LastWithin(logs: seq<Log>, limit: nat)
    requires logs != [] && Growing(logs) && Unlimited(logs, limit)
    requires Watching(logs[..|logs| - 1], limit).whole && AllWhole(logs[..|logs| - 1])
    ensures var n := |logs| - 1;
            && (WithinLog(logs, limit, n) <==> Whole(logs[n])) && (Watching(logs, limit).whole <==> Whole(logs[n]))
  {
    var n := |logs| - 1;
    var before := logs[..n];
    assert logs[..n + 1] == logs;
    WatchedNext(logs, limit);
    NextIsRest(logs, limit);
    hide Strays, Transmit, ReadLog, Reach, Watching, NextPage, Growing, Unlimited;
    assert n > 0 ==> Whole(before[n - 1]);
    WholeThen(Final(before), NextPage(Watching(before, limit), logs[n], limit));
  }

  lemma NextIsRest(logs: seq<Log>, limit: nat)
    requires logs != [] && Growing(logs) && Unlimited(logs, limit)
    requires Watching(logs[..|logs| - 1], limit).whole
    ensures var before, log := logs[..|logs| - 1], logs[|logs| - 1];
            var page := NextPage(Watching(before, limit), log, limit);
            && log == Final(before) + page
            && |Watching(logs, limit).shown| == |log| + 2 * Strays(page)
    ensures Whole(Final([]))
  {
    var n := |logs| - 1;
    var before := logs[..n];
    hide Strays, Transmit, ReadLog, Reach, Watching;
    assert forall i :: 0 <= i < n ==> before[i] == logs[i];
    GrowingPart(before, logs);
    WholePagesShowTheLog(before, limit);
    UnlimitedReach(before, limit);
    assert n > 0 ==> logs[n - 1] <= logs[n];
    UnlimitedPage(logs[n], Final(before), limit);
    NothingIsWhole();
    StrayBytesSkip(logs, limit);
  }

  lemma NothingIsWhole()
    ensures Whole([])
  {
  }

  lemma WatchedNext(logs: seq<Log>, limit: nat)
    requires logs != []
    ensures var w := Watching(logs[..|logs| - 1], limit);
            Watching(logs, limit).whole <==> w.whole && Whole(NextPage(w, logs[|logs| - 1], limit))
  {
    hide Strays, Transmit, ReadLog;
  }

  lemma {:induction false} UnlimitedReach(logs: seq<Log>, limit: nat)
    requires Unlimited(logs, limit)
    ensures Reach(logs, limit) == |Final(logs)|
  {
    if logs != [] {
      var before := logs[..|logs| - 1];
      assert forall i :: 0 <= i < |before| ==> before[i] == logs[i];
      UnlimitedReach(before, limit);
    }
  }

  lemma UnlimitedPage(log: Log, shown: Log, limit: nat)
    requires shown <= log && (limit == 0 || |log| <= limit)
    ensures ReadLog(log, |shown|, limit).data == log[|shown|..] && log == shown + log[|shown|..]
  {
    if |shown| < |log| {
      assert limit == |log[|shown|..]| ==> log[|shown|..|shown| + limit] == log[|shown|..];
    }
  }

  /** The polls that were answered, after one more. */
  lemma AnsweredNext(polls: seq<Option<Log>>, k: nat)
    requires k < |polls|
    ensures var before, after := Answered(polls[..k]), Answered(polls[..k + 1]);
            if polls[k].Some? then after == before + [polls[k].value] && after[..|after| - 1] == before else after == before
  {
    assert polls[..k + 1][..k] == polls[..k];
  }

  /**
   * The watcher's loop, one poll a turn; a failed poll counts as an empty page. As long as pages are of whole
   * characters, what was shown is a prefix of the log, without a gap or a repetition, as long as the polls could carry.
   */
  method WatchTaskLog(polls: seq<Option<Log>>, limit: nat) returns (shown: Log, offset: nat)
    requires Growing(Answered(polls))
    ensures shown == Watching(Answered(polls), limit).shown && offset == |shown|
    ensures Watching(Answered(polls), limit).whole ==>
              shown <= Final(Answered(polls)) && offset == Reach(Answered(polls), limit)
  {
    shown, offset := [], 0;
    for k := 0 to |polls|
      invariant shown == Watching(Answered(polls[..k]), limit).shown && offset == |shown|
    {
      AnsweredNext(polls, k);
      hide Answered, Transmit, ReadLog, Strays;
      var data := [];
      if polls[k].Some? {
        data := Transmit(ReadLog(polls[k].value, offset, limit).data);
      }
      if data != [] {
        shown := shown + data;
        offset := offset + |data|;
      } else {
        assert shown + data == shown;
      }
    }
    assert polls[..|polls|] == polls;
    if Watching(Answered(polls), limit).whole {
      WholePagesShowTheLog(Answered(polls), limit);
    }
  }

  /** The same page request until an empty page comes back: on a log that has ended this yields exactly the log. */
  method FetchAll(log: Log, limit: nat) returns (all: Log, pages: nat)
    ensures all == log
    ensures limit > 0 ==> (pages - 1) * limit < |log| <= pages * limit || (log == [] && pages == 0)
    ensures limit == 0 ==> pages == if log == [] then 0 else 1
  {
    all, pages := [], 0;
    var data := ReadLog(log, 0, limit).data;
    PageMeaning(log, 0, limit);
    while data != []
      invariant |all| <= |log| && all == log[..|all|] && data == ReadLog(log, |all|, limit).data
      invariant limit > 0 ==> |all| == Min(pages * limit, |log|) && (pages > 0 ==> (pages - 1) * limit < |log|)
      invariant limit == 0 ==> |all| == (if pages == 0 then 0 else |log|) && (pages > 0 ==> pages == 1 && log != [])
      decreases |log| - |all|
    {
      PageMeaning(log, |all|, limit);
      all := all + data;
      pages := pages + 1;
      assert pages * limit == (pages - 1) * limit + limit;
      data := ReadLog(log, |all|, limit).data;
      PageMeaning(log, |all|, limit);
    }
    PageMeaning(log, |all|, limit);
  }

  /** Once the log has ended, enough answered polls show all of it, and from then on every page is empty. */
  lemma {:induction false} WatchedToTheEnd(logs: seq<Log>, log: Log, extra: nat, limit: nat)
    requires limit > 0 && Growing(logs) && Final(logs) <= log
    ensures Reach(logs + seq(extra, i => log), limit) == |log| <==> Reach(logs, limit) + extra * limit >= |log|
    ensures Reach(logs + seq(extra, i => log), limit) == Min(Reach(logs, limit) + extra * limit, |log|)
  {
    var all := logs + seq(extra, i => log);
    if extra == 0 {
      assert all == logs;
      ReachWithin(logs, limit);
    } else {
      assert all[..|all| - 1] == logs + seq(extra - 1, i => log);
      WatchedToTheEnd(logs, log, extra - 1, limit);
      assert extra * limit == (extra - 1) * limit + limit;
    }
  }

  lemma ReachWithin(logs: seq<Log>, limit: nat)
    ensures Reach(logs, limit) <= |Final(logs)|
  {
  }
}
