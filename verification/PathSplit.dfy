/** Splitting a path at its separators, except where a backslash stands before them. */
module PathSplit {

  const SEPARATOR: char := '/'

  predicate Separates(s: string, k: int) {
    0 <= k < |s| && s[k] == SEPARATOR && !(k > 0 && s[k - 1] == '\\')
  }

  /** The pieces, each with a separator after it. */
  function Terminated(pieces: seq<string>): string {
    if pieces == [] then "" else Terminated(pieces[..|pieces| - 1]) + pieces[|pieces| - 1] + [SEPARATOR]
  }

  /** The pieces, with separators in between. */
  function Joined(pieces: seq<string>): string
    requires pieces != []
  {
    Terminated(pieces[..|pieces| - 1]) + pieces[|pieces| - 1]
  }

  ghost predicate Uncut(piece: string) {
    forall k :: !Separates(piece, k)
  }

  ghost predicate EndsCleanly(piece: string) {
    piece == [] || piece[|piece| - 1] != '\\'
  }

  ghost predicate AllCut(pieces: seq<string>) {
    forall i :: 0 <= i < |pieces| ==> Uncut(pieces[i]) && EndsCleanly(pieces[i])
  }

  /** Joining the pieces gives back the path, and it was cut at no other separators than it should be. */
  ghost predicate IsSplit(path: string, pieces: seq<string>) {
    && pieces != [] && Joined(pieces) == path
    && AllCut(pieces[..|pieces| - 1]) && Uncut(pieces[|pieces| - 1])
  }

  // ---------- what a split is ----------

  function Cuts(path: string): nat {
    if path == [] then 0
    else Cuts(path[..|path| - 1]) + if Separates(path, |path| - 1) then 1 else 0
  }

  /** Separating depends on nothing that follows. */
  lemma SeparatesBefore(s: string, t: string, k: nat)
    requires k < |s|
    ensures Separates(s + t, k) <==> Separates(s, k)
  {
  }

  lemma TerminatedEnds(pieces: seq<string>)
    requires pieces != []
    ensures Terminated(pieces) != [] && Terminated(pieces)[|Terminated(pieces)| - 1] == SEPARATOR
  {
  }

  /** The last separator that cuts is the one before the last piece. */
  lemma LastCut(path: string, pieces: seq<string>)
    requires IsSplit(path, pieces)
    ensures |pieces| == 1 ==> path == pieces[0] && Uncut(path)
    ensures |pieces| > 1 ==>
              var n, q := |pieces| - 1, |path| - |pieces[|pieces| - 1]| - 1;
              && Separates(path, q) && (forall k :: k > q ==> !Separates(path, k))
              && path[q + 1..] == pieces[n] && IsSplit(path[..q], pieces[..n])
  {
    var n := |pieces| - 1;
    var last := pieces[n];
    if n > 0 {
      var before := pieces[n - 1];
      var init := pieces[..n];
      assert init[..n - 1] == pieces[..n - 1];
      var head := Terminated(init[..n - 1]);
      var q := |head + before|;
      assert path == head + before + [SEPARATOR] + last;
      assert path[..q] == head + before == Joined(init);
      assert Separates(path, q) by {
        if before == [] && head != [] {
          TerminatedEnds(init[..n - 1]);
        }
      }
      forall k | k > q ensures !Separates(path, k) {
        if k < |path| {
          assert !Separates(last, k - q - 1);
        }
      }
    }
  }

  /** A path has one split. */
  lemma {:induction false} SplitIsUnique(path: string, a: seq<string>, b: seq<string>)
    requires IsSplit(path, a) && IsSplit(path, b)
    ensures a == b
    decreases |a|
  {
    LastCut(path, a);
    LastCut(path, b);
    if |a| > 1 && |b| > 1 {
      var m, n := |a| - 1, |b| - 1;
      var p, q := |path| - |a[m]| - 1, |path| - |b[n]| - 1;
      assert p == q;
      SplitIsUnique(path[..p], a[..m], b[..n]);
      assert a == a[..m] + [a[m]] && b == b[..n] + [b[n]];
    }
  }

  lemma {:induction false} CutsUpTo(path: string, q: int)
    requires -1 <= q < |path| && forall k :: k > q ==> !Separates(path, k)
    ensures Cuts(path) == if q < 0 then 0 else Cuts(path[..q + 1])
    decreases |path|
  {
    var n := |path| - 1;
    if q < n {
      forall k | k > q ensures !Separates(path[..n], k) {
        if k < n {
          assert path == path[..n] + [path[n]];
          SeparatesBefore(path[..n], [path[n]], k);
        }
      }
      CutsUpTo(path[..n], q);
      assert q >= 0 ==> path[..n][..q + 1] == path[..q + 1];
    } else {
      assert path[..q + 1] == path;
    }
  }

  /** There are as many cuts as separators without a backslash before them. */
  lemma {:induction false} CutsCounted(path: string, pieces: seq<string>)
    requires IsSplit(path, pieces)
    ensures |pieces| == Cuts(path) + 1
    decreases |pieces|
  {
    LastCut(path, pieces);
    if |pieces| == 1 {
      CutsUpTo(path, -1);
    } else {
      var q := |path| - |pieces[|pieces| - 1]| - 1;
      CutsUpTo(path, q);
      CutsCounted(path[..q], pieces[..|pieces| - 1]);
      assert path[..q + 1][..q] == path[..q];
      SeparatesBefore(path[..q + 1], path[q + 1..], q);
      assert path == path[..q + 1] + path[q + 1..];
    }
  }

  /** The path starts with its first piece, and a separator follows if there are more. */
  lemma {:induction false} StartsWithFirst(path: string, pieces: seq<string>)
    requires IsSplit(path, pieces)
    ensures pieces[0] <= path
    ensures |pieces| == 1 ==> path == pieces[0]
    ensures |pieces| > 1 ==> |path| > |pieces[0]| && path[|pieces[0]|] == SEPARATOR
    decreases |pieces|
  {
    LastCut(path, pieces);
    if |pieces| > 1 {
      var q := |path| - |pieces[|pieces| - 1]| - 1;
      StartsWithFirst(path[..q], pieces[..|pieces| - 1]);
    }
  }

  /** The cuts are exactly the slashes without a backslash before them: after each piece but the last there is one. */
  lemma {:induction false} CutsAt(path: string, pieces: seq<string>, k: int)
    requires IsSplit(path, pieces)
    ensures (exists n :: 0 < n < |pieces| && k == |Terminated(pieces[..n])| - 1) <==>
            0 <= k < |path| && path[k] == '/' && (k == 0 || path[k - 1] != '\\')
    decreases |pieces|
  {
    LastCut(path, pieces);
    var m := |pieces| - 1;
    if m == 0 {
      assert !Separates(path, k);
    } else {
      var q := |path| - |pieces[m]| - 1;
      var before, part := path[..q], pieces[..m];
      CutsAt(before, part, k);
      assert |Terminated(pieces[..m])| == q + 1 && Separates(path, q) && (k > q ==> !Separates(path, k));
      hide Terminated, IsSplit;
      forall n | 0 < n < m ensures part[..n] == pieces[..n] { }
      if n :| 0 < n < |pieces| && k == |Terminated(pieces[..n])| - 1 {
        if n < m {
          assert part[..n] == pieces[..n];
        }
      }
      if 0 <= k < q && path[k] == '/' && (k == 0 || path[k - 1] != '\\') {
        assert before[k] == path[k] && (k > 0 ==> before[k - 1] == path[k - 1]);
        var n :| 0 < n < m && k == |Terminated(part[..n])| - 1;
        assert part[..n] == pieces[..n];
      }
      if k == q {
        assert 0 < m < |pieces| && k == |Terminated(pieces[..m])| - 1;
      }
    }
  }

  /** A split of one more piece: a slash between it and the others. */
  lemma JoinedBySlash(pieces: seq<string>, piece: string)
    requires pieces != []
    ensures Joined(pieces + [piece]) == Joined(pieces) + "/" + piece
    ensures Joined([piece]) == piece
  {
    var n := |pieces| - 1;
    assert (pieces + [piece])[..n + 1] == pieces;
    assert Terminated(pieces) == Terminated(pieces[..n]) + pieces[n] + ['/'];
    assert [piece][..0] == [];
  }

  // ---------- the algorithm ----------

  function IndexRune(s: string, c: char): (r: int)
    ensures -1 <= r < |s|
    ensures r >= 0 ==> s[r] == c
    ensures forall k :: 0 <= k < (if r < 0 then |s| else r) ==> s[k] != c
  {
    if s == [] then -1
    else if s[0] == c then 0
    else var r := IndexRune(s[1..], c); if r == -1 then -1 else r + 1
  }

  /** The first separator that cuts. */
  function IndexRuneWithEscaping(s: string): (r: int)
    ensures -1 <= r < |s|
    ensures r >= 0 ==> Separates(s, r)
    ensures forall k :: 0 <= k < (if r < 0 then |s| else r) ==> !Separates(s, k)
    decreases |s|
  {
    var end := IndexRune(s, SEPARATOR);
    if end == -1 then -1
    else if end > 0 && s[end - 1] == '\\' then
      var start := end + 1;
      var next := IndexRuneWithEscaping(s[start..]);
      assert forall k :: start <= k < |s| ==> (Separates(s, k) <==> Separates(s[start..], k - start));
      if next == -1 then -1 else next + start
    else end
  }

  function FirstPiece(path: string): string {
    if IndexRuneWithEscaping(path) == -1 then path else path[..IndexRuneWithEscaping(path)]
  }

  lemma FirstOfSplit(path: string, pieces: seq<string>)
    requires IsSplit(path, pieces)
    ensures pieces[0] == FirstPiece(path)
  {
    StartsWithFirst(path, pieces);
    var p, n := pieces[0], |pieces[0]|;
    assert path == p + path[n..];
    forall k | 0 <= k < n ensures !Separates(path, k) {
      SeparatesBefore(p, path[n..], k);
    }
    if |pieces| > 1 {
      assert EndsCleanly(pieces[..|pieces| - 1][0]);
      assert Separates(path, n);
    }
  }

  function Count(s: string): nat {
    if s == [] then 0 else (if s[0] == SEPARATOR then 1 else 0) + Count(s[1..])
  }

  lemma {:induction false} CountBeyond(s: string, k: nat)
    requires k < |s| && s[k] == SEPARATOR
    ensures Count(s) >= 1 + Count(s[k + 1..])
  {
    if k > 0 {
      CountBeyond(s[1..], k - 1);
      assert s[1..][k..] == s[k + 1..];
    }
  }

  lemma CountNone(s: string)
    ensures Count(s) == 0 <==> SEPARATOR !in s
  {
    if s != [] {
      CountNone(s[1..]);
      assert s == [s[0]] + s[1..];
    }
  }

  /** What the loop has found of the path up to start. */
  ghost predicate SplitSoFar(path: string, pieces: seq<string>, start: int) {
    && 0 <= start <= |path|
    && AllCut(pieces) && Terminated(pieces) == path[..start]
    && (pieces == [] <==> start == 0)
  }

  /** What comes before the first cut is a piece. */
  lemma PieceBefore(rest: string, n: nat)
    requires n == IndexRuneWithEscaping(rest)
    ensures Uncut(rest[..n]) && EndsCleanly(rest[..n]) && rest[n] == SEPARATOR
    ensures Count(rest) >= 1 + Count(rest[n + 1..])
  {
    CountBeyond(rest, n);
    forall k ensures !Separates(rest[..n], k) {
      if 0 <= k < n {
        assert !Separates(rest, k);
      }
    }
  }

  lemma TerminatedMore(pieces: seq<string>, piece: string)
    ensures Terminated(pieces + [piece]) == Terminated(pieces) + piece + [SEPARATOR]
    ensures AllCut(pieces) && Uncut(piece) && EndsCleanly(piece) ==> AllCut(pieces + [piece])
  {
    assert (pieces + [piece])[..|pieces|] == pieces;
    hide Uncut, EndsCleanly;
  }

  lemma Slices(path: string, start: nat, end: nat)
    requires start <= end < |path|
    ensures path[start..][..end - start] == path[start..end] && path[start..][end - start + 1..] == path[end + 1..]
    ensures path[..end + 1] == path[..start] + path[start..end] + [path[end]]
  {
  }

  lemma SplitOneMore(path: string, pieces: seq<string>, start: nat, end: nat)
    requires SplitSoFar(path, pieces, start) && start < |path| && start <= end
    requires end - start == IndexRuneWithEscaping(path[start..])
    ensures end < |path| && SplitSoFar(path, pieces + [path[start..end]], end + 1)
    ensures Count(path[start..]) >= 1 + Count(path[end + 1..])
  {
    Slices(path, start, end);
    PieceBefore(path[start..], end - start);
    TerminatedMore(pieces, path[start..end]);
    hide Uncut, EndsCleanly, IndexRuneWithEscaping, Count, Separates, Terminated, AllCut;
  }

  lemma UncutRest(rest: string)
    requires IndexRuneWithEscaping(rest) == -1
    ensures Uncut(rest)
  {
  }

  lemma SplitLast(path: string, pieces: seq<string>, start: nat)
    requires SplitSoFar(path, pieces, start) && Uncut(path[start..])
    ensures IsSplit(path, pieces + [path[start..]])
  {
    var all := pieces + [path[start..]];
    assert all[..|all| - 1] == pieces;
    assert path == path[..start] + path[start..];
  }

  lemma SplitEnd(path: string, pieces: seq<string>, start: nat)
    requires SplitSoFar(path, pieces, start) && start == |path|
    ensures IsSplit(path, pieces + [""])
  {
    assert path[start..] == "";
    SplitLast(path, pieces, start);
  }

  /** One turn of the loop. */
  lemma SplitNext(path: string, pieces: seq<string>, start: nat)
    requires SplitSoFar(path, pieces, start) && start < |path|
    ensures var next := IndexRuneWithEscaping(path[start..]);
            if next == -1 then IsSplit(path, pieces + [path[start..|path|]])
            else
              && SplitSoFar(path, pieces + [path[start..start + next]], start + next + 1)
              && Count(path[start..]) >= 1 + Count(path[start + next + 1..])
  {
    hide *;
    var next := IndexRuneWithEscaping(path[start..]);
    assert path[start..|path|] == path[start..];
    if next == -1 {
      UncutRest(path[start..]);
      SplitLast(path, pieces, start);
    } else {
      SplitOneMore(path, pieces, start, start + next);
    }
  }

  method SplitFilepath(path: string) returns (pieces: seq<string>)
    ensures IsSplit(path, pieces)
  {
    var cnt := Count(path);
    CountNone(path);
    SplitNone(path);
    hide *;
    if cnt == 0 {
      return [path];
    }
    var result := new string[cnt + 1](_ => "");
    var idx, start, emptyEnd := 0, 0, false;
    ghost var found: seq<string> := [];
    while start < |path|
      invariant 0 <= start <= |path| + 1 && idx == |found| <= cnt + 1 && result[..idx] == found
      invariant start <= |path| ==> idx + Count(path[start..]) <= cnt && SplitSoFar(path, found, start)
      invariant start > |path| ==> IsSplit(path, found)
      invariant emptyEnd <==> 0 < start <= |path|
      invariant forall i :: idx <= i < result.Length ==> result[i] == ""
      decreases |path| + 1 - start
    {
      SplitNext(path, found, start);
      var end := IndexRuneWithEscaping(path[start..]);
      if end == -1 {
        emptyEnd := false;
        end := |path|;
      } else {
        emptyEnd := true;
        end := end + start;
      }
      result[idx] := path[start..end];
      assert result[..idx] == found;
      found := found + [path[start..end]];
      start := end + 1;
      idx := idx + 1;
    }
    if emptyEnd {
      SplitEnd(path, found, start);
      found := found + [""];
      idx := idx + 1;
    }
    assert result[..idx] == found;
    return result[..idx];
  }

  lemma SplitNone(path: string)
    ensures SplitSoFar(path, [], 0)
    ensures SEPARATOR !in path ==> IsSplit(path, [path])
    ensures SEPARATOR in path ==> path != []
    ensures Count(path[0..]) == Count(path)
  {
    assert path[0..] == path;
    if SEPARATOR !in path {
      SplitLast(path, [], 0);
    }
  }
}
