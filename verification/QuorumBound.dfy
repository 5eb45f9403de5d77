/** How much of a quorum the greedy matching may miss, and that it may miss no more. */
module QuorumBound {
  import opened Quorum

  // ---------- at least half of what could be matched ----------

  ghost predicate Injective(m: map<nat, nat>) {
    forall p, q :: p in m && q in m && p != q ==> m[p] != m[q]
  }

  ghost function Preimage(m: map<nat, nat>, v: set<nat>): set<nat> {
    set p | p in m && m[p] in v
  }

  lemma {:induction false} PreimageSize(m: map<nat, nat>, v: set<nat>)
    requires Injective(m)
    ensures |Preimage(m, v)| <= |v|
    decreases |v|
  {
    if v == {} {
      assert Preimage(m, v) == {};
    } else {
      var x :| x in v;
      var rest := v - {x};
      PreimageSize(m, rest);
      if p :| p in m && m[p] == x {
        assert Preimage(m, v) == Preimage(m, rest) + {p};
      } else {
        assert Preimage(m, v) == Preimage(m, rest);
      }
    }
  }

  lemma {:induction false} ValuesSize(m: map<nat, nat>)
    ensures |m.Values| <= |m|
    decreases |m|
  {
    if m == map[] {
      assert m.Values == {};
    } else {
      var p :| p in m;
      var rest := m - {p};
      assert rest.Keys == m.Keys - {p};
      assert |rest| == |rest.Keys| && |m| == |m.Keys|;
      ValuesSize(rest);
      forall x | x in m.Values ensures x in rest.Values + {m[p]} {
        var q :| q in m && m[q] == x;
        assert q != p ==> q in rest && rest[q] == x;
      }
      Fewer(m.Values, rest.Values + {m[p]});
    }
  }

  lemma {:induction false} Fewer(a: set<nat>, b: set<nat>)
    requires a <= b
    ensures |a| <= |b|
    decreases |a|
  {
    if x :| x in a {
      Fewer(a - {x}, b - {x});
    }
  }

  /** No matching is more than twice the size of one that cannot be extended. */
  lemma MaximalIsHalf(c: Checker, items: seq<Signed>, keys: seq<string>, positions: seq<nat>, m: map<nat, nat>, other: map<nat, nat>)
    requires Matching(c, items, keys, m) && Matching(c, items, keys, other)
    requires Maximal(c, items, keys, positions, m) && forall p :: 0 <= p < |keys| ==> p in positions
    ensures |other| <= 2 * |m|
  {
    var taken := Preimage(other, m.Values);
    forall p | p in other ensures p in m.Keys + taken {
      assert p in m || other[p] in m.Values;
    }
    PreimageSize(other, m.Values);
    ValuesSize(m);
    Fewer(other.Keys, m.Keys + taken);
    assert |other| == |other.Keys| && |m| == |m.Keys|;
  }

  lemma {:induction false} ScanStops(c: Checker, items: seq<Signed>, keys: seq<string>, required: int)
    requires AllParse(c, keys)
    ensures Scan(c, items, keys, required).Ok?
    ensures required >= 0 ==> 0 <= Scan(c, items, keys, required).value.1
    decreases |items|
  {
    if items != [] && required != 0 {
      FirstKeyErrors(c, items[0], keys);
      var i := FirstKey(c, items[0], keys).value;
      if i == |keys| {
        ScanStops(c, items[1..], keys, required);
      } else if required != 1 {
        ScanStops(c, items[1..], Without(keys, i), required - 1);
      }
    }
  }

  /** A matching of 2n - 1 is enough for a quorum of n, in whatever order signatures and keys come. */
  lemma HalfIsEnough(c: Checker, repo: Repository, o: Object, keys: seq<string>, n: int, m: map<nat, nat>)
    requires AllParse(c, keys) && !repo.notes(o.id).Unreadable?
    requires Matching(c, Items(repo, o), keys, m) && 0 <= n && 2 * n - 1 <= |m|
    ensures Verdict(c, repo, o, keys, n).Ok?
  {
    hide Scan, Verdict, Items;
    VerdictIsOneScan(c, repo, o, keys, n);
    ScanStops(c, Items(repo, o), keys, n);
    var positions := Everywhere(keys);
    var found := ScanMatches(c, Items(repo, o), keys, n, keys, positions);
    if Scan(c, Items(repo, o), keys, n).value.1 != 0 {
      MaximalIsHalf(c, Items(repo, o), keys, positions, found, m);
    }
  }

  // ---------- and not always more ----------

  /**
   * Keys and signatures are numbered. The first g pairs of signatures are such that the first one is verified by both
   * keys of the pair, and the second by the first key only; each later signature is verified by the key of its number.
   */
  predicate Pairs(g: nat, j: nat, p: nat) {
    if j >= 2 * g then p == j else if Second(g, j) then p == j - 1 else p == j || p == j + 1
  }

  predicate Second(g: nat, j: nat) {
    j < 2 * g && j % 2 == 1
  }

  function Mark(n: nat): string {
    seq(n, i => 'x')
  }

  function FamilyChecker(g: nat): Checker {
    Checker(_ => true, (data, signature, key) => |signature| > 0 && Pairs(g, |signature| - 1, |key|))
  }

  function FamilyKeys(s: nat): (keys: seq<string>)
    ensures |keys| == s
  {
    seq(s, p requires 0 <= p < s => Mark(p))
  }

  function FamilySignatures(s: nat): seq<string> {
    seq(s, j requires 0 <= j < s => Mark(j + 1))
  }

  const OBJECT: Object := Object("", "", "id")

  function FamilyRepository(s: nat): Repository {
    Repository(map[], map[], map[], id => Found(FamilySignatures(s)))
  }

  function FamilyItems(s: nat): (items: seq<Signed>)
    ensures |items| == s
  {
    Over(OBJECT.id, FamilySignatures(s))
  }

  lemma FamilyAt(g: nat, s: nat, j: nat, p: nat)
    requires j < s && p < s
    ensures Verifies(FamilyChecker(g), FamilyItems(s)[j], FamilyKeys(s)[p]) <==> Pairs(g, j, p)
  {
  }

  /** Each signature but those after the first of a pair takes the key of its number; within the pairs the two are exchanged. */
  function Partner(g: nat, p: nat): nat {
    if p >= 2 * g then p else if Second(g, p) then p - 1 else p + 1
  }

  lemma PartnerPairs(g: nat, s: nat, p: nat)
    requires 2 * g <= s && p < s
    ensures Partner(g, p) < s && Pairs(g, Partner(g, p), p) && Partner(g, Partner(g, p)) == p
  {
  }

  ghost function FamilyMatching(g: nat, s: nat): map<nat, nat> {
    map p: nat | p < s :: Partner(g, p)
  }

  lemma FamilyMatches(g: nat, s: nat)
    requires 2 * g <= s
    ensures Matching(FamilyChecker(g), FamilyItems(s), FamilyKeys(s), FamilyMatching(g, s)) && |FamilyMatching(g, s)| == s
  {
    var m := FamilyMatching(g, s);
    UpToSize(s);
    assert m.Keys == UpTo(s);
    assert |m| == |m.Keys|;
    forall p | p in m ensures m[p] == Partner(g, p) && m[p] < s && Partner(g, m[p]) == p && Pairs(g, m[p], p) {
      PartnerPairs(g, s, p);
    }
    forall p | p in m ensures Verifies(FamilyChecker(g), FamilyItems(s)[m[p]], FamilyKeys(s)[p]) {
      FamilyAt(g, s, m[p], p);
    }
    hide FamilyMatching, FamilyChecker, Verifies, Partner, Pairs;
  }

  function UpTo(s: nat): set<nat> {
    if s == 0 then {} else UpTo(s - 1) + {s - 1}
  }

  lemma {:induction false} UpToSize(s: nat)
    ensures |UpTo(s)| == s && forall p: nat :: p in UpTo(s) <==> p < s
  {
    if s > 0 {
      UpToSize(s - 1);
    }
  }

  /** The keys that are left when signature j is tried: from j on, and the second of each pair before. */
  predicate Left(g: nat, j: nat, p: nat) {
    p >= j || Second(g, p)
  }

  /** How many of the signatures from j on find a key: all but the second of each pair. */
  function Finds(g: nat, s: nat, j: nat): int {
    s - j - if j < 2 * g then g - j / 2 else 0
  }

  lemma FindsNext(g: nat, s: nat, j: nat)
    requires 2 * g <= s && j < s
    ensures Finds(g, s, s) == 0 && Finds(g, s, j + 1) >= 0
    ensures Finds(g, s, j) == Finds(g, s, j + 1) + if Second(g, j) then 0 else 1
  {
  }

  ghost predicate Increasing(positions: seq<nat>) {
    forall a, b :: 0 <= a < b < |positions| ==> positions[a] < positions[b]
  }

  /** The keys that are left, in their order. */
  ghost predicate LeftKeys(g: nat, s: nat, j: nat, keys: seq<string>, positions: seq<nat>) {
    && At(FamilyKeys(s), keys, positions) && Increasing(positions)
    && forall p: nat :: p in positions <==> p < s && Left(g, j, p)
  }

  /** Which of the remaining keys the next signature takes, if any. */
  lemma FamilyFirst(g: nat, s: nat, j: nat, keys: seq<string>, positions: seq<nat>) returns (i: nat)
    requires 2 * g <= s && j < s && LeftKeys(g, s, j, keys, positions)
    ensures FirstKey(FamilyChecker(g), FamilyItems(s)[j], keys) == Ok(i) && i <= |keys|
    ensures Second(g, j) ==> i == |keys|
    ensures !Second(g, j) ==> i < |keys| && positions[i] == j
  {
    var c, item := FamilyChecker(g), FamilyItems(s)[j];
    FirstKeyErrors(c, item, keys);
    FirstKeyVerifies(c, item, keys);
    i := FirstKey(c, item, keys).value;
    LeftParts(g, s, j, keys, positions);
    forall k | 0 <= k < |keys| ensures Verifies(c, item, keys[k]) <==> Pairs(g, j, positions[k]) {
      FamilyAt(g, s, j, positions[k]);
    }
    hide *;
    if Second(g, j) {
      forall k | 0 <= k < |keys| ensures !Verifies(c, item, keys[k]) {
        assert positions[k] in positions;
        SecondFindsNone(g, j, positions[k]);
      }
    } else {
      FirstFinds(g, j);
      assert j in positions;
      var k :| 0 <= k < |positions| && positions[k] == j;
      assert i <= k;
      assert positions[i] in positions;
      FirstFindsOwn(g, j, positions[i]);
      IncreasingAt(positions, i, k);
    }
  }

  lemma SecondFindsNone(g: nat, j: nat, p: nat)
    requires Second(g, j) && Left(g, j, p)
    ensures !Pairs(g, j, p)
  {
  }

  lemma FirstFinds(g: nat, j: nat)
    requires !Second(g, j)
    ensures Left(g, j, j) && Pairs(g, j, j)
  {
  }

  lemma FirstFindsOwn(g: nat, j: nat, p: nat)
    requires !Second(g, j) && Pairs(g, j, p)
    ensures p >= j
  {
  }

  lemma IncreasingAt(positions: seq<nat>, i: nat, k: nat)
    requires Increasing(positions) && i <= k < |positions|
    ensures positions[i] <= positions[k]
  {
  }

  lemma LeftNext(g: nat, s: nat, j: nat, keys: seq<string>, positions: seq<nat>, i: nat)
    requires 2 * g <= s && j < s && LeftKeys(g, s, j, keys, positions)
    requires i < |keys| == |positions| && positions[i] == j && !Second(g, j)
    ensures LeftKeys(g, s, j + 1, Without(keys, i), positions[..i] + positions[i + 1..])
  {
    LeftParts(g, s, j, keys, positions);
    hide *;
    var rest := positions[..i] + positions[i + 1..];
    AtWithout(FamilyChecker(g), FamilyKeys(s), keys, positions, i);
    IncreasingWithout(positions, i);
    forall p: nat ensures p in rest <==> p < s && Left(g, j + 1, p) {
      LeftStep(g, j, p);
    }
    LeftWhole(g, s, j + 1, Without(keys, i), rest);
  }

  lemma LeftParts(g: nat, s: nat, j: nat, keys: seq<string>, positions: seq<nat>)
    requires LeftKeys(g, s, j, keys, positions)
    ensures At(FamilyKeys(s), keys, positions) && Increasing(positions) && |positions| == |keys|
    ensures forall k :: 0 <= k < |keys| ==> positions[k] < s && keys[k] == FamilyKeys(s)[positions[k]]
    ensures forall p: nat :: p in positions <==> p < s && Left(g, j, p)
  {
    hide FamilyKeys, Left;
  }

  lemma LeftWhole(g: nat, s: nat, j: nat, keys: seq<string>, positions: seq<nat>)
    requires At(FamilyKeys(s), keys, positions) && Increasing(positions)
    requires forall p: nat :: p in positions <==> p < s && Left(g, j, p)
    ensures LeftKeys(g, s, j, keys, positions)
  {
    hide FamilyKeys, Left, At, Increasing;
  }

  lemma LeftStep(g: nat, j: nat, p: nat)
    requires !Second(g, j)
    ensures Left(g, j + 1, p) <==> Left(g, j, p) && p != j
  {
  }

  lemma IncreasingWithout(positions: seq<nat>, i: nat)
    requires Increasing(positions) && i < |positions|
    ensures Increasing(positions[..i] + positions[i + 1..])
    ensures forall p :: p in positions[..i] + positions[i + 1..] <==> p in positions && p != positions[i]
  {
    var rest := positions[..i] + positions[i + 1..];
    forall p | p in positions && p != positions[i] ensures p in rest {
      var k :| 0 <= k < |positions| && positions[k] == p;
      assert rest[if k < i then k else k - 1] == p;
    }
  }

  lemma LeftSkip(g: nat, s: nat, j: nat, keys: seq<string>, positions: seq<nat>)
    requires 2 * g <= s && j < s && LeftKeys(g, s, j, keys, positions) && Second(g, j)
    ensures LeftKeys(g, s, j + 1, keys, positions)
  {
    hide FamilyKeys;
  }

  /** The scan of the family finds one key for each pair of signatures, and one for each later signature. */
  lemma {:induction false} FamilyScan(g: nat, s: nat, j: nat, keys: seq<string>, positions: seq<nat>, n: int)
    requires 2 * g <= s && j <= s && LeftKeys(g, s, j, keys, positions) && Finds(g, s, j) < n
    ensures var r := Scan(FamilyChecker(g), FamilyItems(s)[j..], keys, n);
            r.Ok? && r.value.1 == n - Finds(g, s, j)
    decreases s - j
  {
    hide *;
    var c, items := FamilyChecker(g), FamilyItems(s)[j..];
    FamilyTail(s, j);
    if j == s {
      FindsNone(g, s);
      ScanNone(c, keys, n);
    } else {
      var i := FamilyFirst(g, s, j, keys, positions);
      FindsNext(g, s, j);
      ScanStep(c, items, keys, n, i);
      LeftParts(g, s, j, keys, positions);
      if Second(g, j) {
        LeftSkip(g, s, j, keys, positions);
        FamilyScan(g, s, j + 1, keys, positions, n);
      } else {
        LeftNext(g, s, j, keys, positions, i);
        FamilyScan(g, s, j + 1, Without(keys, i), positions[..i] + positions[i + 1..], n - 1);
      }
    }
  }

  lemma FamilyTail(s: nat, j: nat)
    requires j <= s
    ensures var items := FamilyItems(s)[j..];
            if j == s then items == [] else items != [] && items[0] == FamilyItems(s)[j] && items[1..] == FamilyItems(s)[j + 1..]
  {
  }

  lemma FindsNone(g: nat, s: nat)
    requires 2 * g <= s
    ensures Finds(g, s, s) == 0
  {
  }

  lemma ScanNone(c: Checker, keys: seq<string>, n: int)
    ensures Scan(c, [], keys, n) == Ok((keys, n))
  {
  }

  /** The member of the family with s matching pairs of which the scan misses g is turned away at any higher number. */
  lemma FamilyRefused(g: nat, s: nat, n: int)
    requires 2 * g <= s && s - g < n
    ensures !FamilyRepository(s).notes(OBJECT.id).Unreadable? && Items(FamilyRepository(s), OBJECT) == FamilyItems(s)
    ensures AllParse(FamilyChecker(g), FamilyKeys(s))
    ensures Verdict(FamilyChecker(g), FamilyRepository(s), OBJECT, FamilyKeys(s), n) == Err(NotEnough(n - (s - g)))
  {
    hide *;
    var c, repo, keys := FamilyChecker(g), FamilyRepository(s), FamilyKeys(s);
    var positions := FamilyStart(g, s);
    FamilyInput(g, s);
    FamilyScan(g, s, 0, keys, positions, n);
    VerdictIsOneScan(c, repo, OBJECT, keys, n);
    NotMet(Scan(c, FamilyItems(s), keys, n), n - (s - g));
  }

  lemma FamilyInput(g: nat, s: nat)
    ensures !FamilyRepository(s).notes(OBJECT.id).Unreadable? && Items(FamilyRepository(s), OBJECT) == FamilyItems(s)
    ensures AllParse(FamilyChecker(g), FamilyKeys(s)) && FamilyItems(s)[0..] == FamilyItems(s)
    ensures 2 * g <= s ==> Finds(g, s, 0) == s - g
  {
  }

  lemma NotMet(r: Result<(seq<string>, int)>, left: int)
    requires r.Ok? && r.value.1 == left && left != 0
    ensures Met(r) == Err(NotEnough(left))
  {
  }

  lemma FamilyStart(g: nat, s: nat) returns (positions: seq<nat>)
    ensures LeftKeys(g, s, 0, FamilyKeys(s), positions)
  {
    positions := seq(s, i requires 0 <= i < s => i);
    forall p: nat ensures p in positions <==> p < s {
      if p < s { assert positions[p] == p; }
    }
  }

  // ---------- the exact bound ----------

  /** The quorum is met whenever s signatures and keys go together, however the rest of the input looks. */
  ghost predicate Guaranteed(n: int, s: nat) {
    forall c: Checker, repo: Repository, o: Object, keys, m ::
      AllParse(c, keys) && !repo.notes(o.id).Unreadable? && Matching(c, Items(repo, o), keys, m) && |m| == s ==>
        Verdict(c, repo, o, keys, n).Ok?
  }

  /** An input with s matching pairs and readable keys that is turned away. */
  lemma Refusal(n: int, s: nat, g: nat)
    requires 2 * g <= s && (s - g < n || n < 0)
    ensures !Guaranteed(n, s)
  {
    var c, repo, keys := FamilyChecker(g), FamilyRepository(s), FamilyKeys(s);
    FamilyMatches(g, s);
    if s - g < n {
      FamilyRefused(g, s, n);
    } else {
      FamilyRefused(g, s, s - g + 1);
      if Verdict(c, repo, OBJECT, keys, n).Ok? {
        Soundness(c, repo, OBJECT, keys, n);
      }
    }
    assert Matching(c, Items(repo, OBJECT), keys, FamilyMatching(g, s));
    hide Verdict, Items, FamilyChecker, FamilyRepository, FamilyKeys, FamilyMatching;
  }

  /** A quorum of n is certain with a matching of size s if and only if s is at least 2n - 1, or nothing is required. */
  lemma QuorumGuarantee(n: int, s: nat)
    ensures Guaranteed(n, s) <==> n == 0 || (n > 0 && s >= 2 * n - 1)
  {
    if n == 0 || (n > 0 && s >= 2 * n - 1) {
      forall c: Checker, repo: Repository, o: Object, keys, m |
        AllParse(c, keys) && !repo.notes(o.id).Unreadable? && Matching(c, Items(repo, o), keys, m) && |m| == s
        ensures Verdict(c, repo, o, keys, n).Ok?
      {
        HalfIsEnough(c, repo, o, keys, n, m);
      }
    } else if n < 0 || s < n {
      Refusal(n, s, 0);
    } else {
      Refusal(n, s, s - n + 1);
    }
  }

  /** The smallest refusal: a quorum of two, which both signatures by both keys could meet. */
  lemma GreedyCanMiss()
    ensures exists c: Checker, repo: Repository, o: Object, keys, m ::
              && AllParse(c, keys) && Matching(c, Items(repo, o), keys, m) && |m| == 2
              && Verdict(c, repo, o, keys, 2) == Err(NotEnough(1))
  {
    FamilyMatches(1, 2);
    FamilyRefused(1, 2, 2);
    hide *;
    assert Matching(FamilyChecker(1), Items(FamilyRepository(2), OBJECT), FamilyKeys(2), FamilyMatching(1, 2));
  }
}
