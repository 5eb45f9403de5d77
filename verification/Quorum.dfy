/** The signature quorum over the trusted keys, as a Git tag or commit must meet it. */
module Quorum {

  datatype Result<+T> = Ok(value: T) | Err(error: Error)

  datatype Error = BadKey | NotEnough(number: int) | GitFailure

  /** The OpenPGP library: which keys can be read, and which signature over which data a key verifies. */
  datatype Checker = Checker(parses: string -> bool, verifies: (string, string, string) -> bool)

  /** A signature together with the data it claims to sign. */
  datatype Signed = Signed(data: string, signature: string)

  predicate Verifies(c: Checker, s: Signed, key: string) {
    c.verifies(s.data, s.signature, key)
  }

  // ---------- one pass over a list of signatures ----------

  /** The first key that verifies the signature, or the number of keys; an unreadable key before it is an error. */
  function FirstKey(c: Checker, s: Signed, keys: seq<string>): (r: Result<nat>)
    ensures r.Ok? ==> r.value <= |keys|
  {
    if keys == [] then Ok(0)
    else if !c.parses(keys[0]) then Err(BadKey)
    else if Verifies(c, s, keys[0]) then Ok(0)
    else match FirstKey(c, s, keys[1..])
      case Ok(i) => Ok(i + 1)
      case Err(e) => Err(e)
  }

  function Without(keys: seq<string>, i: nat): seq<string>
    requires i < |keys|
  {
    keys[..i] + keys[i + 1..]
  }

  /** Each signature in turn uses up the first remaining key that verifies it, until no more are required. */
  function Scan(c: Checker, items: seq<Signed>, keys: seq<string>, required: int): Result<(seq<string>, int)>
    decreases |items|
  {
    if required == 0 || items == [] then Ok((keys, required))
    else match FirstKey(c, items[0], keys)
      case Err(e) => Err(e)
      case Ok(i) =>
        if i == |keys| then Scan(c, items[1..], keys, required)
        else if required == 1 then Ok((keys, 0))
        else Scan(c, items[1..], Without(keys, i), required - 1)
  }

  function Over(data: string, signatures: seq<string>): (items: seq<Signed>)
    ensures |items| == |signatures|
  {
    seq(|signatures|, i requires 0 <= i < |signatures| => Signed(data, signatures[i]))
  }

  method VerifyPGPSignatures(c: Checker, signatures: seq<string>, data: string, keys: seq<string>, required: int)
    returns (r: Result<(seq<string>, int)>)
    ensures r == Scan(c, Over(data, signatures), keys, required)
  {
    if required == 0 {
      return Ok((keys, 0));
    }
    ghost var items := Over(data, signatures);
    var pgpKeys, remaining := keys, required;
    for k := 0 to |signatures|
      invariant remaining != 0
      invariant Scan(c, items[k..], pgpKeys, remaining) == Scan(c, items, keys, required)
    {
      var i, l := 0, |pgpKeys|;
      var matched := false;
      while i < l && !matched
        invariant 0 <= i <= l == |pgpKeys| && (matched ==> i < l)
        invariant FirstKey(c, items[k], pgpKeys) ==
                  if matched then Ok(i) else Shift(FirstKey(c, items[k], pgpKeys[i..]), i)
        decreases l - i, !matched
      {
        assert pgpKeys[i..][1..] == pgpKeys[i + 1..];
        if !c.parses(pgpKeys[i]) {
          return Err(BadKey);
        }
        if !c.verifies(data, signatures[k], pgpKeys[i]) {
          i := i + 1;
          continue;
        }
        matched := true;
      }
      assert items[k..][1..] == items[k + 1..];
      if matched {
        remaining := remaining - 1;
        if remaining == 0 {
          return Ok((pgpKeys, 0));
        }
        pgpKeys := pgpKeys[..i] + pgpKeys[i + 1..];
      }
    }
    return Ok((pgpKeys, remaining));
  }

  function Shift(r: Result<nat>, offset: nat): Result<nat> {
    if r.Ok? then Ok(r.value + offset) else r
  }

  // ---------- tags, commits and notes ----------

  /** A tag or commit object: its own signature ("" when there is none) over its encoding, and its hash. */
  datatype Object = Object(encoding: string, signature: string, id: string)

  datatype Notes = Missing | Unreadable | Found(signatures: seq<string>)

  datatype Repository = Repository(tags: map<string, string>, tagObjects: map<string, Object>,
                                   commits: map<string, Object>, notes: string -> Notes)

  method VerifyTagSignatures(c: Checker, repo: Repository, tag: string, keys: seq<string>, required: int)
    returns (r: Result<()>)
    ensures r == if tag !in repo.tags then Err(GitFailure)
                 else if repo.tags[tag] in repo.tagObjects then Verdict(c, repo, repo.tagObjects[repo.tags[tag]], keys, required)
                 else if repo.tags[tag] in repo.commits then Verdict(c, repo, repo.commits[repo.tags[tag]], keys, required)
                 else Err(GitFailure)
  {
    if tag !in repo.tags {
      return Err(GitFailure);
    }
    var hash := repo.tags[tag];
    if hash !in repo.tagObjects {
      r := VerifyCommitSignatures(c, repo, hash, keys, required);
      return;
    }
    var to := repo.tagObjects[hash];
    var trusted, remaining := keys, required;
    if to.signature != "" {
      assert Over(to.encoding, [to.signature]) == Embedded(to);
      var phase := VerifyPGPSignatures(c, [to.signature], to.encoding, trusted, remaining);
      if phase.Err? {
        return Err(phase.error);
      }
      trusted, remaining := phase.value.0, phase.value.1;
    }
    if remaining == 0 {
      return Ok(());
    }
    r := VerifyObjectSignatures(c, repo, to.id, trusted, remaining);
  }

  method VerifyCommitSignatures(c: Checker, repo: Repository, commit: string, keys: seq<string>, required: int)
    returns (r: Result<()>)
    ensures r == if commit in repo.commits then Verdict(c, repo, repo.commits[commit], keys, required)
                 else Err(GitFailure)
  {
    if commit !in repo.commits {
      return Err(GitFailure);
    }
    var co := repo.commits[commit];
    var trusted, remaining := keys, required;
    if co.signature != "" {
      assert Over(co.encoding, [co.signature]) == Embedded(co);
      var phase := VerifyPGPSignatures(c, [co.signature], co.encoding, trusted, remaining);
      if phase.Err? {
        return Err(phase.error);
      }
      trusted, remaining := phase.value.0, phase.value.1;
    }
    if remaining == 0 {
      return Ok(());
    }
    r := VerifyObjectSignatures(c, repo, co.id, trusted, remaining);
  }

  method VerifyObjectSignatures(c: Checker, repo: Repository, id: string, keys: seq<string>, required: int)
    returns (r: Result<()>)
    ensures r == NotesVerdict(c, repo.notes(id), id, keys, required)
  {
    var notes := repo.notes(id);
    if notes.Missing? {
      return Err(NotEnough(required));
    }
    if notes.Unreadable? {
      return Err(GitFailure);
    }
    if |notes.signatures| == 0 {
      return Err(NotEnough(required));
    }
    var phase := VerifyPGPSignatures(c, notes.signatures, id, keys, required);
    if phase.Err? {
      return Err(phase.error);
    }
    if phase.value.1 != 0 {
      return Err(NotEnough(phase.value.1));
    }
    return Ok(());
  }

  function NotesVerdict(c: Checker, notes: Notes, id: string, keys: seq<string>, required: int): Result<()> {
    match notes
    case Unreadable => Err(GitFailure)
    case Missing => Err(NotEnough(required))
    case Found(signatures) =>
      if signatures == [] then Err(NotEnough(required)) else Met(Scan(c, Over(id, signatures), keys, required))
  }

  function Met(r: Result<(seq<string>, int)>): Result<()> {
    match r
    case Err(e) => Err(e)
    case Ok((_, remaining)) => if remaining == 0 then Ok(()) else Err(NotEnough(remaining))
  }

  function Embedded(o: Object): seq<Signed> {
    if o.signature == "" then [] else [Signed(o.encoding, o.signature)]
  }

  /** Two phases: the keys and the count left by the embedded signature go on to the notes. */
  function Verdict(c: Checker, repo: Repository, o: Object, keys: seq<string>, required: int): Result<()> {
    match Scan(c, Embedded(o), keys, required)
    case Err(e) => Err(e)
    case Ok((trusted, remaining)) =>
      if remaining == 0 then Ok(()) else NotesVerdict(c, repo.notes(o.id), o.id, trusted, remaining)
  }

  // ---------- the two phases are one scan ----------

  /** Every signature that can be seen for the object, in the order it is tried. */
  function Items(repo: Repository, o: Object): seq<Signed> {
    Embedded(o) + if repo.notes(o.id).Found? then Over(o.id, repo.notes(o.id).signatures) else []
  }

  lemma {:induction false} ScanAppend(c: Checker, a: seq<Signed>, b: seq<Signed>, keys: seq<string>, required: int)
    ensures Scan(c, a + b, keys, required) ==
            match Scan(c, a, keys, required)
            case Err(e) => Err(e)
            case Ok((rest, n)) => if n == 0 then Ok((rest, 0)) else Scan(c, b, rest, n)
  {
    if a == [] {
      assert a + b == b;
    } else if required != 0 {
      assert (a + b)[1..] == a[1..] + b;
      match FirstKey(c, a[0], keys)
      case Err(_) =>
      case Ok(i) =>
        if i == |keys| {
          ScanAppend(c, a[1..], b, keys, required);
        } else if required != 1 {
          ScanAppend(c, a[1..], b, Without(keys, i), required - 1);
        }
    }
  }

  lemma VerdictIsOneScan(c: Checker, repo: Repository, o: Object, keys: seq<string>, required: int)
    ensures !repo.notes(o.id).Unreadable? ==>
              Verdict(c, repo, o, keys, required) == Met(Scan(c, Items(repo, o), keys, required))
    ensures Verdict(c, repo, o, keys, required).Ok? ==> Met(Scan(c, Items(repo, o), keys, required)).Ok?
  {
    var notes := if repo.notes(o.id).Found? then Over(o.id, repo.notes(o.id).signatures) else [];
    ScanAppend(c, Embedded(o), notes, keys, required);
    assert Embedded(o) + [] == Embedded(o);
  }

  // ---------- soundness ----------

  /** Distinct positions of the trusted list, each holding a key that verifies its own, different, signature. */
  ghost predicate Matching(c: Checker, items: seq<Signed>, keys: seq<string>, m: map<nat, nat>) {
    && (forall p :: p in m ==> p < |keys| && m[p] < |items| && Verifies(c, items[m[p]], keys[p]))
    && (forall p, q :: p in m && q in m && p != q ==> m[p] != m[q])
  }

  /** The remaining keys sit at distinct positions of the trusted list. */
  ghost predicate At(trusted: seq<string>, keys: seq<string>, positions: seq<nat>) {
    && |positions| == |keys|
    && (forall i :: 0 <= i < |keys| ==> positions[i] < |trusted| && keys[i] == trusted[positions[i]])
    && (forall i, j :: 0 <= i < j < |keys| ==> positions[i] != positions[j])
  }

  lemma AtWithout(c: Checker, trusted: seq<string>, keys: seq<string>, positions: seq<nat>, i: nat)
    requires At(trusted, keys, positions) && i < |keys|
    ensures At(trusted, Without(keys, i), positions[..i] + positions[i + 1..])
    ensures AllParse(c, keys) ==> AllParse(c, Without(keys, i))
    ensures positions[i] !in positions[..i] + positions[i + 1..]
    ensures forall p :: p in positions[..i] + positions[i + 1..] ==> p in positions
  {
  }

  lemma FirstKeyVerifies(c: Checker, s: Signed, keys: seq<string>)
    requires FirstKey(c, s, keys).Ok?
    ensures var i := FirstKey(c, s, keys).value;
            && (i < |keys| ==> Verifies(c, s, keys[i]))
            && forall j :: 0 <= j < i ==> !Verifies(c, s, keys[j])
  {
    if keys != [] && !Verifies(c, s, keys[0]) {
      FirstKeyVerifies(c, s, keys[1..]);
      forall j | 0 <= j < FirstKey(c, s, keys).value ensures !Verifies(c, s, keys[j]) {
        if j > 0 { assert keys[j] == keys[1..][j - 1]; }
      }
    }
  }

  /** No signature and no key that are both left over go together. */
  ghost predicate Maximal(c: Checker, items: seq<Signed>, trusted: seq<string>, positions: seq<nat>, m: map<nat, nat>) {
    forall j, p :: 0 <= j < |items| && p in positions && p < |trusted| && j !in m.Values && p !in m ==>
      !Verifies(c, items[j], trusted[p])
  }

  /** A scan uses up as many keys as it lowers the count by, one signature each; if it falls short, nothing more fits. */
  lemma {:induction false} ScanMatches(c: Checker, items: seq<Signed>, keys: seq<string>, required: int,
                                       trusted: seq<string>, positions: seq<nat>) returns (m: map<nat, nat>)
    requires At(trusted, keys, positions)
    requires Scan(c, items, keys, required).Ok?
    ensures Matching(c, items, trusted, m) && |m| == required - Scan(c, items, keys, required).value.1
    ensures forall p :: p in m ==> p in positions
    ensures Scan(c, items, keys, required).value.1 != 0 ==> Maximal(c, items, trusted, positions, m)
    decreases |items|
  {
    if required == 0 || items == [] {
      return map[];
    }
    FirstKeyVerifies(c, items[0], keys);
    var i := FirstKey(c, items[0], keys).value;
    if i == |keys| {
      var n := ScanMatches(c, items[1..], keys, required, trusted, positions);
      m := Later(n);
      LaterMatches(c, items, trusted, n);
      if Scan(c, items, keys, required).value.1 != 0 {
        MaximalSkip(c, items, keys, trusted, positions, n);
      }
    } else if required == 1 {
      m := map[positions[i] := 0];
    } else {
      var rest := positions[..i] + positions[i + 1..];
      AtWithout(c, trusted, keys, positions, i);
      var n := ScanMatches(c, items[1..], Without(keys, i), required - 1, trusted, rest);
      m := Later(n)[positions[i] := 0];
      TakeMatches(c, items, trusted, positions[i], n);
      if Scan(c, items, keys, required).value.1 != 0 {
        MaximalTake(c, items, trusted, positions, i, n);
      }
    }
  }

  lemma MaximalSkip(c: Checker, items: seq<Signed>, keys: seq<string>, trusted: seq<string>, positions: seq<nat>, n: map<nat, nat>)
    requires items != [] && At(trusted, keys, positions)
    requires forall i :: 0 <= i < |keys| ==> !Verifies(c, items[0], keys[i])
    requires Maximal(c, items[1..], trusted, positions, n)
    ensures Maximal(c, items, trusted, positions, Later(n))
  {
    forall j, p | 0 <= j < |items| && p in positions && p < |trusted| && j !in Later(n).Values && p !in Later(n)
      ensures !Verifies(c, items[j], trusted[p])
    {
      var k :| 0 <= k < |positions| && positions[k] == p;
      assert keys[k] == trusted[p];
      if j > 0 { LaterValues(n, j); assert items[j] == items[1..][j - 1]; }
    }
  }

  lemma TakeMatches(c: Checker, items: seq<Signed>, trusted: seq<string>, p: nat, n: map<nat, nat>)
    requires items != [] && p < |trusted| && p !in n && Verifies(c, items[0], trusted[p])
    requires Matching(c, items[1..], trusted, n)
    ensures Matching(c, items, trusted, Later(n)[p := 0]) && |Later(n)[p := 0]| == |n| + 1
  {
    assert p !in Later(n);
    LaterMatches(c, items, trusted, n);
    hide Later, Verifies;
    Extend(Later(n), p, 0);
  }

  lemma Extend(m: map<nat, nat>, p: nat, j: nat)
    requires p !in m
    ensures |m[p := j]| == |m| + 1
  {
    assert m[p := j].Keys == m.Keys + {p};
  }

  lemma MaximalTake(c: Checker, items: seq<Signed>, trusted: seq<string>, positions: seq<nat>, i: nat, n: map<nat, nat>)
    requires items != [] && i < |positions| && positions[i] !in n
    requires Maximal(c, items[1..], trusted, positions[..i] + positions[i + 1..], n)
    ensures Maximal(c, items, trusted, positions, Later(n)[positions[i] := 0])
  {
    var rest, m := positions[..i] + positions[i + 1..], Later(n)[positions[i] := 0];
    assert forall q :: q in n ==> q in m && m[q] == n[q] + 1;
    forall j, p | 0 <= j < |items| && p in positions && p < |trusted| && j !in m.Values && p !in m
      ensures !Verifies(c, items[j], trusted[p])
    {
      assert p in rest by {
        var k :| 0 <= k < |positions| && positions[k] == p;
        assert rest[if k < i then k else k - 1] == p;
      }
      assert j != 0 by { assert m[positions[i]] == 0; }
      assert j - 1 !in n.Values;
      assert items[j] == items[1..][j - 1];
    }
  }

  /** The matching of the signatures after the first, in the numbering of the whole list. */
  ghost function Later(m: map<nat, nat>): map<nat, nat> {
    map p | p in m :: m[p] + 1
  }

  lemma LaterValues(m: map<nat, nat>, j: nat)
    requires j > 0
    ensures j in Later(m).Values <==> j - 1 in m.Values
  {
    if j in Later(m).Values {
      var p :| p in Later(m) && Later(m)[p] == j;
      assert m[p] == j - 1;
    }
    if j - 1 in m.Values {
      var p :| p in m && m[p] == j - 1;
      assert Later(m)[p] == j;
    }
  }

  lemma LaterMatches(c: Checker, items: seq<Signed>, trusted: seq<string>, m: map<nat, nat>)
    requires items != [] && Matching(c, items[1..], trusted, m)
    ensures Matching(c, items, trusted, Later(m)) && |Later(m)| == |m|
    ensures forall p :: p in Later(m) ==> Later(m)[p] != 0
  {
    assert Later(m).Keys == m.Keys;
    assert |Later(m)| == |Later(m).Keys| == |m.Keys| == |m|;
    forall p | p in Later(m) ensures Verifies(c, items[Later(m)[p]], trusted[p]) {
      assert items[1..][m[p]] == items[m[p] + 1];
    }
  }

  lemma Everywhere(keys: seq<string>) returns (positions: seq<nat>)
    ensures At(keys, keys, positions)
    ensures forall p :: 0 <= p < |keys| ==> p in positions
  {
    positions := seq(|keys|, i requires 0 <= i < |keys| => i);
    forall p | 0 <= p < |keys| ensures p in positions { assert positions[p] == p; }
  }

  /** Acceptance means n distinct signatures were made by n distinct positions of the trusted list. */
  lemma Soundness(c: Checker, repo: Repository, o: Object, keys: seq<string>, required: int)
    requires Verdict(c, repo, o, keys, required).Ok?
    ensures required >= 0
    ensures exists m :: Matching(c, Items(repo, o), keys, m) && |m| == required
  {
    VerdictIsOneScan(c, repo, o, keys, required);
    var positions := Everywhere(keys);
    var m := ScanMatches(c, Items(repo, o), keys, required, keys, positions);
    assert Matching(c, Items(repo, o), keys, m) && |m| == required;
  }

  /** A shortfall is reported as the number still missing after a matching that no leftover pair could extend. */
  lemma Shortfall(c: Checker, repo: Repository, o: Object, keys: seq<string>, required: int)
    requires !repo.notes(o.id).Unreadable?
    requires Verdict(c, repo, o, keys, required).Err? && Verdict(c, repo, o, keys, required).error.NotEnough?
    ensures exists m :: Matching(c, Items(repo, o), keys, m)
              && Verdict(c, repo, o, keys, required).error.number == required - |m|
              && forall j, p :: 0 <= j < |Items(repo, o)| && 0 <= p < |keys| && j !in m.Values && p !in m ==>
                   !Verifies(c, Items(repo, o)[j], keys[p])
  {
    VerdictIsOneScan(c, repo, o, keys, required);
    ScanErrors(c, Items(repo, o), keys, required);
    var positions := Everywhere(keys);
    var m := ScanMatches(c, Items(repo, o), keys, required, keys, positions);
    assert Matching(c, Items(repo, o), keys, m);
  }

  lemma ScanErrors(c: Checker, items: seq<Signed>, keys: seq<string>, required: int)
    ensures Scan(c, items, keys, required).Err? ==> Scan(c, items, keys, required).error == BadKey
    decreases |items|
  {
    if items != [] { FirstKeyErrors(c, items[0], keys); }
  }

  lemma FirstKeyErrors(c: Checker, s: Signed, keys: seq<string>)
    ensures FirstKey(c, s, keys).Err? ==> FirstKey(c, s, keys).error == BadKey
    ensures AllParse(c, keys) ==> FirstKey(c, s, keys).Ok?
  {
    if keys != [] { FirstKeyErrors(c, s, keys[1..]); }
  }

  // ---------- completeness ----------

  ghost predicate AllParse(c: Checker, keys: seq<string>) {
    forall k :: k in keys ==> c.parses(k)
  }

  /** Each signature verifies under at most one position of the trusted list. */
  ghost predicate OneSigner(c: Checker, items: seq<Signed>, keys: seq<string>) {
    forall j, p, q | 0 <= j < |items| && 0 <= p < |keys| && 0 <= q < |keys| ::
      Verifies(c, items[j], keys[p]) && Verifies(c, items[j], keys[q]) ==> p == q
  }

  ghost predicate Signs(c: Checker, items: seq<Signed>, key: string) {
    exists s :: s in items && Verifies(c, s, key)
  }

  /** The given positions that hold a key with some verifying signature. */
  ghost function Signers(c: Checker, items: seq<Signed>, trusted: seq<string>, positions: seq<nat>): set<nat> {
    set p | p in positions && p < |trusted| && Signs(c, items, trusted[p])
  }

  lemma {:induction false} ScanCounts(c: Checker, items: seq<Signed>, keys: seq<string>, required: int,
                                      trusted: seq<string>, positions: seq<nat>)
    requires At(trusted, keys, positions) && AllParse(c, keys) && OneSigner(c, items, trusted)
    ensures Scan(c, items, keys, required).Ok?
    ensures var signers := |Signers(c, items, trusted, positions)|;
            Scan(c, items, keys, required).value.1 == if 0 <= required <= signers then 0 else required - signers
    decreases |items|
  {
    assert |positions| == |keys|;
    if items == [] {
      NoSigners(c, trusted, positions);
    } else if required != 0 {
      FirstKeyErrors(c, items[0], keys);
      FirstKeyVerifies(c, items[0], keys);
      OneSignerLater(c, items, trusted);
      hide *;
      var i := FirstKey(c, items[0], keys).value;
      ScanStep(c, items, keys, required, i);
      if i == |keys| {
        ScanCounts(c, items[1..], keys, required, trusted, positions);
        SignersSkip(c, items, keys, trusted, positions);
      } else {
        AtWithout(c, trusted, keys, positions, i);
        ScanCounts(c, items[1..], Without(keys, i), required - 1, trusted, positions[..i] + positions[i + 1..]);
        SignersSplit(c, items, keys, trusted, positions, i);
      }
    }
  }

  lemma ScanStep(c: Checker, items: seq<Signed>, keys: seq<string>, required: int, i: nat)
    requires items != [] && required != 0 && FirstKey(c, items[0], keys) == Ok(i)
    ensures i <= |keys|
    ensures Scan(c, items, keys, required) ==
            if i == |keys| then Scan(c, items[1..], keys, required)
            else if required == 1 then Ok((keys, 0))
            else Scan(c, items[1..], Without(keys, i), required - 1)
  {
  }

  lemma NoSigners(c: Checker, trusted: seq<string>, positions: seq<nat>)
    ensures |Signers(c, [], trusted, positions)| == 0
  {
    assert Signers(c, [], trusted, positions) == {};
  }

  lemma OneSignerLater(c: Checker, items: seq<Signed>, keys: seq<string>)
    requires items != [] && OneSigner(c, items, keys)
    ensures OneSigner(c, items[1..], keys)
  {
    assert forall j :: 0 <= j < |items[1..]| ==> items[1..][j] == items[j + 1];
  }

  lemma SignersSkip(c: Checker, items: seq<Signed>, keys: seq<string>, trusted: seq<string>, positions: seq<nat>)
    requires items != [] && At(trusted, keys, positions)
    requires forall i :: 0 <= i < |keys| ==> !Verifies(c, items[0], keys[i])
    ensures Signers(c, items, trusted, positions) == Signers(c, items[1..], trusted, positions)
  {
    assert items == [items[0]] + items[1..];
    forall p | p in positions && p < |trusted|
      ensures Signs(c, items, trusted[p]) <==> Signs(c, items[1..], trusted[p])
    {
      var k :| 0 <= k < |positions| && positions[k] == p;
      assert keys[k] == trusted[p];
    }
  }

  lemma SignersSplit(c: Checker, items: seq<Signed>, keys: seq<string>, trusted: seq<string>, positions: seq<nat>, i: nat)
    requires items != [] && At(trusted, keys, positions) && i < |keys|
    requires OneSigner(c, items, trusted) && Verifies(c, items[0], keys[i])
    ensures var rest := positions[..i] + positions[i + 1..];
            |Signers(c, items, trusted, positions)| == 1 + |Signers(c, items[1..], trusted, rest)|
  {
    var p, rest := positions[i], positions[..i] + positions[i + 1..];
    var all, others := Signers(c, items, trusted, positions), Signers(c, items[1..], trusted, rest);
    assert items == [items[0]] + items[1..];
    assert p !in rest;
    assert forall q :: q in positions <==> q == p || q in rest;
    forall q | q in all && q != p ensures q in others {
      var s :| s in items && Verifies(c, s, trusted[q]);
      assert s != items[0];
      assert s in items[1..];
    }
    forall q | q in others ensures q in all {
      var s :| s in items[1..] && Verifies(c, s, trusted[q]);
      assert s in items;
    }
    assert p in all by { assert items[0] in items; }
    assert all == {p} + others;
  }

  /** With readable keys and one signer a signature, acceptance is decided by counting signers, and a failure reports the rest. */
  lemma Completeness(c: Checker, repo: Repository, o: Object, keys: seq<string>, required: int)
    requires !repo.notes(o.id).Unreadable?
    requires AllParse(c, keys) && OneSigner(c, Items(repo, o), keys)
    ensures var signers := |set p | 0 <= p < |keys| && Signs(c, Items(repo, o), keys[p])|;
            Verdict(c, repo, o, keys, required) ==
              if 0 <= required <= signers then Ok(()) else Err(NotEnough(required - signers))
  {
    hide Scan, Verdict, Items;
    VerdictIsOneScan(c, repo, o, keys, required);
    var positions := Everywhere(keys);
    ScanCounts(c, Items(repo, o), keys, required, keys, positions);
    assert Signers(c, Items(repo, o), keys, positions) == set p | 0 <= p < |keys| && Signs(c, Items(repo, o), keys[p]);
  }

  // ---------- what is counted ----------

  /** The object carries this signature of this data: its own over its encoding, or one from its notes over its hash. */
  ghost predicate Carries(repo: Repository, o: Object, data: string, signature: string) {
    || (signature != "" && signature == o.signature && data == o.encoding)
    || (repo.notes(o.id).Found? && signature in repo.notes(o.id).signatures && data == o.id)
  }

  lemma ItemsAreCarried(repo: Repository, o: Object, data: string, signature: string)
    ensures Signed(data, signature) in Items(repo, o) <==> Carries(repo, o, data, signature)
  {
    if repo.notes(o.id).Found? {
      var signatures := repo.notes(o.id).signatures;
      var over := Over(o.id, signatures);
      if data == o.id && signature in signatures {
        var i :| 0 <= i < |signatures| && signatures[i] == signature;
        assert over[i] == Signed(data, signature);
      }
    }
  }

  /**
   * With readable keys and no signature that two keys verify, a position counts if its key verifies the object's own
   * signature over the encoding, or one of its notes over the hash; acceptance compares the count with the number
   * required, and a failure reports the difference.
   */
  lemma SignersDecide(c: Checker, repo: Repository, o: Object, keys: seq<string>, required: int)
    requires !repo.notes(o.id).Unreadable? && forall k :: k in keys ==> c.parses(k)
    requires forall data, signature, p, q ::
               (0 <= p < |keys| && 0 <= q < |keys| && Carries(repo, o, data, signature) &&
                c.verifies(data, signature, keys[p]) && c.verifies(data, signature, keys[q])) ==> p == q
    ensures var count := |set p | 0 <= p < |keys| &&
              ((o.signature != "" && c.verifies(o.encoding, o.signature, keys[p])) ||
               (repo.notes(o.id).Found? && exists s :: s in repo.notes(o.id).signatures && c.verifies(o.id, s, keys[p])))|;
            Verdict(c, repo, o, keys, required) == if 0 <= required <= count then Ok(()) else Err(NotEnough(required - count))
  {
    var items := Items(repo, o);
    forall j, p, q | 0 <= j < |items| && 0 <= p < |keys| && 0 <= q < |keys| && Verifies(c, items[j], keys[p]) && Verifies(c, items[j], keys[q])
      ensures p == q
    {
      assert Signed(items[j].data, items[j].signature) in items;
      ItemsAreCarried(repo, o, items[j].data, items[j].signature);
    }
    forall p | 0 <= p < |keys|
      ensures Signs(c, items, keys[p]) <==>
              ((o.signature != "" && c.verifies(o.encoding, o.signature, keys[p])) ||
               (repo.notes(o.id).Found? && exists s :: s in repo.notes(o.id).signatures && c.verifies(o.id, s, keys[p])))
    {
      SignsMeaning(c, repo, o, keys[p]);
    }
    hide Items, Verdict, Signs;
    Completeness(c, repo, o, keys, required);
    assert (set p | 0 <= p < |keys| && Signs(c, items, keys[p])) ==
           set p | 0 <= p < |keys| &&
             ((o.signature != "" && c.verifies(o.encoding, o.signature, keys[p])) ||
              (repo.notes(o.id).Found? && exists s :: s in repo.notes(o.id).signatures && c.verifies(o.id, s, keys[p])));
  }

  lemma SignsMeaning(c: Checker, repo: Repository, o: Object, key: string)
    ensures Signs(c, Items(repo, o), key) <==>
            ((o.signature != "" && c.verifies(o.encoding, o.signature, key)) ||
             (repo.notes(o.id).Found? && exists s :: s in repo.notes(o.id).signatures && c.verifies(o.id, s, key)))
  {
    if s :| s in Items(repo, o) && Verifies(c, s, key) {
      ItemsAreCarried(repo, o, s.data, s.signature);
    }
    if o.signature != "" && c.verifies(o.encoding, o.signature, key) {
      ItemsAreCarried(repo, o, o.encoding, o.signature);
      assert Verifies(c, Signed(o.encoding, o.signature), key);
    }
    if repo.notes(o.id).Found? {
      forall s | s in repo.notes(o.id).signatures && c.verifies(o.id, s, key) ensures Signs(c, Items(repo, o), key) {
        ItemsAreCarried(repo, o, o.id, s);
        assert Verifies(c, Signed(o.id, s), key);
      }
    }
  }

  /** The object's own signature alone meets a quorum of one, whatever its notes are. */
  lemma OwnSignatureSuffices(c: Checker, repo: Repository, o: Object, keys: seq<string>)
    requires o.signature != "" && keys != [] && c.parses(keys[0]) && c.verifies(o.encoding, o.signature, keys[0])
    ensures Verdict(c, repo, o, keys, 1) == Ok(())
  {
  }

  /** The keys before can be read and do not verify. */
  ghost predicate NoneBefore(c: Checker, s: Signed, keys: seq<string>, i: nat)
    requires i <= |keys|
  {
    forall j :: 0 <= j < i ==> c.parses(keys[j]) && !c.verifies(s.data, s.signature, keys[j])
  }

  /** A search for a key ends at the first one that verifies, unless one that cannot be read comes before it. */
  lemma {:induction false} FirstKeyMeaning(c: Checker, s: Signed, keys: seq<string>)
    ensures match FirstKey(c, s, keys)
            case Ok(i) =>
              && NoneBefore(c, s, keys, i)
              && (i < |keys| ==> c.parses(keys[i]) && c.verifies(s.data, s.signature, keys[i]))
            case Err(e) =>
              e == BadKey && exists i :: 0 <= i < |keys| && !c.parses(keys[i]) && NoneBefore(c, s, keys, i)
  {
    if keys != [] {
      var rest := keys[1..];
      FirstKeyMeaning(c, s, rest);
      assert forall j :: 0 <= j < |rest| ==> rest[j] == keys[j + 1];
      if !c.parses(keys[0]) {
        assert FirstKey(c, s, keys) == Err(BadKey);
      } else if !Verifies(c, s, keys[0]) {
        match FirstKey(c, s, rest)
        case Ok(i) =>
          forall j | 0 <= j < i + 1 ensures c.parses(keys[j]) && !c.verifies(s.data, s.signature, keys[j]) {
            if j > 0 { assert keys[j] == rest[j - 1]; }
          }
        case Err(_) =>
          var i :| 0 <= i < |rest| && !c.parses(rest[i]) && NoneBefore(c, s, rest, i);
          assert !c.parses(keys[i + 1]);
          forall j | 0 <= j < i + 1 ensures c.parses(keys[j]) && !c.verifies(s.data, s.signature, keys[j]) {
            if j > 0 { assert keys[j] == rest[j - 1]; }
          }
      }
    }
  }

  /** A first key that cannot be read is an error as soon as a signature has to be checked, and unreadable notes are one. */
  lemma UnreadableFails(c: Checker, repo: Repository, o: Object, keys: seq<string>, required: int)
    requires required != 0
    ensures o.signature != "" && keys != [] && !c.parses(keys[0]) ==> Verdict(c, repo, o, keys, required) == Err(BadKey)
    ensures o.signature == "" && repo.notes(o.id).Unreadable? ==> Verdict(c, repo, o, keys, required) == Err(GitFailure)
    ensures o.signature == "" && repo.notes(o.id).Missing? ==> Verdict(c, repo, o, keys, required) == Err(NotEnough(required))
  {
  }
}
