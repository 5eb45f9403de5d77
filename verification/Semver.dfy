/** Precedence of versions (section 11 of Semantic Versioning 2.0.0) and the choice of the latest one. */
module Semver {
  import opened Options

  datatype Ident = Numeric(n: nat) | Alpha(text: string)

  /** An empty pre is a normal version. Build metadata does not take part in precedence. */
  datatype Version = Version(major: nat, minor: nat, patch: nat, pre: seq<Ident>, build: string)

  predicate TextLess(a: string, b: string) {
    if a == [] then b != []
    else b != [] && (a[0] < b[0] || (a[0] == b[0] && TextLess(a[1..], b[1..])))
  }

  predicate IdentLess(a: Ident, b: Ident) {
    match (a, b)
    case (Numeric(m), Numeric(n)) => m < n
    case (Alpha(s), Alpha(t)) => TextLess(s, t)
    case (Numeric(_), Alpha(_)) => true
    case (Alpha(_), Numeric(_)) => false
  }

  predicate IdentsLess(a: seq<Ident>, b: seq<Ident>) {
    if a == [] then b != []
    else b != [] && (IdentLess(a[0], b[0]) || (a[0] == b[0] && IdentsLess(a[1..], b[1..])))
  }

  /** A pre-release comes before the version it leads to. */
  predicate PreLess(a: seq<Ident>, b: seq<Ident>) {
    a != [] && (b == [] || IdentsLess(a, b))
  }

  predicate Less(v: Version, w: Version) {
    if v.major != w.major then v.major < w.major
    else if v.minor != w.minor then v.minor < w.minor
    else if v.patch != w.patch then v.patch < w.patch
    else PreLess(v.pre, w.pre)
  }

  predicate SamePrecedence(v: Version, w: Version) {
    v.(build := "") == w.(build := "")
  }

  // ---------- precedence is a strict weak order ----------

  lemma {:induction false} TextTotal(a: string, b: string)
    ensures a == b ==> !TextLess(a, b)
    ensures a != b ==> (TextLess(a, b) <==> !TextLess(b, a))
  {
    if a != [] && b != [] && a[0] == b[0] {
      TextTotal(a[1..], b[1..]);
      assert a == [a[0]] + a[1..] && b == [b[0]] + b[1..];
    }
  }

  lemma {:induction false} TextTransitive(a: string, b: string, c: string)
    requires TextLess(a, b) && TextLess(b, c)
    ensures TextLess(a, c)
  {
    if a != [] && a[0] == b[0] == c[0] {
      TextTransitive(a[1..], b[1..], c[1..]);
    }
  }

  lemma {:induction false} IdentsTotal(a: seq<Ident>, b: seq<Ident>)
    ensures a == b ==> !IdentsLess(a, b)
    ensures a != b ==> (IdentsLess(a, b) <==> !IdentsLess(b, a))
  {
    if a != [] && b != [] {
      if a[0].Alpha? && b[0].Alpha? {
        TextTotal(a[0].text, b[0].text);
      }
      IdentsTotal(a[1..], b[1..]);
      assert a == [a[0]] + a[1..] && b == [b[0]] + b[1..];
    }
  }

  lemma {:induction false} IdentsTransitive(a: seq<Ident>, b: seq<Ident>, c: seq<Ident>)
    requires IdentsLess(a, b) && IdentsLess(b, c)
    ensures IdentsLess(a, c)
  {
    if a != [] {
      if IdentLess(a[0], b[0]) && IdentLess(b[0], c[0]) && a[0].Alpha? && c[0].Alpha? {
        TextTransitive(a[0].text, b[0].text, c[0].text);
      }
      if a[0] == b[0] == c[0] {
        if a[0].Alpha? {
          TextTotal(a[0].text, a[0].text);
        }
        IdentsTransitive(a[1..], b[1..], c[1..]);
      }
    }
  }

  /** Of any two versions exactly one comes first, unless they differ in build metadata alone. */
  lemma Trichotomy(v: Version, w: Version)
    ensures SamePrecedence(v, w) <==> !Less(v, w) && !Less(w, v)
    ensures !(Less(v, w) && Less(w, v))
  {
    IdentsTotal(v.pre, w.pre);
  }

  lemma Transitive(u: Version, v: Version, w: Version)
    requires Less(u, v) && Less(v, w)
    ensures Less(u, w)
  {
    if IdentsLess(u.pre, v.pre) && IdentsLess(v.pre, w.pre) {
      IdentsTransitive(u.pre, v.pre, w.pre);
    }
  }

  /** Versions of the same precedence stand in the same relation to every other one. */
  lemma SameIsSame(u: Version, v: Version, w: Version)
    requires SamePrecedence(u, v)
    ensures Less(u, w) <==> Less(v, w)
    ensures Less(w, u) <==> Less(w, v)
  {
  }

  /** Not coming before is transitive, as a weak order demands. */
  lemma NotLessTransitive(u: Version, v: Version, w: Version)
    requires !Less(u, v) && !Less(v, w)
    ensures !Less(u, w)
  {
    Trichotomy(u, v);
    Trichotomy(v, w);
    if Less(u, w) {
      if Less(w, v) {
        Transitive(u, w, v);
      } else {
        SameIsSame(v, w, u);
      }
    }
  }

  // ---------- what precedence is ----------

  /** The greater major, then minor, then patch number comes later, whatever the rest is. */
  lemma NumbersDecide(v: Version, w: Version)
    requires v.major < w.major || (v.major == w.major && (v.minor < w.minor || (v.minor == w.minor && v.patch < w.patch)))
    ensures Less(v, w) && !Less(w, v)
  {
  }

  /** With equal numbers a pre-release comes before the release. */
  lemma PreReleaseComesFirst(v: Version, w: Version)
    requires v.major == w.major && v.minor == w.minor && v.patch == w.patch && v.pre != [] && w.pre == []
    ensures Less(v, w) && !Less(w, v)
  {
  }

  /** The first difference of two texts: one ends before the other, or has the smaller character. */
  ghost predicate TextDiffers(a: string, b: string, j: nat) {
    && j <= |a| && j < |b| && (forall i :: 0 <= i < j ==> a[i] == b[i])
    && (j == |a| || a[j] < b[j])
  }

  lemma {:induction false} TextDecides(a: string, b: string, j: nat)
    requires TextDiffers(a, b, j)
    ensures TextLess(a, b)
  {
    if j > 0 {
      assert a[0] == b[0];
      assert forall i :: 0 <= i < j - 1 ==> a[1..][i] == a[i + 1] && b[1..][i] == b[i + 1];
      TextDecides(a[1..], b[1..], j - 1);
    }
  }

  /** Numbers compare as numbers, stand below texts, and texts compare by their first differing character. */
  ghost predicate IdentBefore(a: Ident, b: Ident) {
    || (a.Numeric? && b.Numeric? && a.n < b.n)
    || (a.Numeric? && b.Alpha?)
    || (a.Alpha? && b.Alpha? && exists j: nat :: TextDiffers(a.text, b.text, j))
  }

  lemma IdentDecides(a: Ident, b: Ident)
    requires IdentBefore(a, b)
    ensures IdentLess(a, b)
  {
    if a.Alpha? && b.Alpha? {
      var j: nat :| TextDiffers(a.text, b.text, j);
      TextDecides(a.text, b.text, j);
    }
  }

  lemma {:induction false} IdentsDecide(a: seq<Ident>, b: seq<Ident>, k: nat)
    requires k <= |a| && k < |b| && forall i :: 0 <= i < k ==> a[i] == b[i]
    requires k == |a| || IdentBefore(a[k], b[k])
    ensures IdentsLess(a, b)
  {
    if k > 0 {
      assert a[0] == b[0];
      assert forall i :: 0 <= i < k - 1 ==> a[1..][i] == a[i + 1] && b[1..][i] == b[i + 1];
      IdentsDecide(a[1..], b[1..], k - 1);
    } else if a != [] {
      IdentDecides(a[0], b[0]);
    }
  }

  /** With equal numbers the first differing identifier decides, and a pre-release whose identifiers all agree but are fewer comes first. */
  lemma IdentifiersDecide(v: Version, w: Version, k: nat)
    requires v.major == w.major && v.minor == w.minor && v.patch == w.patch && v.pre != []
    requires k <= |v.pre| && k < |w.pre| && forall i :: 0 <= i < k ==> v.pre[i] == w.pre[i]
    requires k == |v.pre| || IdentBefore(v.pre[k], w.pre[k])
    ensures Less(v, w) && !Less(w, v)
  {
    IdentsDecide(v.pre, w.pre, k);
    Trichotomy(v, w);
  }

  /** Build metadata does not take part. */
  lemma BuildIsIgnored(v: Version, w: Version, a: string, b: string)
    ensures Less(v.(build := a), w.(build := b)) <==> Less(v, w)
  {
  }

  // ---------- the latest version ----------

  type Parse = string -> Option<Version>
  type Constraint = Version -> bool

  /** The name is a version that the constraint admits. */
  predicate Admits(parse: Parse, check: Constraint, name: string) {
    parse(name).Some? && check(parse(name).value)
  }

  function Names(order: seq<string>): set<string> {
    set n | n in order
  }

  /** An admitted name that no admitted name comes after. */
  ghost predicate IsLatest(parse: Parse, check: Constraint, names: set<string>, best: string) {
    && best in names && Admits(parse, check, best)
    && forall n :: n in names && Admits(parse, check, n) ==> !Less(parse(best).value, parse(n).value)
  }

  /** The numbers alone put the version above the other one. */
  ghost predicate NumbersAbove(w: Version, v: Version) {
    w.major > v.major || (w.major == v.major && (w.minor > v.minor || (w.minor == v.minor && w.patch > v.patch)))
  }

  /** No admitted name has greater numbers than the latest one, and with equal numbers none is a release if it is not. */
  lemma LatestIsGreatest(parse: Parse, check: Constraint, names: set<string>, best: string, n: string)
    requires IsLatest(parse, check, names, best) && n in names && parse(n).Some? && check(parse(n).value)
    ensures var v, w := parse(best).value, parse(n).value;
            && !(w.major > v.major || (w.major == v.major && (w.minor > v.minor || (w.minor == v.minor && w.patch > v.patch))))
            && (w.major == v.major && w.minor == v.minor && w.patch == v.patch && w.pre == [] ==> v.pre == [])
  {
    hide Less;
    var v, w := parse(best).value, parse(n).value;
    assert Admits(parse, check, n) && !Less(v, w);
    if w.major > v.major || (w.major == v.major && (w.minor > v.minor || (w.minor == v.minor && w.patch > v.patch))) {
      NumbersDecide(v, w);
    } else if w.major == v.major && w.minor == v.minor && w.patch == v.patch && w.pre == [] && v.pre != [] {
      PreReleaseComesFirst(v, w);
    }
  }

  /** The loop of both searches: over the names in the order given, keeping the first of those that come last. */
  method Latest(parse: Parse, check: Constraint, order: seq<string>) returns (best: Option<string>)
    ensures best.None? <==> forall n :: n in order ==> !Admits(parse, check, n)
    ensures best.Some? ==> IsLatest(parse, check, Names(order), best.value)
  {
    best := None;
    for k := 0 to |order|
      invariant best.None? <==> forall n :: n in order[..k] ==> !Admits(parse, check, n)
      invariant best.Some? ==> IsLatest(parse, check, Names(order[..k]), best.value)
    {
      assert order[..k + 1] == order[..k] + [order[k]];
      assert Names(order[..k + 1]) == Names(order[..k]) + {order[k]};
      var name := order[k];
      if Admits(parse, check, name) {
        if best.None? {
          Trichotomy(parse(name).value, parse(name).value);
          best := Some(name);
        } else if Less(parse(best.value).value, parse(name).value) {
          Replaces(parse, check, Names(order[..k]), best.value, name);
          best := Some(name);
        }
      }
    }
    assert order[..|order|] == order;
  }

  lemma Replaces(parse: Parse, check: Constraint, names: set<string>, best: string, name: string)
    requires IsLatest(parse, check, names, best) && Admits(parse, check, name) && Less(parse(best).value, parse(name).value)
    ensures IsLatest(parse, check, names + {name}, name)
  {
    var v, w := parse(best).value, parse(name).value;
    Trichotomy(w, w);
    Trichotomy(v, w);
    forall n | n in names && Admits(parse, check, n) ensures !Less(w, parse(n).value) {
      NotLessTransitive(w, v, parse(n).value);
    }
  }

  /** Two searches over the same names, each in its own order, agree up to precedence. */
  lemma OrdersAgree(parse: Parse, check: Constraint, names: set<string>, a: string, b: string)
    requires IsLatest(parse, check, names, a) && IsLatest(parse, check, names, b)
    ensures SamePrecedence(parse(a).value, parse(b).value)
  {
    Trichotomy(parse(a).value, parse(b).value);
  }

  /** Among names of which one is admitted there is a latest. */
  lemma {:induction false} LatestExists(parse: Parse, check: Constraint, names: set<string>, name: string)
    requires name in names && Admits(parse, check, name)
    ensures exists best :: IsLatest(parse, check, names, best)
  {
    var rest := names - {name};
    if other :| other in rest && Admits(parse, check, other) {
      LatestExists(parse, check, rest, other);
      var best :| IsLatest(parse, check, rest, best);
      assert rest + {name} == names;
      if Less(parse(best).value, parse(name).value) {
        Replaces(parse, check, rest, best, name);
        assert IsLatest(parse, check, names, name);
      } else {
        assert IsLatest(parse, check, names, best);
      }
    } else {
      Trichotomy(parse(name).value, parse(name).value);
      assert IsLatest(parse, check, names, name);
    }
  }
}
