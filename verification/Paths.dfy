/** Lexical cleaning and joining of slash-separated paths, as the Go library documents it. */
module Paths {

  /** The components between slashes, empty ones included. */
  function Parts(s: string): (parts: seq<string>)
    ensures parts != []
  {
    if s == "" then [""]
    else
      var rest := Parts(s[1..]);
      if s[0] == '/' then [""] + rest else [[s[0]] + rest[0]] + rest[1..]
  }

  function Glue(parts: seq<string>): string {
    if parts == [] then "" else if |parts| == 1 then parts[0] else parts[0] + "/" + Glue(parts[1..])
  }

  /** One component more: an empty one or a dot changes nothing, two dots go back. */
  function Resolve(rooted: bool, stack: seq<string>, part: string): seq<string> {
    if part == "" || part == "." then stack
    else if part == ".." then
      if stack != [] && stack[|stack| - 1] != ".." then stack[..|stack| - 1]
      else if rooted then stack
      else stack + [".."]
    else stack + [part]
  }

  function ResolveAll(rooted: bool, stack: seq<string>, parts: seq<string>): seq<string>
    decreases |parts|
  {
    if parts == [] then stack else ResolveAll(rooted, Resolve(rooted, stack, parts[0]), parts[1..])
  }

  function Clean(s: string): string {
    if s == "" then "."
    else if s[0] == '/' then "/" + Glue(ResolveAll(true, [], Parts(s)))
    else
      var stack := ResolveAll(false, [], Parts(s));
      if stack == [] then "." else Glue(stack)
  }

  function NonEmpty(elements: seq<string>): seq<string> {
    if elements == [] then []
    else if elements[0] == "" then NonEmpty(elements[1..])
    else [elements[0]] + NonEmpty(elements[1..])
  }

  /** Empty elements are ignored, and the rest is cleaned. */
  function Join(elements: seq<string>): string {
    if NonEmpty(elements) == [] then "" else Clean(Glue(NonEmpty(elements)))
  }

  // ---------- components ----------

  /** A component that cleaning leaves alone. */
  predicate Plain(part: string) {
    part != "" && part != "." && part != ".." && '/' !in part
  }

  lemma {:induction false} PartsOfOne(s: string)
    requires '/' !in s
    ensures Parts(s) == [s]
  {
    if s != "" {
      assert s == [s[0]] + s[1..];
      PartsOfOne(s[1..]);
    }
  }

  lemma {:induction false} PartsConcat(a: string, b: string)
    ensures Parts(a + "/" + b) == Parts(a) + Parts(b)
  {
    var all := a + "/" + b;
    if a == "" {
      assert all[1..] == b;
      assert Parts(all) == [""] + Parts(b);
    } else {
      PartsConcat(a[1..], b);
      assert all[0] == a[0] && all[1..] == a[1..] + "/" + b;
      PartsPrefix(all, a, Parts(a[1..]), Parts(b));
    }
  }

  lemma PartsPrefix(all: string, a: string, rest: seq<string>, more: seq<string>)
    requires a != "" && all != "" && all[0] == a[0] && rest == Parts(a[1..]) && Parts(all[1..]) == rest + more
    ensures Parts(all) == Parts(a) + more
  {
    Parting(all);
    Parting(a);
    hide Parts;
    Tail(rest, more);
    Assoc([""], rest, more);
    Assoc([[a[0]] + rest[0]], rest[1..], more);
  }

  lemma Assoc<T>(a: seq<T>, b: seq<T>, c: seq<T>)
    ensures a + (b + c) == a + b + c
  {
  }

  lemma Tail<T>(a: seq<T>, b: seq<T>)
    requires a != []
    ensures (a + b)[0] == a[0] && (a + b)[1..] == a[1..] + b
  {
  }

  lemma Parting(s: string)
    requires s != ""
    ensures var rest := Parts(s[1..]);
            Parts(s) == if s[0] == '/' then [""] + rest else [[s[0]] + rest[0]] + rest[1..]
  {
  }

  lemma {:induction false} PartsHaveNoSlash(s: string, i: nat)
    requires i < |Parts(s)|
    ensures '/' !in Parts(s)[i]
  {
    if s != "" {
      var rest := Parts(s[1..]);
      if s[0] == '/' {
        if i > 0 { PartsHaveNoSlash(s[1..], i - 1); }
      } else {
        PartsHaveNoSlash(s[1..], i);
      }
    }
  }

  lemma {:induction false} ResolvedArePlain(rooted: bool, stack: seq<string>, parts: seq<string>)
    requires forall i :: 0 <= i < |parts| ==> '/' !in parts[i]
    requires forall i :: 0 <= i < |stack| ==> Plain(stack[i]) || stack[i] == ".."
    ensures var r := ResolveAll(rooted, stack, parts); forall i :: 0 <= i < |r| ==> Plain(r[i]) || r[i] == ".."
    decreases |parts|
  {
    if parts == [] {
      assert ResolveAll(rooted, stack, parts) == stack;
    } else {
      var next := Resolve(rooted, stack, parts[0]);
      ResolvedArePlain(rooted, next, parts[1..]);
      assert ResolveAll(rooted, stack, parts) == ResolveAll(rooted, next, parts[1..]);
    }
  }

  // ---------- paths below a directory ----------

  /** What has once gone back beyond the start stays beyond it. */
  lemma {:induction false} BeyondStays(stack: seq<string>, parts: seq<string>)
    requires stack != [] && stack[0] == ".."
    ensures var r := ResolveAll(false, stack, parts); r != [] && r[0] == ".."
    decreases |parts|
  {
    if parts != [] {
      BeyondStays(Resolve(false, stack, parts[0]), parts[1..]);
    }
  }

  /** A path that stays within its own directory does so below any other one. */
  lemma {:induction false} StaysWithin(base: seq<string>, stack: seq<string>, parts: seq<string>)
    requires forall i :: 0 <= i < |stack| ==> stack[i] != ".."
    requires var r := ResolveAll(false, stack, parts); r != [] && r[0] != ".."
    ensures ResolveAll(false, base + stack, parts) == base + ResolveAll(false, stack, parts)
    decreases |parts|
  {
    if parts != [] {
      if stack == [] && parts[0] == ".." {
        BeyondStays([] + [".."], parts[1..]);
      }
      if parts[0] == ".." && stack != [] {
        assert (base + stack)[..|base + stack| - 1] == base + stack[..|stack| - 1];
      } else {
        assert base + stack + [parts[0]] == base + (stack + [parts[0]]);
      }
      StaysWithin(base, Resolve(false, stack, parts[0]), parts[1..]);
    }
  }

  lemma {:induction false} ResolvePlain(stack: seq<string>, parts: seq<string>, more: seq<string>)
    requires forall i :: 0 <= i < |parts| ==> Plain(parts[i])
    ensures ResolveAll(false, stack, parts + more) == ResolveAll(false, stack + parts, more)
    decreases |parts|
  {
    if parts == [] {
      assert parts + more == more && stack + parts == stack;
    } else {
      assert (parts + more)[1..] == parts[1..] + more;
      assert stack + [parts[0]] + parts[1..] == stack + parts;
      ResolvePlain(stack + [parts[0]], parts[1..], more);
    }
  }

  lemma {:induction false} GlueConcat(a: seq<string>, b: seq<string>)
    requires a != [] && b != []
    ensures Glue(a + b) == Glue(a) + "/" + Glue(b)
  {
    if |a| == 1 {
      assert (a + b)[1..] == b;
    } else {
      assert (a + b)[1..] == a[1..] + b;
      GlueConcat(a[1..], b);
    }
  }

  lemma JoinThree(a: string, b: string, c: string)
    requires a != "" && b != "" && c != "" && a[0] != '/'
    ensures Join([a, b, c]) == Clean(a + "/" + (b + "/" + c))
  {
    var all := [a, b, c];
    assert all[1..] == [b, c] && [b, c][1..] == [c] && [c][1..] == [];
    assert NonEmpty([c]) == [c] && NonEmpty([b, c]) == [b, c] && NonEmpty(all) == all;
    assert Glue([b, c]) == b + "/" + c;
  }

  /** The path of a file that does not climb out of its directory, as seen from a directory two levels up. */
  lemma JoinBelow(top: string, name: string, file: string)
    requires Plain(top) && Plain(name) && file != "" && file[0] != '/'
    requires var r := ResolveAll(false, [], Parts(file)); r != [] && r[0] != ".."
    ensures Join([top, name, file]) == top + "/" + name + "/" + Clean(file)
  {
    var base, s, r := [top, name], top + "/" + (name + "/" + file), ResolveAll(false, [], Parts(file));
    JoinThree(top, name, file);
    PartsOfOne(top);
    PartsOfOne(name);
    PartsConcat(top, name + "/" + file);
    PartsConcat(name, file);
    hide Parts, Join;
    assert Parts(s) == base + Parts(file);
    ResolvePlain([], base, Parts(file));
    StaysWithin(base, [], Parts(file));
    hide ResolveAll;
    assert [] + base == base && base + [] == base;
    assert ResolveAll(false, [], Parts(s)) == base + r;
    GlueConcat(base, r);
    assert base[1..] == [name];
    assert Glue(base) == top + "/" + name;
    hide Glue;
    assert Clean(s) == Glue(base + r) && Clean(file) == Glue(r);
  }

  lemma PartsOfThree(a: string, b: string, c: string)
    requires Plain(a) && Plain(b) && Plain(c)
    ensures Parts(a + "/" + b + "/" + c) == [a, b, c]
  {
    PartsOfOne(a);
    PartsOfOne(b);
    PartsOfOne(c);
    PartsConcat(a, b);
    PartsConcat(a + "/" + b, c);
    hide Parts;
    assert [a] + [b] + [c] == [a, b, c];
  }

  /** Plain components are joined as they are. */
  lemma JoinPlain(a: string, b: string, c: string)
    requires Plain(a) && Plain(b) && Plain(c)
    ensures Join([a, b, c]) == a + "/" + b + "/" + c
  {
    PartsOfOne(c);
    assert ResolveAll(false, [], [c]) == [c] by {
      assert [c][1..] == [];
    }
    JoinBelow(a, b, c);
  }

  // ---------- a suffix of the last component ----------

  lemma {:induction false} PartsOfSuffixed(s: string, suffix: string)
    requires '/' !in suffix
    ensures var p := Parts(s);
            Parts(s + suffix) == p[..|p| - 1] + [p[|p| - 1] + suffix]
  {
    var p := Parts(s);
    if s == "" {
      assert s + suffix == suffix;
      PartsOfOne(suffix);
      assert p[..0] + ["" + suffix] == [suffix];
    } else {
      var q := Parts(s[1..]);
      var n := |q| - 1;
      PartsOfSuffixed(s[1..], suffix);
      assert (s + suffix)[0] == s[0] && (s + suffix)[1..] == s[1..] + suffix;
      if s[0] == '/' {
        assert p == [""] + q && p[..|p| - 1] == [""] + q[..n];
        assert [""] + (q[..n] + [q[n] + suffix]) == [""] + q[..n] + [q[n] + suffix];
      } else {
        SuffixedFirst(s[0], q, suffix);
      }
    }
  }

  lemma SuffixedFirst(c: char, q: seq<string>, suffix: string)
    requires q != []
    ensures var n := |q| - 1;
            var r := q[..n] + [q[n] + suffix];
            var p := [[c] + q[0]] + q[1..];
            [[c] + r[0]] + r[1..] == p[..|p| - 1] + [p[|p| - 1] + suffix]
  {
    if |q| == 1 {
      assert [c] + (q[0] + suffix) == [c] + q[0] + suffix;
    }
  }

  lemma {:induction false} ResolveLast(stack: seq<string>, parts: seq<string>, last: string)
    ensures ResolveAll(false, stack, parts + [last]) == Resolve(false, ResolveAll(false, stack, parts), last)
    decreases |parts|
  {
    var all := parts + [last];
    if parts == [] {
      assert all[0] == last && all[1..] == [];
    } else {
      assert all[0] == parts[0] && all[1..] == parts[1..] + [last];
      ResolveLast(Resolve(false, stack, parts[0]), parts[1..], last);
    }
  }

  /** A suffix does not make a path climb out of its directory. */
  lemma SuffixedStaysWithin(file: string, suffix: string)
    requires var r := ResolveAll(false, [], Parts(file)); r != [] && r[0] != ".."
    requires '/' !in suffix && |suffix| > 2
    ensures var r := ResolveAll(false, [], Parts(file + suffix)); r != [] && r[0] != ".."
  {
    hide *;
    var p := Parts(file);
    var init, last := p[..|p| - 1], p[|p| - 1];
    assert p == init + [last];
    PartsOfSuffixed(file, suffix);
    ResolveLast([], init, last);
    ResolveLast([], init, last + suffix);
    SuffixedLast(ResolveAll(false, [], init), last, suffix);
  }

  lemma SuffixedLast(stack: seq<string>, last: string, suffix: string)
    requires |suffix| > 2
    ensures Resolve(false, stack, last + suffix) == stack + [last + suffix] && last + suffix != ".."
    ensures stack != [] && stack[0] == ".." ==> Resolve(false, stack, last)[..1] == [".."]
  {
  }

  // ---------- what cleaning does ----------

  lemma {:induction false} ResolveConcat(rooted: bool, stack: seq<string>, a: seq<string>, b: seq<string>)
    ensures ResolveAll(rooted, stack, a + b) == ResolveAll(rooted, ResolveAll(rooted, stack, a), b)
    decreases |a|
  {
    hide Resolve;
    if a == [] {
      assert a + b == b;
    } else {
      assert (a + b)[0] == a[0] && (a + b)[1..] == a[1..] + b;
      ResolveConcat(rooted, Resolve(rooted, stack, a[0]), a[1..], b);
    }
  }

  lemma {:induction false} GlueParts(s: string)
    ensures Glue(Parts(s)) == s
  {
    if s != "" {
      var rest := Parts(s[1..]);
      GlueParts(s[1..]);
      if s[0] == '/' {
        assert ([""] + rest)[1..] == rest;
        assert "" + "/" + s[1..] == s;
      } else {
        var parts := [[s[0]] + rest[0]] + rest[1..];
        assert parts[1..] == rest[1..];
        assert [s[0]] + s[1..] == s;
        if |rest| > 1 {
          assert [s[0]] + rest[0] + "/" + Glue(rest[1..]) == [s[0]] + (rest[0] + "/" + Glue(rest[1..]));
        }
      }
    }
  }

  /** Parts that resolve alike from every stack make paths that clean alike. */
  lemma CleanAlike(a: string, x: string, y: string, b: string)
    requires a != ""
    requires forall stack, rooted :: ResolveAll(rooted, stack, Parts(x)) == ResolveAll(rooted, stack, Parts(y))
    ensures Clean(a + "/" + (x + "/" + b)) == Clean(a + "/" + (y + "/" + b))
  {
    var s, t, rooted := a + "/" + (x + "/" + b), a + "/" + (y + "/" + b), a[0] == '/';
    assert s[0] == a[0] && t[0] == a[0];
    PartsConcat(a, x + "/" + b);
    PartsConcat(x, b);
    PartsConcat(a, y + "/" + b);
    PartsConcat(y, b);
    hide Parts, ResolveAll;
    ResolveConcat(rooted, [], Parts(a), Parts(x) + Parts(b));
    ResolveConcat(rooted, [], Parts(a), Parts(y) + Parts(b));
    ResolveConcat(rooted, ResolveAll(rooted, [], Parts(a)), Parts(x), Parts(b));
    ResolveConcat(rooted, ResolveAll(rooted, [], Parts(a)), Parts(y), Parts(b));
  }

  lemma ResolveOne(rooted: bool, stack: seq<string>, part: string)
    ensures ResolveAll(rooted, stack, [part]) == Resolve(rooted, stack, part)
  {
    hide Resolve;
    assert [part][1..] == [];
  }

  /** A dot, or a directory followed by two dots, counts as little as nothing between two slashes does. */
  lemma CleanIgnores(a: string, x: string, b: string)
    requires a != "" && Plain(x)
    ensures Clean(a + "/" + ("." + "/" + b)) == Clean(a + "/" + ("" + "/" + b))
    ensures Clean(a + "/" + ((x + "/" + "..") + "/" + b)) == Clean(a + "/" + ("" + "/" + b))
  {
    PartsOfOne(".");
    PartsOfOne("..");
    PartsOfOne(x);
    PartsConcat(x, "..");
    hide Parts;
    forall stack, rooted ensures ResolveAll(rooted, stack, Parts(".")) == ResolveAll(rooted, stack, Parts("")) == stack {
      ResolveOne(rooted, stack, ".");
      ResolveOne(rooted, stack, "");
      PartsOfOne("");
    }
    forall stack, rooted ensures ResolveAll(rooted, stack, Parts(x + "/" + "..")) == ResolveAll(rooted, stack, Parts("")) {
      ResolveOne(rooted, stack, x);
      ResolveOne(rooted, stack + [x], "..");
      ResolveConcat(rooted, stack, [x], [".."]);
      assert Resolve(rooted, stack + [x], "..") == stack;
    }
    hide ResolveAll, Resolve, Clean, Plain;
    CleanAlike(a, ".", "", b);
    CleanAlike(a, x + "/" + "..", "", b);
  }

  /** Nothing between two slashes counts for nothing. */
  lemma CleanSlashes(a: string, b: string)
    requires a != ""
    ensures Clean(a + "/" + ("" + "/" + b)) == Clean(a + "/" + b)
  {
    var s, t, rooted := a + "/" + ("" + "/" + b), a + "/" + b, a[0] == '/';
    assert s[0] == a[0] && t[0] == a[0];
    PartsConcat(a, "" + "/" + b);
    PartsConcat("", b);
    PartsConcat(a, b);
    PartsOfOne("");
    hide Parts;
    ResolveConcat(rooted, [], Parts(a), [""] + Parts(b));
    ResolveConcat(rooted, ResolveAll(rooted, [], Parts(a)), [""], Parts(b));
    ResolveConcat(rooted, [], Parts(a), Parts(b));
    ResolveOne(rooted, ResolveAll(rooted, [], Parts(a)), "");
    hide ResolveAll;
  }

  /** A relative path of plain components is clean. */
  lemma CleanPlain(s: string)
    requires s != "" && forall i :: 0 <= i < |Parts(s)| ==> Plain(Parts(s)[i])
    ensures Clean(s) == s
  {
    GlueParts(s);
    ResolvePlain([], Parts(s), []);
    assert Parts(s) + [] == Parts(s) && [] + Parts(s) == Parts(s);
    assert Plain(Parts(s)[0]);
  }
}
