/** The relative path from one directory to another (usr/src/i386at/mkmerge/mkmerge.c): a walk over
    the components that two paths share, which cuts the components out in place. */
module RelativePath {

  // ----- Paths ------------------------------------------------------------------------------------

  /** Where the first slash is, or the length if there is none. */
  function Slash(s: string): (k: nat)
    ensures k <= |s| && '/' !in s[..k] && (k < |s| ==> s[k] == '/')
  {
    if s == "" || s[0] == '/' then 0
    else
      var k := 1 + Slash(s[1..]);
      assert s[..k] == [s[0]] + s[1..][..k - 1];
      k
  }

  lemma {:induction false} SlashOf(a: string, t: string)
    requires '/' !in a && (t == "" || t[0] == '/')
    ensures Slash(a + t) == |a|
  {
    if a == "" {
      assert a + t == t;
    } else {
      assert (a + t)[1..] == a[1..] + t;
      SlashOf(a[1..], t);
    }
  }

  /** The components of a path. */
  function Comps(s: string): (cs: seq<string>)
    ensures cs != []
    decreases |s|
  {
    var k := Slash(s);
    if k == |s| then [s] else [s[..k]] + Comps(s[k + 1..])
  }

  /** Follow components from a directory, given by the names on the way from the root. */
  function Resolve(dir: seq<string>, cs: seq<string>): seq<string>
    decreases |cs|
  {
    if cs == [] then dir
    else if cs[0] == "" || cs[0] == "." then Resolve(dir, cs[1..])
    else if cs[0] == ".." then Resolve(if dir == [] then [] else dir[..|dir| - 1], cs[1..])
    else Resolve(dir + [cs[0]], cs[1..])
  }

  predicate Name(n: string) {
    n != "" && n != "." && n != ".." && '/' !in n && '\0' !in n
  }

  predicate Names(ns: seq<string>) {
    forall i :: 0 <= i < |ns| ==> Name(ns[i])
  }

  function Join(ns: seq<string>): string {
    if ns == [] then "" else if |ns| == 1 then ns[0] else ns[0] + "/" + Join(ns[1..])
  }

  /** The absolute path through the names. */
  function Path(ns: seq<string>): string {
    "/" + Join(ns)
  }

  /** A path is its first component, a slash, and the path of the others. */
  lemma CompsAre(x: string, rest: string)
    requires '/' !in x
    ensures Comps(x) == [x] && Comps(x + "/" + rest) == [x] + Comps(rest)
  {
    var s := x + "/" + rest;
    assert s == x + ("/" + rest) && x + "" == x;
    SlashOf(x, "");
    SlashOf(x, "/" + rest);
    assert s[..|x|] == x && s[|x| + 1..] == rest;
  }

  /** A full stop, or nothing between two slashes, stays in the directory, two full stops go back to where
      the last name was followed, but not beyond the root, and a name goes on. */
  lemma ResolveIs(dir: seq<string>, last: string, n: string, cs: seq<string>)
    requires n != "" && n != "." && n != ".."
    ensures Resolve(dir, []) == dir
    ensures Resolve(dir, ["."] + cs) == Resolve(dir, [""] + cs) == Resolve(dir, cs)
    ensures Resolve(dir + [last], [".."] + cs) == Resolve(dir, cs) && Resolve([], [".."] + cs) == Resolve([], cs)
    ensures Resolve(dir, [n] + cs) == Resolve(dir + [n], cs)
  {
    assert (["."] + cs)[1..] == ([""] + cs)[1..] == ([".."] + cs)[1..] == ([n] + cs)[1..] == cs;
    assert (dir + [last])[..|dir|] == dir;
  }

  // ----- What the walk computes -------------------------------------------------------------------

  /** What is left of the two paths after the components they share; the last component of either
      path is never passed over. */
  function Walk(s: string, t: string): (string, string)
    decreases |s|
  {
    var k := Slash(s);
    if k < |s| && Slash(t) == k < |t| && s[..k] == t[..k] then Walk(s[k + 1..], t[k + 1..]) else (s, t)
  }

  /** How many steps up: one, and one more for every further component. */
  function Ups(s: string): (n: nat)
    ensures n > 0
    decreases |s|
  {
    var k := Slash(s);
    if k + 1 < |s| then 1 + Ups(s[k + 1..]) else 1
  }

  function Dots(n: nat): string {
    if n == 0 then "" else "../" + Dots(n - 1)
  }

  function Relative(s: string, t: string): string {
    Dots(Ups(Walk(s, t).0)) + Walk(s, t).1
  }

  // ----- It leads there ---------------------------------------------------------------------------

  lemma JoinSlash(ns: seq<string>)
    requires Names(ns) && ns != []
    ensures Slash(Join(ns)) == |ns[0]| && Join(ns)[..|ns[0]|] == ns[0]
    ensures |ns| == 1 ==> |Join(ns)| == |ns[0]|
    ensures |ns| > 1 ==> |Join(ns)| > |ns[0]| && Join(ns)[|ns[0]| + 1..] == Join(ns[1..])
  {
    var rest := if |ns| == 1 then "" else "/" + Join(ns[1..]);
    assert Name(ns[0]) && Join(ns) == ns[0] + rest;
    SlashOf(ns[0], rest);
  }

  lemma NamesTail(ns: seq<string>)
    requires Names(ns) && ns != []
    ensures Names(ns[1..]) && Name(ns[0])
  {
  }

  lemma JoinNotEmpty(ns: seq<string>)
    requires Names(ns) && ns != []
    ensures Join(ns) != ""
  {
    JoinSlash(ns);
    assert Name(ns[0]);
  }

  lemma {:induction false} UpsOfJoin(ns: seq<string>)
    requires Names(ns)
    ensures Ups(Join(ns)) == if ns == [] then 1 else |ns|
    decreases |ns|
  {
    if ns != [] {
      hide Join;
      hide Slash;
      JoinSlash(ns);
      NamesTail(ns);
      if |ns| > 1 {
        UpsOfJoin(ns[1..]);
        JoinNotEmpty(ns[1..]);
      }
    }
  }

  lemma {:induction false} CompsOfJoin(ns: seq<string>)
    requires Names(ns)
    ensures Comps(Join(ns)) == if ns == [] then [""] else ns
    decreases |ns|
  {
    if ns != [] {
      hide Join;
      hide Slash;
      JoinSlash(ns);
      NamesTail(ns);
      if |ns| > 1 {
        CompsOfJoin(ns[1..]);
      }
      assert ns == [ns[0]] + ns[1..];
    }
  }

  lemma CompsUp(s: string)
    ensures Comps("../" + s) == [".."] + Comps(s)
  {
    SlashOf("..", "/" + s);
    assert "../" + s == ".." + ("/" + s);
    assert ("../" + s)[..2] == ".." && ("../" + s)[3..] == s;
  }

  lemma {:induction false} ResolveNames(dir: seq<string>, ns: seq<string>)
    requires Names(ns)
    ensures Resolve(dir, ns) == dir + ns
    decreases |ns|
  {
    if ns != [] {
      NamesTail(ns);
      ResolveNames(dir + [ns[0]], ns[1..]);
      assert dir + ns == dir + [ns[0]] + ns[1..];
    }
  }

  /** Going up n times and then down. */
  lemma {:induction false} ResolveDots(dir: seq<string>, n: nat, ns: seq<string>)
    requires Names(ns)
    ensures Resolve(dir, Comps(Dots(n) + Join(ns))) == dir[..if n <= |dir| then |dir| - n else 0] + ns
    decreases n
  {
    hide Resolve;
    hide Comps;
    hide Names;
    hide Join;
    if n == 0 {
      assert Dots(0) + Join(ns) == Join(ns) && dir[..|dir|] == dir;
      ResolveDown(dir, ns);
    } else {
      var s := Dots(n - 1) + Join(ns);
      assert Dots(n) + Join(ns) == "../" + s;
      hide *;
      ResolveUp(dir, s);
      var up := if dir == [] then [] else dir[..|dir| - 1];
      ResolveDots(up, n - 1, ns);
      UpThenMore(dir, n);
    }
  }

  lemma UpThenMore(dir: seq<string>, n: nat)
    requires n > 0
    ensures var up := if dir == [] then [] else dir[..|dir| - 1];
      up[..if n - 1 <= |up| then |up| - (n - 1) else 0] == dir[..if n <= |dir| then |dir| - n else 0]
  {
  }

  lemma ResolveDown(dir: seq<string>, ns: seq<string>)
    requires Names(ns)
    ensures Resolve(dir, Comps(Join(ns))) == dir + ns
  {
    CompsOfJoin(ns);
    if ns == [] {
      assert Resolve(dir, [""]) == Resolve(dir, [""][1..]);
    } else {
      ResolveNames(dir, ns);
    }
  }

  lemma ResolveUp(dir: seq<string>, s: string)
    ensures Resolve(dir, Comps("../" + s)) == Resolve(if dir == [] then [] else dir[..|dir| - 1], Comps(s))
  {
    CompsUp(s);
    hide Comps;
    assert ([".."] + Comps(s))[1..] == Comps(s);
  }

  lemma WalkNames(a: seq<string>, b: seq<string>)
    requires Names(a) && Names(b)
    ensures Walk(Join(a), Join(b)) ==
            if |a| > 1 && |b| > 1 && a[0] == b[0] then Walk(Join(a[1..]), Join(b[1..])) else (Join(a), Join(b))
  {
    hide Join;
    hide Slash;
    JoinNothing();
    if a != [] {
      JoinSlash(a);
    }
    if b != [] {
      JoinSlash(b);
    }
  }

  lemma JoinNothing()
    ensures Join([]) == "" && Slash("") == 0
  {
  }

  lemma {:induction false} LeadsFrom(base: seq<string>, a: seq<string>, b: seq<string>)
    requires Names(a) && Names(b) && (a == [] ==> base == [])
    ensures Resolve(base + a, Comps(Relative(Join(a), Join(b)))) == base + b
    decreases |a|
  {
    hide Resolve;
    hide Comps;
    hide Walk;
    WalkNames(a, b);
    if |a| > 1 && |b| > 1 && a[0] == b[0] {
      NamesTail(a);
      NamesTail(b);
      LeadsFrom(base + [a[0]], a[1..], b[1..]);
      assert base + [a[0]] + a[1..] == base + a && base + [a[0]] + b[1..] == base + b;
    } else {
      UpsOfJoin(a);
      ResolveDots(base + a, Ups(Join(a)), b);
      assert (base + a)[..|base|] == base;
    }
  }

  lemma PastRoot(x: string, y: string)
    ensures Walk("/" + x, "/" + y) == Walk(x, y)
  {
    var s, t := "/" + x, "/" + y;
    assert Slash(s) == 0 == Slash(t) && s[1..] == x && t[1..] == y && s[..0] == t[..0];
  }

  /** From directory `a` the relative path leads to `b`: for any two absolute paths of proper names,
      also if one is the beginning of the other, if they are equal, and if either is the root. */
  lemma LeadsThere(a: seq<string>, b: seq<string>)
    requires Names(a) && Names(b)
    ensures Resolve(a, Comps(Relative(Path(a), Path(b)))) == b
  {
    hide Resolve;
    hide Comps;
    hide Walk;
    PastRoot(Join(a), Join(b));
    LeadsFrom([], a, b);
    assert [] + a == a && [] + b == b;
  }

  /** The names with a slash behind each. */
  function Slashed(ns: seq<string>): string {
    if ns == [] then "" else Join(ns) + "/"
  }

  lemma SlashedSteps(ns: seq<string>)
    requires Names(ns) && ns != []
    ensures Slash(Slashed(ns)) == |ns[0]| < |Slashed(ns)| && Slashed(ns)[..|ns[0]|] == ns[0]
    ensures Slashed(ns)[|ns[0]| + 1..] == Slashed(ns[1..])
  {
    assert Name(ns[0]);
    SlashedCons(ns);
    hide *;
    CutSlash(ns[0], Slashed(ns[1..]));
  }

  lemma SlashedCons(ns: seq<string>)
    requires ns != []
    ensures Slashed(ns) == ns[0] + ("/" + Slashed(ns[1..]))
  {
  }

  lemma CutSlash(x: string, y: string)
    requires '/' !in x
    ensures var s := x + ("/" + y); Slash(s) == |x| < |s| && s[..|x|] == x && s[|x| + 1..] == y
  {
    SlashOf(x, "/" + y);
  }

  lemma {:induction false} UpsOfSlashed(ns: seq<string>)
    requires Names(ns)
    ensures Ups(Slashed(ns)) == if ns == [] then 1 else |ns|
    decreases |ns|
  {
    hide *;
    UpsStep(Slashed(ns));
    SlashedEmpty(ns);
    if ns == [] {
      NoSlash();
    } else {
      SlashedSteps(ns);
      NamesTail(ns);
      UpsOfSlashed(ns[1..]);
      SlashedEmpty(ns[1..]);
    }
  }

  lemma UpsStep(s: string)
    ensures var k := Slash(s); Ups(s) == if k + 1 < |s| then 1 + Ups(s[k + 1..]) else 1
  {
    hide Slash;
  }

  lemma NoSlash()
    ensures Slash("") == 0
  {
  }

  lemma SlashedEmpty(ns: seq<string>)
    ensures Slashed(ns) == "" <==> ns == []
  {
  }

  lemma WalkSlashed(a: seq<string>, b: seq<string>)
    requires Names(a) && Names(b)
    ensures Walk(Slashed(a), Join(b)) ==
            if a != [] && |b| > 1 && a[0] == b[0] then Walk(Slashed(a[1..]), Join(b[1..]))
            else (Slashed(a), Join(b))
  {
    hide Join;
    hide Slashed;
    hide Slash;
    JoinNothing();
    SlashedEmpty(a);
    if a != [] {
      SlashedSteps(a);
    }
    if b != [] {
      JoinSlash(b);
    }
  }

  /** Nothing more is passed over: up all that is left of the one path, and down what is left of the other. */
  lemma SlashedEnd(base: seq<string>, a: seq<string>, b: seq<string>)
    requires Names(a) && Names(b) && (a == [] ==> base != [] && b != [])
    requires !(a != [] && |b| > 1 && a[0] == b[0])
    ensures Resolve(base + a, Comps(Relative(Slashed(a), Join(b)))) == base + b <==> !(a <= b && |a| < |b|)
  {
    hide *;
    WalkSlashed(a, b);
    UpsOfSlashed(a);
    ResolveDots(base + a, Ups(Slashed(a)), b);
    RelativeIs(Slashed(a), Join(b));
    UpAll(base, a, b);
  }

  lemma RelativeIs(s: string, t: string)
    requires Walk(s, t) == (s, t)
    ensures Relative(s, t) == Dots(Ups(s)) + t
  {
  }

  lemma UpAll(base: seq<string>, a: seq<string>, b: seq<string>)
    requires a == [] ==> base != [] && b != []
    requires !(a != [] && |b| > 1 && a[0] == b[0])
    ensures var dir, n := base + a, if a == [] then 1 else |a|;
      dir[..if n <= |dir| then |dir| - n else 0] + b == base + b <==> !(a <= b && |a| < |b|)
  {
    if a == [] {
      assert base + a == base && |base[..|base| - 1] + b| == |base + b| - 1;
    } else {
      assert (base + a)[..|base|] == base;
    }
  }

  /** One name that both share is passed over. */
  lemma SlashedShared(a: seq<string>, b: seq<string>)
    requires Names(a) && Names(b) && a != [] && |b| > 1 && a[0] == b[0]
    ensures Relative(Slashed(a), Join(b)) == Relative(Slashed(a[1..]), Join(b[1..]))
  {
    hide Walk;
    hide Slashed;
    hide Join;
    hide Dots;
    hide Ups;
    hide Names;
    WalkSlashed(a, b);
  }

  lemma OneName(base: seq<string>, a: seq<string>)
    requires a != []
    ensures base + [a[0]] + a[1..] == base + a
  {
    assert a == [a[0]] + a[1..];
  }

  lemma BothGoOn(a: seq<string>, b: seq<string>)
    requires a != [] && b != [] && a[0] == b[0]
    ensures a <= b && |a| < |b| <==> a[1..] <= b[1..] && |a[1..]| < |b[1..]|
  {
    assert a == [a[0]] + a[1..] && b == [b[0]] + b[1..];
  }

  lemma {:induction false} SlashedFrom(base: seq<string>, a: seq<string>, b: seq<string>)
    requires Names(a) && Names(b) && (a == [] ==> base != [] && b != [])
    ensures Resolve(base + a, Comps(Relative(Slashed(a), Join(b)))) == base + b <==> !(a <= b && |a| < |b|)
    decreases |a|
  {
    hide *;
    if a != [] && |b| > 1 && a[0] == b[0] {
      NamesTail(a);
      NamesTail(b);
      SlashedFrom(base + [a[0]], a[1..], b[1..]);
      SlashedShared(a, b);
      OneName(base, a);
      OneName(base, b);
      BothGoOn(a, b);
    } else {
      SlashedEnd(base, a, b);
    }
  }

  /** With a slash at the end of the first path it leads elsewhere exactly when the second path goes on
      from the first: from /a/ to /a/b it is ../b. */
  lemma TrailingSlash(a: seq<string>, b: seq<string>)
    requires Names(a) && Names(b) && a != []
    ensures Resolve(a, Comps(Relative(Path(a) + "/", Path(b)))) == b <==> !(a <= b && |a| < |b|)
  {
    hide Resolve;
    hide Comps;
    hide Walk;
    hide Join;
    PastRoot(Slashed(a), Join(b));
    assert Path(a) + "/" == "/" + Slashed(a);
    hide Slashed;
    SlashedFrom([], a, b);
    assert [] + a == a && [] + b == b;
  }

  // ----- The program ------------------------------------------------------------------------------

  /** The buffer holds the string and a terminator. */
  ghost predicate Holds(buf: array<char>, s: string)
    reads buf
  {
    |s| < buf.Length && '\0' !in s && buf[|s|] == '\0' && forall i :: 0 <= i < |s| ==> buf[i] == s[i]
  }

  /** The next slash at or after position p, or -1. */
  method Strchr(buf: array<char>, p: nat, ghost s: string) returns (i: int)
    requires Holds(buf, s) && p <= |s|
    ensures i == if Slash(s[p..]) < |s| - p then p + Slash(s[p..]) else -1
  {
    i := p;
    while buf[i] != '\0' && buf[i] != '/'
      invariant p <= i <= |s| && '/' !in s[p..i]
      decreases |s| - i
    {
      assert buf[i] == s[i] && s[p..i + 1] == s[p..i] + [s[i]];
      i := i + 1;
    }
    assert s[p..] == s[p..i] + s[i..];
    SlashOf(s[p..i], s[i..]);
    if buf[i] == '\0' {
      i := -1;
    }
  }

  /** From position p on, up to a terminator, the buffer holds x. */
  ghost predicate HoldsAt(buf: array<char>, p: nat, x: string)
    reads buf
  {
    && p + |x| < buf.Length && buf[p + |x|] == '\0' && '\0' !in x
    && forall i {:trigger x[i]} :: 0 <= i < |x| ==> buf[p + i] == x[i]
  }

  /** Are the strings from p1 and from p2 the same? */
  method Strcmp(b1: array<char>, p1: nat, b2: array<char>, p2: nat, ghost x: string, ghost y: string)
    returns (same: bool)
    requires HoldsAt(b1, p1, x) && HoldsAt(b2, p2, y)
    ensures same <==> x == y
  {
    var k := 0;
    while b1[p1 + k] == b2[p2 + k]
      invariant 0 <= k <= |x| && k <= |y| && x[..k] == y[..k]
      decreases |x| - k
    {
      assert k < |x| ==> b1[p1 + k] == x[k];
      assert k < |y| ==> b2[p2 + k] == y[k];
      if b1[p1 + k] == '\0' {
        assert x[..k] == x && y[..k] == y;
        return true;
      }
      k := k + 1;
    }
    assert k < |x| ==> b1[p1 + k] == x[k];
    assert k < |y| ==> b2[p2 + k] == y[k];
    same := false;
  }

  /** Compare two components by putting a terminator in place of the slash behind each for a while. */
  method SameComponent(b1: array<char>, p1: nat, e1: nat, b2: array<char>, p2: nat, e2: nat,
                       ghost s: string, ghost t: string)
    returns (same: bool)
    requires Holds(b1, s) && Holds(b2, t)
    requires p1 <= e1 < |s| && s[e1] == '/' && p2 <= e2 < |t| && t[e2] == '/'
    requires b1 == b2 ==> p1 == p2 && e1 == e2
    modifies b1, b2
    ensures b1[..] == old(b1[..]) && b2[..] == old(b2[..])
    ensures Holds(b1, s) && Holds(b2, t)
    ensures same <==> s[p1..e1] == t[p2..e2]
  {
    b1[e1] := '\0';
    b2[e2] := '\0';
    same := Strcmp(b1, p1, b2, p2, s[p1..e1], t[p2..e2]);
    b1[e1] := '/';
    b2[e2] := '/';
  }

  lemma Within(s: string, p: nat, i: nat, j: nat)
    requires p <= |s| && i <= j <= |s| - p
    ensures s[p..][i..j] == s[p + i..p + j] && s[p..][j..] == s[p + j..] && s[p..][..j] == s[p..p + j]
  {
  }

  lemma WalkAt(s: string, p: nat, t: string, q: nat)
    requires p <= |s| && q <= |t|
    ensures var k, l := Slash(s[p..]), Slash(t[q..]);
      Walk(s[p..], t[q..]) ==
      if k < |s| - p && l < |t| - q && k == l && s[p..p + k] == t[q..q + k] then Walk(s[p + k + 1..], t[q + k + 1..])
      else (s[p..], t[q..])
  {
    hide *;
    var u, v := s[p..], t[q..];
    WalkStep(u, v);
    var k := Slash(u);
    if k < |u| && k < |v| {
      Cut(s, p, k);
      Cut(t, q, k);
    }
  }

  lemma WalkStep(u: string, v: string)
    ensures var k, l := Slash(u), Slash(v);
      Walk(u, v) == if k < |u| && l < |v| && k == l && u[..k] == v[..k] then Walk(u[k + 1..], v[k + 1..]) else (u, v)
  {
    hide Slash;
  }

  lemma Cut(s: string, p: nat, k: nat)
    requires p + k < |s|
    ensures s[p..][..k] == s[p..p + k] && s[p..][k + 1..] == s[p + k + 1..]
  {
  }

  lemma UpsAt(s: string, p: nat)
    requires p <= |s|
    ensures var k := Slash(s[p..]);
      Ups(s[p..]) == if p + k + 1 < |s| then 1 + Ups(s[p + k + 1..]) else 1
  {
    hide Slash;
    var k := Slash(s[p..]);
    if p + k + 1 < |s| {
      Within(s, p, 0, k + 1);
    }
  }

  lemma {:induction false} DotsMore(n: nat)
    ensures Dots(n) + "../" == Dots(n + 1)
  {
    if n > 0 {
      DotsMore(n - 1);
      assert Dots(n) + "../" == "../" + (Dots(n - 1) + "../");
    } else {
      assert Dots(0) + "../" == "../" && Dots(1) == "../" + Dots(0);
    }
  }

  lemma DotsNone()
    ensures Dots(0) == ""
  {
  }

  /** The string from position p on. */
  method Copy(buf: array<char>, p: nat, ghost s: string) returns (r: string)
    requires Holds(buf, s) && p <= |s|
    ensures r == s[p..]
  {
    r := "";
    var i := p;
    while buf[i] != '\0'
      invariant p <= i <= |s| && r == s[p..i]
      decreases |s| - i
    {
      r := r + [buf[i]];
      i := i + 1;
    }
  }

  /** Pass over the components that both paths share. */
  method Shared(path1: array<char>, path2: array<char>, ghost s: string, ghost t: string)
    returns (p1: nat, p2: nat)
    requires Holds(path1, s) && Holds(path2, t) && (path1 == path2 ==> s == t)
    modifies path1, path2
    ensures path1[..] == old(path1[..]) && path2[..] == old(path2[..])
    ensures Holds(path1, s) && Holds(path2, t)
    ensures p1 <= |s| && p2 <= |t| && Walk(s, t) == (s[p1..], t[p2..])
  {
    hide Walk;
    hide Slash;
    p1, p2 := 0, 0;
    assert s[0..] == s && t[0..] == t;
    while true
      invariant 0 <= p1 == p2 && p1 <= |s| && p2 <= |t| && Walk(s[p1..], t[p2..]) == Walk(s, t)
      invariant path1[..] == old(path1[..]) && path2[..] == old(path2[..])
      invariant Holds(path1, s) && Holds(path2, t)
      decreases |s| - p1
    {
      WalkAt(s, p1, t, p2);
      var np1 := Strchr(path1, p1, s);
      if np1 == -1 {
        return;
      }
      var np2 := Strchr(path2, p2, t);
      if np2 == -1 || np1 != np2 {
        return;
      }
      SlashHere(s, p1);
      SlashHere(t, p2);
      var same := SameComponent(path1, p1, np1, path2, p2, np2, s, t);
      if !same {
        return;
      }
      p1, p2 := np1 + 1, np2 + 1;
    }
  }

  lemma SlashHere(s: string, p: nat)
    requires p <= |s|
    ensures Slash(s[p..]) < |s| - p ==> s[p + Slash(s[p..])] == '/'
  {
  }

  /** One step up, and one more for every further component. */
  method StepsUp(path1: array<char>, p: nat, ghost s: string) returns (rel: string)
    requires Holds(path1, s) && p <= |s|
    ensures rel == Dots(Ups(s[p..]))
  {
    hide Ups;
    hide Slash;
    hide Dots;
    ghost var n := 0;
    var p1 := p;
    rel := "";
    DotsNone();
    while true
      invariant p <= p1 <= |s| && rel == Dots(n) && n + Ups(s[p1..]) == Ups(s[p..])
      decreases |s| - p1
    {
      DotsMore(n);
      UpsAt(s, p1);
      rel := rel + "../";
      n := n + 1;
      var q := Strchr(path1, p1, s);
      if q == -1 || path1[q + 1] == '\0' {
        break;
      }
      p1 := q + 1;
    }
  }

  /** The whole function; both buffers are as before. */
  method Compute(path1: array<char>, path2: array<char>, ghost s: string, ghost t: string) returns (rel: string)
    requires Holds(path1, s) && Holds(path2, t) && (path1 == path2 ==> s == t)
    modifies path1, path2
    ensures path1[..] == old(path1[..]) && path2[..] == old(path2[..])
    ensures rel == Relative(s, t)
  {
    hide Walk;
    hide Ups;
    hide Slash;
    hide Dots;
    var p1, p2 := Shared(path1, path2, s, t);
    rel := StepsUp(path1, p1, s);
    var rest := Copy(path2, p2, t);
    rel := rel + rest;
  }
}
