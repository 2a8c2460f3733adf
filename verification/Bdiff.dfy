/** bdiff (usr/src/common/cmd/bdiff/bdiff.c): cut two files into segments, run diff on each pair, and
    renumber the outputs so that together they are one edit script for the whole files. */
module Bdiff {
  import opened Decimal
  import opened Remainder

  type Line = string

  // ----- Edit scripts ---------------------------------------------------------------------------

  /** A line number or a range of them, as a hunk header prints it. */
  datatype Range = One(n: nat) | Span(lo: nat, hi: nat) {
    function Lo(): nat {
      if One? then n else lo
    }

    function Hi(): nat {
      if One? then n else hi
    }

    function Shift(k: nat): Range {
      if One? then One(n + k) else Span(lo + k, hi + k)
    }

    function Text(): string {
      if One? then Dec(n) else Dec(lo) + "," + Dec(hi)
    }
  }

  datatype Kind = Add | Change | Delete {
    function Letter(): char {
      match this
      case Add => 'a'
      case Change => 'c'
      case Delete => 'd'
    }
  }

  /** One hunk: lines `gone` of the old file are replaced by lines `come` of the new one. */
  datatype Hunk = Hunk(kind: Kind, olds: Range, news: Range, gone: seq<Line>, come: seq<Line>) {
    /** The lines the hunk replaces are old[OldFrom..OldTo]; an addition names the line before. */
    function OldFrom(): int {
      if kind.Add? then olds.Lo() else olds.Lo() - 1
    }

    function OldTo(): nat {
      olds.Hi()
    }

    function NewFrom(): int {
      if kind.Delete? then news.Lo() else news.Lo() - 1
    }

    function NewTo(): nat {
      news.Hi()
    }

    function Shift(a: nat, b: nat): Hunk {
      Hunk(kind, olds.Shift(a), news.Shift(b), gone, come)
    }

    function Header(): string {
      olds.Text() + [kind.Letter()] + news.Text() + "\n"
    }

    predicate Formed() {
      && (kind.Add? ==> olds.One?)
      && (kind.Delete? ==> news.One?)
    }
  }

  /** The hunk is the first difference between a[i..] and b[j..]. */
  predicate Here(h: Hunk, a: seq<Line>, b: seq<Line>, i: nat, j: nat) {
    && h.Formed()
    && i <= h.OldFrom() <= h.OldTo() <= |a|
    && j <= h.NewFrom() <= h.NewTo() <= |b|
    && a[i..h.OldFrom()] == b[j..h.NewFrom()]
    && a[h.OldFrom()..h.OldTo()] == h.gone
    && b[h.NewFrom()..h.NewTo()] == h.come
  }

  /** A correct script from a[i..] to b[j..]: every hunk names, in both files, exactly the lines it
      removes and inserts, and between hunks the files agree. */
  predicate Script(a: seq<Line>, b: seq<Line>, hs: seq<Hunk>, i: nat, j: nat)
    requires i <= |a| && j <= |b|
    decreases |hs|
  {
    if hs == [] then a[i..] == b[j..]
    else Here(hs[0], a, b, i, j) && Script(a, b, hs[1..], hs[0].OldTo(), hs[0].NewTo())
  }

  predicate IsScript(a: seq<Line>, b: seq<Line>, hs: seq<Hunk>) {
    Script(a, b, hs, 0, 0)
  }

  /** The old file with the hunks applied, from line i on. */
  function Patch(a: seq<Line>, hs: seq<Hunk>, i: nat): seq<Line>
    requires i <= |a|
    decreases |hs|
  {
    if hs == [] then a[i..]
    else if i <= hs[0].OldFrom() <= hs[0].OldTo() <= |a| then
      a[i..hs[0].OldFrom()] + hs[0].come + Patch(a, hs[1..], hs[0].OldTo())
    else a[i..]
  }

  /** A correct script turns the old file into the new one. */
  lemma {:induction false} ScriptPatches(a: seq<Line>, b: seq<Line>, hs: seq<Hunk>, i: nat, j: nat)
    requires i <= |a| && j <= |b| && Script(a, b, hs, i, j)
    ensures Patch(a, hs, i) == b[j..]
    decreases |hs|
  {
    if hs != [] {
      var h := hs[0];
      ScriptPatches(a, b, hs[1..], h.OldTo(), h.NewTo());
      assert b[j..] == b[j..h.NewFrom()] + b[h.NewFrom()..h.NewTo()] + b[h.NewTo()..];
    }
  }

  function ShiftAll(hs: seq<Hunk>, a: nat, b: nat): (r: seq<Hunk>)
    ensures |r| == |hs|
  {
    if hs == [] then [] else [hs[0].Shift(a, b)] + ShiftAll(hs[1..], a, b)
  }

  lemma {:induction false} ShiftConcat(h1: seq<Hunk>, h2: seq<Hunk>, a: nat, b: nat)
    ensures ShiftAll(h1 + h2, a, b) == ShiftAll(h1, a, b) + ShiftAll(h2, a, b)
  {
    if h1 == [] {
      assert h1 + h2 == h2;
    } else {
      assert (h1 + h2)[1..] == h1[1..] + h2;
      ShiftConcat(h1[1..], h2, a, b);
    }
  }

  lemma {:induction false} ShiftTwice(hs: seq<Hunk>, a: nat, b: nat)
    ensures ShiftAll(ShiftAll(hs, a, a), b, b) == ShiftAll(hs, a + b, a + b)
  {
    if hs != [] {
      assert ShiftAll(hs, a, a)[1..] == ShiftAll(hs[1..], a, a);
      ShiftTwice(hs[1..], a, b);
    }
  }

  lemma SliceAfter(p: seq<Line>, s: seq<Line>, i: nat, j: nat)
    requires i <= j <= |s|
    ensures (p + s)[|p| + i..|p| + j] == s[i..j]
  {
  }

  lemma DropAfter(p: seq<Line>, s: seq<Line>, i: nat)
    requires i <= |s|
    ensures (p + s)[|p| + i..] == s[i..]
  {
  }

  lemma HereAfter(p: seq<Line>, q: seq<Line>, h: Hunk, a: seq<Line>, b: seq<Line>, i: nat, j: nat)
    requires Here(h, a, b, i, j)
    ensures h.OldTo() <= |a| && h.NewTo() <= |b|
    ensures Here(h.Shift(|p|, |q|), p + a, q + b, |p| + i, |q| + j)
    ensures h.Shift(|p|, |q|).OldTo() == |p| + h.OldTo() && h.Shift(|p|, |q|).NewTo() == |q| + h.NewTo()
  {
    SliceAfter(p, a, i, h.OldFrom());
    SliceAfter(q, b, j, h.NewFrom());
    SliceAfter(p, a, h.OldFrom(), h.OldTo());
    SliceAfter(q, b, h.NewFrom(), h.NewTo());
  }

  lemma HereBefore(h: Hunk, a: seq<Line>, b: seq<Line>, i: nat, j: nat, a2: seq<Line>, b2: seq<Line>)
    requires Here(h, a, b, i, j)
    ensures Here(h, a + a2, b + b2, i, j) && h.OldTo() <= |a| && h.NewTo() <= |b|
  {
    SliceBefore(a, a2, i, h.OldFrom());
    SliceBefore(b, b2, j, h.NewFrom());
    SliceBefore(a, a2, h.OldFrom(), h.OldTo());
    SliceBefore(b, b2, h.NewFrom(), h.NewTo());
  }

  lemma SliceBefore(s: seq<Line>, p: seq<Line>, i: nat, j: nat)
    requires i <= j <= |s|
    ensures (s + p)[i..j] == s[i..j]
  {
  }

  /** Lines put before both files move the numbers of a script. */
  lemma {:induction false} ScriptAfter(p: seq<Line>, q: seq<Line>, a: seq<Line>, b: seq<Line>, hs: seq<Hunk>,
                                       i: nat, j: nat)
    requires i <= |a| && j <= |b| && Script(a, b, hs, i, j)
    ensures Script(p + a, q + b, ShiftAll(hs, |p|, |q|), |p| + i, |q| + j)
    decreases |hs|
  {
    if hs == [] {
      DropAfter(p, a, i);
      DropAfter(q, b, j);
    } else {
      hide Here;
      var h := hs[0];
      HereAfter(p, q, h, a, b, i, j);
      ScriptAfter(p, q, a, b, hs[1..], h.OldTo(), h.NewTo());
      assert ShiftAll(hs, |p|, |q|)[1..] == ShiftAll(hs[1..], |p|, |q|);
    }
  }

  /** Agreeing lines just before a script may be taken into it. */
  lemma ScriptEarlier(a: seq<Line>, b: seq<Line>, hs: seq<Hunk>, i: nat, j: nat, i0: nat, j0: nat)
    requires i0 <= i <= |a| && j0 <= j <= |b| && a[i0..i] == b[j0..j] && Script(a, b, hs, i, j)
    ensures Script(a, b, hs, i0, j0)
  {
    if hs == [] {
      assert a[i0..] == a[i0..i] + a[i..] && b[j0..] == b[j0..j] + b[j..];
    } else {
      var f, t := hs[0].OldFrom(), hs[0].NewFrom();
      assert a[i0..f] == a[i0..i] + a[i..f] && b[j0..t] == b[j0..j] + b[j..t];
    }
  }

  /** Where the first parts agree to their ends the second script goes on. */
  lemma ConcatRest(a: seq<Line>, b: seq<Line>, i: nat, j: nat, a2: seq<Line>, b2: seq<Line>, h2: seq<Hunk>)
    requires i <= |a| && j <= |b| && a[i..] == b[j..] && IsScript(a2, b2, h2)
    ensures Script(a + a2, b + b2, ShiftAll(h2, |a|, |b|), i, j)
  {
    ScriptAfter(a, b, a2, b2, h2, 0, 0);
    hide Script;
    SliceBefore(a, a2, i, |a|);
    SliceBefore(b, b2, j, |b|);
    ScriptEarlier(a + a2, b + b2, ShiftAll(h2, |a|, |b|), |a|, |b|, i, j);
  }

  /** Scripts of consecutive parts of two files make a script of the whole, if the second one's old
      numbers move by the old length and its new numbers by the new length. */
  lemma {:induction false} ScriptConcat(a: seq<Line>, b: seq<Line>, hs: seq<Hunk>, i: nat, j: nat,
                                        a2: seq<Line>, b2: seq<Line>, h2: seq<Hunk>)
    requires i <= |a| && j <= |b| && Script(a, b, hs, i, j) && IsScript(a2, b2, h2)
    ensures Script(a + a2, b + b2, hs + ShiftAll(h2, |a|, |b|), i, j)
    decreases |hs|
  {
    var moved := ShiftAll(h2, |a|, |b|);
    if hs == [] {
      ConcatRest(a, b, i, j, a2, b2, h2);
      assert hs + moved == moved;
    } else {
      hide Here;
      hide IsScript;
      hide ShiftAll;
      var h := hs[0];
      HereBefore(h, a, b, i, j, a2, b2);
      ScriptConcat(a, b, hs[1..], h.OldTo(), h.NewTo(), a2, b2, h2);
      assert (hs + moved)[1..] == hs[1..] + moved;
    }
  }

  /** No correct script names lines past the end of either file. */
  lemma {:induction false} ScriptInRange(a: seq<Line>, b: seq<Line>, hs: seq<Hunk>, i: nat, j: nat, k: nat)
    requires i <= |a| && j <= |b| && Script(a, b, hs, i, j) && k < |hs|
    ensures hs[k].OldTo() <= |a| && hs[k].NewTo() <= |b|
    decreases |hs|
  {
    if k > 0 {
      ScriptInRange(a, b, hs[1..], hs[0].OldTo(), hs[0].NewTo(), k - 1);
    }
  }

  // ----- The script bdiff makes -------------------------------------------------------------------

  type Diff = (seq<Line>, seq<Line>) -> seq<Hunk>

  /** diff itself is right about every pair of files. */
  ghost predicate DiffOk(diff: Diff) {
    forall a, b :: IsScript(a, b, diff(a, b))
  }

  function Front(s: seq<Line>, n: nat): seq<Line> {
    if |s| <= n then s else s[..n]
  }

  function Past(s: seq<Line>, n: nat): seq<Line> {
    if |s| <= n then [] else s[n..]
  }

  function AddRest(ln: nat, b: seq<Line>): Hunk {
    Hunk(Add, One(ln), Span(ln + 1, ln + |b|), [], b)
  }

  function DeleteRest(ln: nat, a: seq<Line>): Hunk {
    Hunk(Delete, Span(ln + 1, ln + |a|), One(ln), a, [])
  }

  /** The hunks for what is left of the files when linenum is ln: a segment pair at a time. */
  function Segments(a: seq<Line>, b: seq<Line>, ln: nat, seglim: nat, diff: Diff): seq<Hunk>
    requires seglim > 0
    decreases |a|
  {
    if a == [] then (if b == [] then [] else [AddRest(ln, b)])
    else if b == [] then [DeleteRest(ln, a)]
    else
      ShiftAll(diff(Front(a, seglim), Front(b, seglim)), ln, ln) +
      Segments(Past(a, seglim), Past(b, seglim), ln + seglim, seglim, diff)
  }

  /** Lines common to both beginnings are passed over first. */
  function Whole(a: seq<Line>, b: seq<Line>, ln: nat, seglim: nat, diff: Diff): seq<Hunk>
    requires seglim > 0
    decreases |a|
  {
    if a != [] && b != [] && a[0] == b[0] then Whole(a[1..], b[1..], ln + 1, seglim, diff)
    else Segments(a, b, ln, seglim, diff)
  }

  /** How many lines the two beginnings have in common. */
  function Common(a: seq<Line>, b: seq<Line>): (p: nat)
    ensures p <= |a| && p <= |b|
  {
    if a != [] && b != [] && a[0] == b[0] then 1 + Common(a[1..], b[1..]) else 0
  }

  lemma {:induction false} CommonSame(a: seq<Line>, b: seq<Line>)
    ensures a[..Common(a, b)] == b[..Common(a, b)]
    decreases |a|
  {
    if a != [] && b != [] && a[0] == b[0] {
      CommonSame(a[1..], b[1..]);
      var p := Common(a, b);
      assert a[..p] == [a[0]] + a[1..][..p - 1] && b[..p] == [b[0]] + b[1..][..p - 1];
    }
  }

  /** Of files with m and n lines left, none ends strictly inside a segment while the other goes on
      past that segment. */
  predicate Aligned(m: nat, n: nat, seglim: nat)
    requires seglim > 0
  {
    if m == 0 || n == 0 then true
    else if m < seglim then n <= seglim
    else if n < seglim then m <= seglim
    else Aligned(m - seglim, n - seglim, seglim)
  }

  lemma {:induction false} Renumber(a: seq<Line>, b: seq<Line>, ln: nat, seglim: nat, diff: Diff)
    requires seglim > 0
    ensures Segments(a, b, ln, seglim, diff) == ShiftAll(Segments(a, b, 0, seglim, diff), ln, ln)
    decreases |a|
  {
    if a != [] && b != [] {
      var a2, b2 := Past(a, seglim), Past(b, seglim);
      var hs := diff(Front(a, seglim), Front(b, seglim));
      Renumber(a2, b2, ln + seglim, seglim, diff);
      Renumber(a2, b2, seglim, seglim, diff);
      ShiftTwice(hs, 0, ln);
      ShiftNone(hs);
      ShiftTwice(Segments(a2, b2, 0, seglim, diff), seglim, ln);
      ShiftConcat(hs, Segments(a2, b2, seglim, seglim, diff), ln, ln);
    }
  }

  lemma {:induction false} ShiftNone(hs: seq<Hunk>)
    ensures ShiftAll(hs, 0, 0) == hs
  {
    if hs != [] {
      ShiftNone(hs[1..]);
    }
  }

  lemma TwoParts(a: seq<Line>, b: seq<Line>, hs: seq<Hunk>, a2: seq<Line>, b2: seq<Line>, h2: seq<Hunk>)
    requires IsScript(a, b, hs) && IsScript(a2, b2, h2)
    ensures IsScript(a + a2, b + b2, hs + ShiftAll(h2, |a|, |b|))
  {
    ScriptConcat(a, b, hs, 0, 0, a2, b2, h2);
  }

  lemma RestRight(a: seq<Line>, b: seq<Line>)
    ensures a == [] && b == [] ==> IsScript(a, b, [])
    ensures a == [] && b != [] ==> IsScript(a, b, [AddRest(0, b)])
    ensures a != [] && b == [] ==> IsScript(a, b, [DeleteRest(0, a)])
  {
    if a == [] && b != [] {
      AddRight(b);
    } else if a != [] && b == [] {
      DeleteRight(a);
    }
  }

  lemma OneHunk(h: Hunk, a: seq<Line>, b: seq<Line>)
    requires Here(h, a, b, 0, 0) && a[h.OldTo()..] == b[h.NewTo()..]
    ensures IsScript(a, b, [h])
  {
    assert h.OldTo() <= |a| && h.NewTo() <= |b|;
    hide Here;
    assert [h][1..] == [];
    assert Script(a, b, [], h.OldTo(), h.NewTo());
  }

  lemma HereIs(h: Hunk, a: seq<Line>, b: seq<Line>)
    requires h.Formed() && h.OldFrom() == 0 == h.NewFrom() && h.OldTo() == |a| && h.NewTo() == |b|
    requires a == h.gone && b == h.come
    ensures Here(h, a, b, 0, 0)
  {
    assert a[0..|a|] == a && b[0..|b|] == b && a[0..0] == b[0..0];
  }

  lemma AddRight(b: seq<Line>)
    requires b != []
    ensures IsScript([], b, [AddRest(0, b)])
  {
    hide Script;
    var h, none: seq<Line> := AddRest(0, b), [];
    assert h.OldFrom() == h.OldTo() == h.NewFrom() == 0 && h.NewTo() == |b|;
    assert b[0..|b|] == b && none[0..0] == b[0..0] && b[|b|..] == none[0..];
    HereIs(h, none, b);
    OneHunk(h, none, b);
  }

  lemma DeleteRight(a: seq<Line>)
    requires a != []
    ensures IsScript(a, [], [DeleteRest(0, a)])
  {
    hide Script;
    var h, none: seq<Line> := DeleteRest(0, a), [];
    assert h.OldFrom() == h.NewTo() == h.NewFrom() == 0 && h.OldTo() == |a|;
    assert a[0..|a|] == a && none[0..0] == a[0..0] && a[|a|..] == none[0..];
    HereIs(h, a, none);
    OneHunk(h, a, none);
  }

  lemma CutInTwo(a: seq<Line>, n: nat)
    ensures a == Front(a, n) + Past(a, n)
    ensures |Front(a, n)| == (if |a| <= n then |a| else n) && |Past(a, n)| == |a| - |Front(a, n)|
  {
  }

  /** Every file that is used up at a segment boundary keeps both numberings in step. */
  lemma {:induction false} SegmentsRight(a: seq<Line>, b: seq<Line>, seglim: nat, diff: Diff)
    requires seglim > 0 && DiffOk(diff) && Aligned(|a|, |b|, seglim)
    ensures IsScript(a, b, Segments(a, b, 0, seglim, diff))
    decreases |a|
  {
    hide Script;
    hide IsScript;
    hide ShiftAll;
    hide Front;
    hide Past;
    if a == [] || b == [] {
      RestRight(a, b);
    } else {
      var a1, b1, a2, b2 := Front(a, seglim), Front(b, seglim), Past(a, seglim), Past(b, seglim);
      var hs := diff(a1, b1);
      var rest := Segments(a2, b2, 0, seglim, diff);
      CutInTwo(a, seglim);
      CutInTwo(b, seglim);
      ShiftNone(hs);
      Renumber(a2, b2, seglim, seglim, diff);
      SegmentsRight(a2, b2, seglim, diff);
      assert IsScript(a1, b1, hs);
      TwoParts(a1, b1, hs, a2, b2, rest);
      if a2 == [] && b2 == [] {
        assert ShiftAll(rest, |a1|, |b1|) == [] == ShiftAll(rest, seglim, seglim);
      }
    }
  }

  /** Some hunk names a line past the end of its file. */
  ghost predicate OutOfRange(a: seq<Line>, b: seq<Line>, hs: seq<Hunk>) {
    exists k :: 0 <= k < |hs| && (hs[k].OldTo() > |a| || hs[k].NewTo() > |b|)
  }

  lemma {:induction false} ShiftAt(hs: seq<Hunk>, a: nat, b: nat, k: nat)
    requires k < |hs|
    ensures ShiftAll(hs, a, b)[k] == hs[k].Shift(a, b)
  {
    if k > 0 {
      ShiftAt(hs[1..], a, b, k - 1);
    }
  }

  /** Hunks moved with the lines put before both files stay out of range. */
  lemma StillOut(a: seq<Line>, b: seq<Line>, hs: seq<Hunk>, first: seq<Hunk>, a0: seq<Line>, b0: seq<Line>)
    requires OutOfRange(a, b, hs) && |a0| == |b0|
    ensures OutOfRange(a0 + a, b0 + b, first + ShiftAll(hs, |a0|, |a0|))
  {
    var k :| 0 <= k < |hs| && (hs[k].OldTo() > |a| || hs[k].NewTo() > |b|);
    ShiftAt(hs, |a0|, |a0|, k);
    var all := first + ShiftAll(hs, |a0|, |a0|);
    assert all[|first| + k] == hs[k].Shift(|a0|, |a0|);
  }

  lemma NotScript(a: seq<Line>, b: seq<Line>, hs: seq<Hunk>)
    requires OutOfRange(a, b, hs)
    ensures !IsScript(a, b, hs)
  {
    hide Script;
    if IsScript(a, b, hs) {
      forall k | 0 <= k < |hs|
        ensures hs[k].OldTo() <= |a| && hs[k].NewTo() <= |b|
      {
        ScriptInRange(a, b, hs, 0, 0, k);
      }
    }
  }

  lemma LastIsOut(a: seq<Line>, b: seq<Line>, hs: seq<Hunk>, h: Hunk)
    requires h.OldTo() > |a| || h.NewTo() > |b|
    ensures OutOfRange(a, b, hs + [h])
  {
    assert (hs + [h])[|hs|] == h;
  }

  /** A file that ends strictly inside a segment makes the numbers after that segment wrong. */
  lemma {:induction false} SegmentsWrong(a: seq<Line>, b: seq<Line>, seglim: nat, diff: Diff)
    requires seglim > 0 && !Aligned(|a|, |b|, seglim)
    ensures OutOfRange(a, b, Segments(a, b, 0, seglim, diff))
    decreases |a|
  {
    hide OutOfRange;
    var a1, b1, a2, b2 := Front(a, seglim), Front(b, seglim), Past(a, seglim), Past(b, seglim);
    var hs := diff(a1, b1);
    ShiftNone(hs);
    if |a| < seglim {
      LastIsOut(a, b, hs, AddRest(seglim, b2));
    } else if |b| < seglim {
      LastIsOut(a, b, hs, DeleteRest(seglim, a2));
    } else {
      SegmentsWrong(a2, b2, seglim, diff);
      Renumber(a2, b2, seglim, seglim, diff);
      StillOut(a2, b2, Segments(a2, b2, 0, seglim, diff), hs, a1, b1);
      assert a == a1 + a2 && b == b1 + b2;
    }
  }

  lemma {:induction false} WholeIs(a: seq<Line>, b: seq<Line>, ln: nat, seglim: nat, diff: Diff)
    requires seglim > 0
    ensures Whole(a, b, ln, seglim, diff) ==
            Segments(a[Common(a, b)..], b[Common(a, b)..], ln + Common(a, b), seglim, diff)
    decreases |a|
  {
    hide Segments;
    if a != [] && b != [] && a[0] == b[0] {
      var p := Common(a[1..], b[1..]);
      WholeIs(a[1..], b[1..], ln + 1, seglim, diff);
      assert a[1..][p..] == a[p + 1..] && b[1..][p..] == b[p + 1..];
    } else {
      assert a[0..] == a && b[0..] == b;
    }
  }

  lemma SameLines(a: seq<Line>)
    ensures IsScript(a, a, [])
  {
  }

  /** If diff is right about every pair of segments, the output is a correct script for the whole
      files, both in what it does and in every line number, exactly when neither file ends strictly
      inside a segment while the other goes on past it. */
  lemma BdiffCorrect(a: seq<Line>, b: seq<Line>, seglim: nat, diff: Diff)
    requires seglim > 0 && DiffOk(diff)
    ensures IsScript(a, b, Whole(a, b, 0, seglim, diff)) <==>
            Aligned(|a| - Common(a, b), |b| - Common(a, b), seglim)
  {
    hide Script;
    hide IsScript;
    hide OutOfRange;
    hide Segments;
    var p := Common(a, b);
    CommonSame(a, b);
    var a2, b2 := a[p..], b[p..];
    var hs := Segments(a2, b2, 0, seglim, diff);
    WholeIs(a, b, 0, seglim, diff);
    Renumber(a2, b2, p, seglim, diff);
    assert a == a[..p] + a2 && b == b[..p] + b2 && [] + ShiftAll(hs, p, p) == ShiftAll(hs, p, p);
    if Aligned(|a2|, |b2|, seglim) {
      SegmentsRight(a2, b2, seglim, diff);
      SameLines(a[..p]);
      TwoParts(a[..p], b[..p], [], a2, b2, hs);
    } else {
      SegmentsWrong(a2, b2, seglim, diff);
      StillOut(a2, b2, hs, [], a[..p], b[..p]);
      NotScript(a, b, ShiftAll(hs, p, p));
    }
  }

  /** The short file ends inside a segment that the long one goes past. */
  predicate EndsInside(short: nat, long: nat, seglim: nat)
    requires seglim > 0
  {
    short % seglim != 0 && long > short - short % seglim + seglim
  }

  lemma {:induction false} AlignedRem(m: nat, n: nat, s: nat)
    requires s > 0
    ensures Aligned(m, n, s) <==>
            (Rem(m, s) == 0 || n <= m - Rem(m, s) + s) && (Rem(n, s) == 0 || m <= n - Rem(n, s) + s)
  {
    RemBelow(m, s);
    RemBelow(n, s);
    if m >= s && n >= s {
      AlignedRem(m - s, n - s, s);
    }
  }

  lemma {:induction false} RemBelow(m: nat, s: nat)
    requires s > 0
    ensures Rem(m, s) <= m
  {
    if m >= s {
      RemBelow(m - s, s);
    }
  }

  /** The condition in terms of the line counts alone. */
  lemma AlignedIs(m: nat, n: nat, seglim: nat)
    requires seglim > 0
    ensures Aligned(m, n, seglim) <==> !EndsInside(m, n, seglim) && !EndsInside(n, m, seglim)
  {
    hide Aligned;
    RemIsMod(m, seglim);
    RemIsMod(n, seglim);
    AlignedRem(m, n, seglim);
  }

  /** Segments of two lines, an old file of one line and a new one of three others: the last line is
      said to be added after line 2 of the old file, which has no such line. */
  lemma MisnumberedExample(diff: Diff)
    requires DiffOk(diff)
    ensures !IsScript(["a"], ["b", "c", "d"], Whole(["a"], ["b", "c", "d"], 0, 2, diff))
  {
    BdiffCorrect(["a"], ["b", "c", "d"], 2, diff);
  }

  // ----- The text of a script ---------------------------------------------------------------------

  function Marked(mark: char, lines: seq<Line>): (r: seq<string>)
    ensures |r| == |lines| && forall i :: 0 <= i < |r| ==> r[i] == [mark, ' '] + lines[i]
  {
    if lines == [] then [] else [[mark, ' '] + lines[0]] + Marked(mark, lines[1..])
  }

  /** The lines diff prints for a hunk. */
  function Lines(h: Hunk): seq<string> {
    [h.Header()] + (Marked('<', h.gone) + ((if h.kind.Change? then ["---\n"] else []) + Marked('>', h.come)))
  }

  function Text(hs: seq<Hunk>): seq<string> {
    if hs == [] then [] else Lines(hs[0]) + Text(hs[1..])
  }

  lemma {:induction false} TextConcat(h1: seq<Hunk>, h2: seq<Hunk>)
    ensures Text(h1 + h2) == Text(h1) + Text(h2)
  {
    hide Lines;
    if h1 == [] {
      assert h1 + h2 == h2;
    } else {
      assert (h1 + h2)[1..] == h1[1..] + h2;
      TextConcat(h1[1..], h2);
    }
  }

  /** A line with every number in it moved by k. */
  function Fixed(s: string, k: nat): string
    decreases |s|
  {
    if s == "" then ""
    else if IsDigit(s[0]) then Dec(Val(s[..DigitRun(s)]) + k) + Fixed(s[DigitRun(s)..], k)
    else [s[0]] + Fixed(s[1..], k)
  }

  lemma FixedNumber(n: nat, t: string, k: nat)
    requires t == "" || !IsDigit(t[0])
    ensures Fixed(Dec(n) + t, k) == Dec(n + k) + Fixed(t, k)
  {
    var s, d := Dec(n) + t, Dec(n);
    DigitRunOf(d, t);
    ValDec(n);
    assert s[..|d|] == d && s[|d|..] == t && s[0] == d[0];
  }

  lemma FixedChar(c: char, t: string, k: nat)
    requires !IsDigit(c)
    ensures Fixed([c] + t, k) == [c] + Fixed(t, k)
  {
    assert ([c] + t)[1..] == t;
  }

  lemma FixedRange(r: Range, c: char, t: string, k: nat)
    requires !IsDigit(c)
    ensures Fixed(r.Text() + ([c] + t), k) == r.Shift(k).Text() + ([c] + Fixed(t, k))
  {
    hide Fixed;
    hide Dec;
    FixedChar(c, t, k);
    if r.One? {
      FixedNumber(r.n, [c] + t, k);
    } else {
      var rest := Dec(r.hi) + ([c] + t);
      FixedNumber(r.hi, [c] + t, k);
      FixedChar(',', rest, k);
      FixedNumber(r.lo, "," + rest, k);
      assert r.Text() + ([c] + t) == Dec(r.lo) + ("," + rest);
      assert Dec(r.lo + k) + ("," + (Dec(r.hi + k) + ([c] + Fixed(t, k)))) == r.Shift(k).Text() + ([c] + Fixed(t, k));
    }
  }

  /** Moving the numbers in the text of a header is moving the hunk. */
  lemma FixedHeader(h: Hunk, k: nat)
    ensures Fixed(h.Header(), k) == h.Shift(k, k).Header()
  {
    hide Fixed;
    hide Dec;
    var news := h.news.Text() + "\n";
    FixedRange(h.olds, h.kind.Letter(), news, k);
    FixedRange(h.news, '\n', "", k);
    FixedNothing(k);
    assert h.Header() == h.olds.Text() + ([h.kind.Letter()] + news);
    assert h.Shift(k, k).Header() == h.olds.Shift(k).Text() + ([h.kind.Letter()] + (h.news.Shift(k).Text() + "\n"));
    assert "\n" == ['\n'] + "";
  }

  lemma FixedNothing(k: nat)
    ensures Fixed("", k) == ""
  {
  }

  /** What bdiff makes of a line that diff printed: only those starting with a digit change. */
  function FixLine(l: string, k: nat): string {
    if l != "" && IsDigit(l[0]) then Fixed(l, k) else l
  }

  function FixLines(ls: seq<string>, k: nat): (r: seq<string>)
    ensures |r| == |ls| && forall i :: 0 <= i < |r| ==> r[i] == FixLine(ls[i], k)
  {
    if ls == [] then [] else [FixLine(ls[0], k)] + FixLines(ls[1..], k)
  }

  lemma {:induction false} FixConcat(a: seq<string>, b: seq<string>, k: nat)
    ensures FixLines(a + b, k) == FixLines(a, k) + FixLines(b, k)
  {
    hide FixLine;
    if a == [] {
      assert a + b == b;
    } else {
      assert (a + b)[1..] == a[1..] + b;
      FixConcat(a[1..], b, k);
    }
  }

  lemma FixMarked(mark: char, lines: seq<Line>, k: nat)
    requires !IsDigit(mark)
    ensures FixLines(Marked(mark, lines), k) == Marked(mark, lines)
  {
  }

  lemma FixHunk(h: Hunk, k: nat)
    ensures FixLines(Lines(h), k) == Lines(h.Shift(k, k))
  {
    var middle := if h.kind.Change? then ["---\n"] else [];
    var come, gone := Marked('>', h.come), Marked('<', h.gone);
    HeaderDigit(h);
    FixedHeader(h, k);
    assert FixLines([h.Header()], k) == [h.Shift(k, k).Header()];
    assert FixLines(middle, k) == middle;
    hide FixLines;
    hide Marked;
    hide FixLine;
    FixMarked('<', h.gone, k);
    FixMarked('>', h.come, k);
    FixConcat(middle, come, k);
    FixConcat(gone, middle + come, k);
    FixConcat([h.Header()], gone + (middle + come), k);
  }

  lemma HeaderDigit(h: Hunk)
    ensures h.Header() != "" && IsDigit(h.Header()[0])
  {
    assert h.Header()[0] == h.olds.Text()[0];
  }

  /** What may stand in a header: fixnum never gets past any other character. */
  predicate HeaderChar(c: char) {
    IsDigit(c) || c == 'a' || c == 'c' || c == 'd' || c == ',' || c == '\n'
  }

  predicate HeaderLike(s: string) {
    forall i :: 0 <= i < |s| ==> HeaderChar(s[i])
  }

  /** Each line that starts with a digit looks like a header. */
  predicate Passable(ls: seq<string>) {
    forall i {:trigger ls[i]} :: 0 <= i < |ls| && ls[i] != "" && IsDigit(ls[i][0]) ==> HeaderLike(ls[i])
  }

  lemma NoneLike(s: string)
    ensures HeaderLike(s[..0])
  {
  }

  lemma LikeNext(s: string, p: nat)
    requires p < |s| && HeaderLike(s[..p])
    ensures HeaderLike(s[..p + 1]) <==> HeaderChar(s[p])
    ensures HeaderLike(s) ==> HeaderChar(s[p])
  {
    assert HeaderLike(s[..p + 1]) ==> HeaderChar(s[..p + 1][p]);
  }

  lemma LikeDigits(s: string, p: nat, q: nat)
    requires p <= q <= |s| && HeaderLike(s[..p]) && AllDigits(s[p..q])
    ensures HeaderLike(s[..q])
  {
    forall k | 0 <= k < q
      ensures HeaderChar(s[..q][k])
    {
      assert if k < p then s[k] == s[..p][k] else s[k] == s[p..q][k - p];
    }
  }

  lemma RangeLike(r: Range)
    ensures HeaderLike(r.Text())
  {
    if r.One? {
      ValDec(r.n);
    } else {
      ValDec(r.lo);
      ValDec(r.hi);
    }
  }

  lemma HunkPassable(h: Hunk)
    ensures Passable(Lines(h))
  {
    RangeLike(h.olds);
    RangeLike(h.news);
    assert HeaderLike(h.Header());
  }

  /** Nothing that diff prints stops fixnum. */
  lemma {:induction false} TextPassable(hs: seq<Hunk>)
    ensures Passable(Text(hs))
  {
    hide Lines;
    if hs != [] {
      TextPassable(hs[1..]);
      HunkPassable(hs[0]);
    }
  }

  /** Correcting the text of a script line by line is shifting the script. */
  lemma {:induction false} FixText(hs: seq<Hunk>, k: nat)
    ensures FixLines(Text(hs), k) == Text(ShiftAll(hs, k, k))
  {
    hide Lines;
    if hs != [] {
      FixText(hs[1..], k);
      FixHunk(hs[0], k);
      FixConcat(Lines(hs[0]), Text(hs[1..]), k);
      assert ShiftAll(hs, k, k)[1..] == ShiftAll(hs[1..], k, k);
    }
  }

  // ----- Reading a script -------------------------------------------------------------------------

  /** A line number or two with a comma between them, and what is behind. */
  datatype RangeRead = RangeRead(range: Range, rest: string) | NoRange

  function ReadRange(s: string): RangeRead {
    var k := DigitRun(s);
    var t := s[k..];
    if k == 0 then NoRange
    else if t == "" || t[0] != ',' || DigitRun(t[1..]) == 0 then RangeRead(One(Val(s[..k])), t)
    else
      var l := DigitRun(t[1..]);
      RangeRead(Span(Val(s[..k]), Val(t[1..][..l])), t[1..][l..])
  }

  datatype HeaderRead = HeaderRead(kind: Kind, olds: Range, news: Range) | NoHeader

  /** a adds, c changes, d deletes. */
  function ReadKind(c: char): (bool, Kind) {
    if c == 'a' then (true, Add)
    else if c == 'c' then (true, Change)
    else (c == 'd', Delete)
  }

  function ReadHeader(s: string): HeaderRead {
    var olds := ReadRange(s);
    if olds.NoRange? || olds.rest == "" || !ReadKind(olds.rest[0]).0 then NoHeader
    else
      var news := ReadRange(olds.rest[1..]);
      if news.NoRange? || news.rest != "\n" then NoHeader
      else HeaderRead(ReadKind(olds.rest[0]).1, olds.range, news.range)
  }

  /** The lines that start with the mark, without it, as many as there are in a row. */
  function Taken(mark: string, ls: seq<string>): (r: seq<Line>)
    ensures |r| <= |ls|
  {
    if ls != [] && mark <= ls[0] then [ls[0][|mark|..]] + Taken(mark, ls[1..]) else []
  }

  datatype Reading = Reading(hs: seq<Hunk>) | NotDiff

  function Ahead(h: Hunk, r: Reading): Reading {
    if r.Reading? then Reading([h] + r.hs) else NotDiff
  }

  datatype Body = Body(gone: seq<Line>, come: seq<Line>, rest: seq<string>) | NoBody

  /** What follows a header: the lines to go, marked "< ", and the lines to come, marked "> ", with "---"
      between them in a change. */
  function ReadBody(kind: Kind, ls: seq<string>): (b: Body)
    ensures b.Body? ==> |b.rest| <= |ls|
  {
    match kind
    case Add =>
      var come := Taken("> ", ls);
      Body([], come, ls[|come|..])
    case Delete =>
      var gone := Taken("< ", ls);
      Body(gone, [], ls[|gone|..])
    case Change =>
      var gone := Taken("< ", ls);
      var ls2 := ls[|gone|..];
      if ls2 == [] || ls2[0] != "---\n" then NoBody
      else
        var come := Taken("> ", ls2[1..]);
        Body(gone, come, ls2[1..][|come|..])
  }

  /** What a reader makes of the lines that diff prints. */
  function ReadDiff(ls: seq<string>): Reading
    decreases |ls|
  {
    if ls == [] then Reading([])
    else
      var h := ReadHeader(ls[0]);
      if h.NoHeader? then NotDiff
      else
        var b := ReadBody(h.kind, ls[1..]);
        if b.NoBody? then NotDiff else Ahead(Hunk(h.kind, h.olds, h.news, b.gone, b.come), ReadDiff(b.rest))
  }

  /** An addition removes nothing, and a deletion inserts nothing. */
  predicate Plain(h: Hunk) {
    (h.kind.Add? ==> h.gone == []) && (h.kind.Delete? ==> h.come == [])
  }

  predicate AllPlain(hs: seq<Hunk>) {
    forall i :: 0 <= i < |hs| ==> Plain(hs[i])
  }

  lemma NumberThen(n: nat, t: string)
    requires t == "" || !IsDigit(t[0])
    ensures var s, k := Dec(n) + t, |Dec(n)|;
      DigitRun(s) == k > 0 && s[..k] == Dec(n) && s[k..] == t && Val(s[..k]) == n
  {
    DigitRunOf(Dec(n), t);
    ValDec(n);
    hide Dec;
    assert (Dec(n) + t)[..|Dec(n)|] == Dec(n);
  }

  lemma RangeBack(r: Range, t: string)
    requires t != "" && !IsDigit(t[0]) && t[0] != ','
    ensures ReadRange(r.Text() + t) == RangeRead(r, t)
  {
    hide Dec;
    hide Val;
    hide DigitRun;
    if r.One? {
      NumberThen(r.n, t);
    } else {
      var rest := "," + (Dec(r.hi) + t);
      NumberThen(r.lo, rest);
      NumberThen(r.hi, t);
      assert r.Text() + t == Dec(r.lo) + rest;
      assert rest[1..] == Dec(r.hi) + t;
    }
  }

  lemma HeaderBack(h: Hunk)
    ensures ReadHeader(h.Header()) == HeaderRead(h.kind, h.olds, h.news)
  {
    hide ReadRange;
    hide Dec;
    var news := h.news.Text() + "\n";
    var c := h.kind.Letter();
    RangeBack(h.news, "\n");
    RangeBack(h.olds, [c] + news);
    assert h.Header() == h.olds.Text() + ([c] + news);
    assert ([c] + news)[0] == c && ([c] + news)[1..] == news;
    assert ReadKind(c) == (true, h.kind);
  }

  lemma {:induction false} TakenBack(mark: char, lines: seq<Line>, rest: seq<string>)
    requires rest == [] || !([mark, ' '] <= rest[0])
    ensures Taken([mark, ' '], Marked(mark, lines) + rest) == lines
  {
    if lines == [] {
      assert Marked(mark, lines) + rest == rest;
    } else {
      var ls := Marked(mark, lines) + rest;
      TakenBack(mark, lines[1..], rest);
      assert ls[0] == [mark, ' '] + lines[0] && ls[1..] == Marked(mark, lines[1..]) + rest;
      assert ls[0][2..] == lines[0];
    }
  }

  /** What is not the start of a marked line or a rule. */
  predicate AtHeader(ls: seq<string>) {
    ls == [] || (ls[0] != "" && IsDigit(ls[0][0]))
  }

  lemma {:induction false} TextStarts(hs: seq<Hunk>)
    ensures AtHeader(Text(hs))
  {
    if hs != [] {
      HeaderDigit(hs[0]);
      assert Text(hs)[0] == hs[0].Header();
    }
  }

  lemma MarkedRun(mark: char, lines: seq<Line>, rest: seq<string>)
    requires rest == [] || !([mark, ' '] <= rest[0])
    ensures var ls := Marked(mark, lines) + rest;
      Taken([mark, ' '], ls) == lines && |lines| <= |ls| && ls[|lines|..] == rest
  {
    TakenBack(mark, lines, rest);
    hide Taken;
    hide Marked;
    assert (Marked(mark, lines) + rest)[|lines|..] == rest;
  }

  /** What is printed of a hunk behind its header. */
  function BodyOf(h: Hunk): seq<string> {
    Marked('<', h.gone) + ((if h.kind.Change? then ["---\n"] else []) + Marked('>', h.come))
  }

  lemma NotMarked(ls: seq<string>)
    requires AtHeader(ls)
    ensures ls == [] || (!("< " <= ls[0]) && !("> " <= ls[0]))
  {
  }

  lemma AddBack(h: Hunk, ls: seq<string>)
    requires h.kind.Add? && Plain(h) && AtHeader(ls)
    ensures ReadBody(Add, BodyOf(h) + ls) == Body([], h.come, ls)
  {
    NotMarked(ls);
    MarkedRun('>', h.come, ls);
    NoneMarked('<');
    hide Marked;
    hide Taken;
    assert BodyOf(h) + ls == Marked('>', h.come) + ls;
  }

  lemma DeleteBack(h: Hunk, ls: seq<string>)
    requires h.kind.Delete? && Plain(h) && AtHeader(ls)
    ensures ReadBody(Delete, BodyOf(h) + ls) == Body(h.gone, [], ls)
  {
    NotMarked(ls);
    MarkedRun('<', h.gone, ls);
    NoneMarked('>');
    hide Marked;
    hide Taken;
    assert BodyOf(h) + ls == Marked('<', h.gone) + ls;
  }

  lemma Ruled(g: seq<string>, c: seq<string>, ls: seq<string>)
    ensures g + (["---\n"] + c) + ls == g + (["---\n"] + (c + ls))
    ensures var rest := ["---\n"] + (c + ls); rest[0] == "---\n" && rest[1..] == c + ls && !("< " <= rest[0])
  {
    assert "---\n"[0] == '-' && "< "[0] == '<';
  }

  lemma ReadChange(ls: seq<string>, gone: seq<Line>, come: seq<Line>, rest: seq<string>)
    requires Taken("< ", ls) == gone && ls[|gone|..] != [] && ls[|gone|..][0] == "---\n"
    requires Taken("> ", ls[|gone|..][1..]) == come && ls[|gone|..][1..][|come|..] == rest
    ensures ReadBody(Change, ls) == Body(gone, come, rest)
  {
    hide Taken;
  }

  lemma BodyIs(h: Hunk)
    requires h.kind.Change?
    ensures BodyOf(h) == Marked('<', h.gone) + (["---\n"] + Marked('>', h.come))
  {
    hide Marked;
  }

  lemma ChangeBack(h: Hunk, ls: seq<string>)
    requires h.kind.Change? && AtHeader(ls)
    ensures ReadBody(Change, BodyOf(h) + ls) == Body(h.gone, h.come, ls)
  {
    hide *;
    NotMarked(ls);
    BodyIs(h);
    var gone, come := Marked('<', h.gone), Marked('>', h.come);
    Ruled(gone, come, ls);
    MarkedRun('>', h.come, ls);
    MarkedRun('<', h.gone, ["---\n"] + (come + ls));
    ReadChange(BodyOf(h) + ls, h.gone, h.come, ls);
  }

  lemma LinesAre(h: Hunk, ls: seq<string>)
    ensures var all := Lines(h) + ls; all != [] && all[0] == h.Header() && all[1..] == BodyOf(h) + ls
  {
    hide Marked;
  }

  lemma ReadFirst(all: seq<string>, h: Hunk, ls: seq<string>)
    requires all != [] && ReadHeader(all[0]) == HeaderRead(h.kind, h.olds, h.news)
    requires ReadBody(h.kind, all[1..]) == Body(h.gone, h.come, ls)
    ensures ReadDiff(all) == Ahead(h, ReadDiff(ls))
  {
    hide ReadHeader;
    hide ReadBody;
  }

  /** One hunk, and the lines behind it. */
  lemma HunkBack(h: Hunk, ls: seq<string>)
    requires Plain(h) && AtHeader(ls)
    ensures ReadDiff(Lines(h) + ls) == Ahead(h, ReadDiff(ls))
  {
    hide *;
    HeaderBack(h);
    if h.kind.Add? {
      AddBack(h, ls);
      NoGone(h);
    } else if h.kind.Delete? {
      DeleteBack(h, ls);
      NoCome(h);
    } else {
      ChangeBack(h, ls);
    }
    LinesAre(h, ls);
    ReadFirst(Lines(h) + ls, h, ls);
  }

  lemma NoGone(h: Hunk)
    requires Plain(h) && h.kind.Add?
    ensures h.gone == []
  {
  }

  lemma NoCome(h: Hunk)
    requires Plain(h) && h.kind.Delete?
    ensures h.come == []
  {
  }

  /** Round trip: from the text of a script a reader gets its hunks. */
  lemma {:induction false} TextBack(hs: seq<Hunk>)
    requires AllPlain(hs)
    ensures ReadDiff(Text(hs)) == Reading(hs)
  {
    hide Lines;
    if hs != [] {
      assert Plain(hs[0]) && AllPlain(hs[1..]);
      hide Plain;
      TextBack(hs[1..]);
      TextStarts(hs[1..]);
      hide ReadDiff;
      HunkBack(hs[0], Text(hs[1..]));
      assert [hs[0]] + hs[1..] == hs;
    }
  }

  /** The hunks of a correct script are plain, and those of the whole output too. */
  lemma {:induction false} ScriptPlain(a: seq<Line>, b: seq<Line>, hs: seq<Hunk>, i: nat, j: nat)
    requires i <= |a| && j <= |b| && Script(a, b, hs, i, j)
    ensures AllPlain(hs)
    decreases |hs|
  {
    if hs != [] {
      ScriptPlain(a, b, hs[1..], hs[0].OldTo(), hs[0].NewTo());
      assert Plain(hs[0]);
      assert forall k :: 0 < k < |hs| ==> hs[k] == hs[1..][k - 1];
    }
  }

  lemma {:induction false} ShiftPlain(hs: seq<Hunk>, k: nat)
    requires AllPlain(hs)
    ensures AllPlain(ShiftAll(hs, k, k))
  {
    if hs != [] {
      var tail := ShiftAll(hs[1..], k, k);
      assert Plain(hs[0]) && AllPlain(hs[1..]);
      ShiftPlain(hs[1..], k);
      assert forall i :: 0 < i < |ShiftAll(hs, k, k)| ==> ShiftAll(hs, k, k)[i] == tail[i - 1];
    }
  }

  lemma PlainBoth(a: seq<Hunk>, b: seq<Hunk>)
    requires AllPlain(a) && AllPlain(b)
    ensures AllPlain(a + b)
  {
  }

  lemma {:induction false} SegmentsPlain(a: seq<Line>, b: seq<Line>, ln: nat, seglim: nat, diff: Diff)
    requires seglim > 0 && DiffOk(diff)
    ensures AllPlain(Segments(a, b, ln, seglim, diff))
    decreases |a|
  {
    hide AllPlain;
    hide ShiftAll;
    hide Script;
    if a == [] || b == [] {
      RestPlain(ln, a);
      RestPlain(ln, b);
    } else {
      var x, y := Front(a, seglim), Front(b, seglim);
      ScriptPlain(x, y, diff(x, y), 0, 0);
      ShiftPlain(diff(x, y), ln);
      SegmentsPlain(Past(a, seglim), Past(b, seglim), ln + seglim, seglim, diff);
      PlainBoth(ShiftAll(diff(x, y), ln, ln), Segments(Past(a, seglim), Past(b, seglim), ln + seglim, seglim, diff));
    }
  }

  lemma RestPlain(ln: nat, a: seq<Line>)
    ensures AllPlain([]) && AllPlain([AddRest(ln, a)]) && AllPlain([DeleteRest(ln, a)])
  {
  }

  lemma {:induction false} WholePlain(a: seq<Line>, b: seq<Line>, ln: nat, seglim: nat, diff: Diff)
    requires seglim > 0 && DiffOk(diff)
    ensures AllPlain(Whole(a, b, ln, seglim, diff))
    decreases |a|
  {
    hide AllPlain;
    if a != [] && b != [] && a[0] == b[0] {
      WholePlain(a[1..], b[1..], ln + 1, seglim, diff);
    } else {
      SegmentsPlain(a, b, ln, seglim, diff);
    }
  }

  /** A reader of the output gets a correct script exactly when neither file ends strictly inside a
      segment that the other goes past. */
  lemma OutputReads(a: seq<Line>, b: seq<Line>, seglim: nat, diff: Diff)
    requires seglim > 0 && DiffOk(diff)
    ensures var r, m, n := ReadDiff(Text(Whole(a, b, 0, seglim, diff))), |a| - Common(a, b), |b| - Common(a, b);
      r.Reading? && (IsScript(a, b, r.hs) <==> !EndsInside(m, n, seglim) && !EndsInside(n, m, seglim))
  {
    hide *;
    WholePlain(a, b, 0, seglim, diff);
    TextBack(Whole(a, b, 0, seglim, diff));
    BdiffCorrect(a, b, seglim, diff);
    AlignedIs(|a| - Common(a, b), |b| - Common(a, b), seglim);
  }

  // ----- The program ------------------------------------------------------------------------------

  /** A line buffer: what fgets left in it, or nothing at the end of the file. */
  datatype Buf = Got(line: Line) | Eof

  function Left(buf: Buf, file: seq<Line>): seq<Line> {
    if buf.Eof? then [] else [buf.line] + file
  }

  method Fgets(file: seq<Line>) returns (buf: Buf, rest: seq<Line>)
    ensures Left(buf, rest) == file && (buf.Eof? ==> rest == [])
  {
    if file == [] {
      buf, rest := Eof, [];
    } else {
      buf, rest := Got(file[0]), file[1..];
    }
  }

  predicate DigitsIn(s: string, p: nat, q: nat)
    requires p <= q <= |s|
    ensures DigitsIn(s, p, q) ==> AllDigits(s[p..q])
  {
    forall k :: p <= k < q ==> IsDigit(s[k])
  }

  lemma NextDigit(s: string, p: nat, q: nat)
    requires p <= q < |s| && DigitsIn(s, p, q) && IsDigit(s[q])
    ensures DigitsIn(s, p, q + 1) && Val(s[p..q + 1]) == Val(s[p..q]) * 10 + DigitVal(s[q])
  {
    assert s[p..q + 1] == s[p..q] + [s[q]];
    assert (s[p..q] + [s[q]])[..q - p] == s[p..q];
  }

  lemma RunAt(s: string, p: nat, q: nat)
    requires p <= q <= |s| && DigitsIn(s, p, q) && (q < |s| ==> !IsDigit(s[q]))
    ensures DigitRun(s[p..]) == q - p
  {
    hide DigitRun;
    assert s[p..] == s[p..q] + s[q..];
    DigitRunOf(s[p..q], s[q..]);
  }

  /** Read digits from position p on. */
  method Satoi(s: string, p: nat) returns (num: nat, q: nat)
    requires p <= |s|
    ensures p <= q <= |s| && q == p + DigitRun(s[p..])
    ensures AllDigits(s[p..q]) && num == Val(s[p..q])
  {
    hide DigitRun;
    num, q := 0, p;
    assert s[p..p] == "";
    while q < |s| && IsDigit(s[q])
      invariant p <= q <= |s| && DigitsIn(s, p, q)
      invariant num == Val(s[p..q])
    {
      NextDigit(s, p, q);
      num := num * 10 + (s[q] as int - '0' as int);
      q := q + 1;
    }
    RunAt(s, p, q);
  }

  class Differ {
    const seglim: nat
    const diff: Diff
    var linenum: nat
    var out: seq<string>

    constructor (seglim: nat, diff: Diff)
      ensures this.seglim == seglim && this.diff == diff && linenum == 0 && out == []
    {
      this.seglim, this.diff, linenum, out := seglim, diff, 0, [];
    }

    /** Print a header line with linenum added to its numbers.  At a character that cannot stand in a
        header the C loop prints linenum for ever: ends is false. */
    method Fixnum(lp: string) returns (r: string, ends: bool)
      ensures ends <==> HeaderLike(lp)
      ensures ends ==> r == Fixed(lp, linenum)
    {
      hide DigitRun;
      hide Dec;
      hide Val;
      hide Fixed;
      hide AllDigits;
      hide HeaderLike;
      r, ends := "", true;
      NoneLike(lp);
      var p := 0;
      assert lp[0..] == lp;
      while p < |lp|
        invariant 0 <= p <= |lp| && r + Fixed(lp[p..], linenum) == Fixed(lp, linenum)
        invariant ends && HeaderLike(lp[..p])
      {
        FixedStep(lp, p, linenum);
        LikeNext(lp, p);
        if lp[p] == 'a' || lp[p] == 'c' || lp[p] == 'd' || lp[p] == ',' || lp[p] == '\n' {
          r, p := r + [lp[p]], p + 1;
        } else {
          var num, q := Satoi(lp, p);
          if q == p {
            return r, false;
          }
          LikeDigits(lp, p, q);
          r, p := r + Dec(num + linenum), q;
        }
      }
      FixedNothing(linenum);
      assert lp[..p] == lp && lp[p..] == "";
    }

    /** Copy the output of diff, correcting the headers, unless fixnum is stopped. */
    method Process(pipe: seq<string>) returns (ends: bool)
      modifies `out
      ensures ends <==> Passable(pipe)
      ensures ends ==> out == old(out) + FixLines(pipe, linenum)
    {
      hide Fixed;
      hide HeaderLike;
      var i := 0;
      ends := true;
      while i < |pipe|
        invariant 0 <= i <= |pipe| && |out| == |old(out)| + i
        invariant ends && Passable(pipe[..i])
        invariant out[..|old(out)|] == old(out)
        invariant forall j :: 0 <= j < i ==> out[|old(out)| + j] == FixLine(pipe[j], linenum)
      {
        var line := pipe[i];
        if line != "" && IsDigit(line[0]) {
          line, ends := Fixnum(line);
          if !ends {
            return;
          }
        }
        out := out + [line];
        i := i + 1;
      }
      assert pipe[..i] == pipe;
    }

    /** Save the rest of a file, counting its lines. */
    method Saverest(line: Line, file: seq<Line>) returns (saved: seq<Line>)
      modifies `linenum
      ensures saved == [line] + file && linenum == old(linenum) + |saved|
    {
      var buf, rest := Got(line), file;
      saved := [];
      ghost var all := [line] + file;
      while buf.Got?
        invariant saved + Left(buf, rest) == all && linenum == old(linenum) + |saved|
        decreases |Left(buf, rest)|
      {
        assert saved + Left(buf, rest) == saved + [buf.line] + rest;
        saved := saved + [buf.line];
        linenum := linenum + 1;
        buf, rest := Fgets(rest);
      }
    }

    method Putsave(saved: seq<Line>, mark: char)
      modifies `out
      ensures out == old(out) + Marked(mark, saved)
    {
      var i := 0;
      while i < |saved|
        invariant 0 <= i <= |saved| && |out| == |old(out)| + i
        invariant out[..|old(out)|] == old(out)
        invariant forall j :: 0 <= j < i ==> out[|old(out)| + j] == [mark, ' '] + saved[j]
      {
        out := out + [[mark, ' '] + saved[i]];
        i := i + 1;
      }
    }

    /** The old file is used up: add what is left of the new one. */
    method Addgen(line: Line, file: seq<Line>)
      modifies this
      ensures out == old(out) + Text([AddRest(old(linenum), [line] + file)])
    {
      hide Dec;
      hide Marked;
      ghost var h := AddRest(linenum, [line] + file);
      var header := Dec(linenum) + "a" + Dec(linenum + 1) + ",";
      var saved := Saverest(line, file);
      header := header + Dec(linenum) + "\n";
      assert header == h.Header();
      out := out + [header];
      Putsave(saved, '>');
      NoneMarked('<');
      OneText(h);
    }

    /** The new file is used up: delete what is left of the old one. */
    method Delgen(line: Line, file: seq<Line>)
      modifies this
      ensures out == old(out) + Text([DeleteRest(old(linenum), [line] + file)])
    {
      hide Dec;
      hide Marked;
      ghost var h := DeleteRest(linenum, [line] + file);
      var header := Dec(linenum + 1) + ",";
      var savenum := linenum;
      var saved := Saverest(line, file);
      header := header + Dec(linenum) + "d" + Dec(savenum) + "\n";
      assert header == h.Header();
      out := out + [header];
      Putsave(saved, '<');
      NoneMarked('>');
      OneText(h);
    }

    /** Read at most seglim lines, the first from the buffer. */
    method Cut(buf: Buf, file: seq<Line>) returns (seg: seq<Line>, next: Buf, rest: seq<Line>)
      requires seglim > 0
      ensures seg == Front(Left(buf, file), seglim) && Left(next, rest) == Past(Left(buf, file), seglim)
    {
      seg, next, rest := [], buf, file;
      while next.Got? && |seg| < seglim
        invariant seg + Left(next, rest) == Left(buf, file) && |seg| <= seglim
        decreases |Left(next, rest)|
      {
        seg := seg + [next.line];
        next, rest := Fgets(rest);
      }
    }

    /** Compare one pair of segments. */
    method Pair(oseg: seq<Line>, nseg: seq<Line>)
      modifies this
      ensures out == old(out) + Text(ShiftAll(diff(oseg, nseg), old(linenum), old(linenum)))
      ensures linenum == old(linenum) + seglim
    {
      hide Text;
      hide FixLines;
      hide ShiftAll;
      FixText(diff(oseg, nseg), linenum);
      TextPassable(diff(oseg, nseg));
      var ends := Process(Text(diff(oseg, nseg)));
      linenum := linenum + seglim;
    }

    /** The segment loop. */
    method Pairs(obuf: Buf, ofile: seq<Line>, nbuf: Buf, nfile: seq<Line>)
      requires seglim > 0
      modifies this
      ensures out == old(out) +
                     Text(Segments(Left(obuf, ofile), Left(nbuf, nfile), old(linenum), seglim, diff))
    {
      hide Left;
      hide Text;
      hide ShiftAll;
      hide Segments;
      hide Front;
      hide Past;
      ghost var all := out + Text(Segments(Left(obuf, ofile), Left(nbuf, nfile), linenum, seglim, diff));
      var ob, of, nb, nf := obuf, ofile, nbuf, nfile;
      while true
        invariant out + Text(Segments(Left(ob, of), Left(nb, nf), linenum, seglim, diff)) == all
        decreases |Left(ob, of)|
      {
        LeftIs(ob, of);
        LeftIs(nb, nf);
        if ob.Eof? && nb.Eof? {
          RestText(linenum, [], [], seglim, diff);
          return;
        }
        if ob.Eof? {
          RestText(linenum, [], [nb.line] + nf, seglim, diff);
          Addgen(nb.line, nf);
          return;
        }
        if nb.Eof? {
          RestText(linenum, [ob.line] + of, [], seglim, diff);
          Delgen(ob.line, of);
          return;
        }
        ghost var a, b := Left(ob, of), Left(nb, nf);
        var oseg, nseg;
        oseg, ob, of := Cut(ob, of);
        nseg, nb, nf := Cut(nb, nf);
        SegmentsText(a, b, linenum, seglim, diff);
        Pair(oseg, nseg);
      }
    }

    /** The whole program: pass over the common beginning, then compare by segments. */
    method Bdiff(a: seq<Line>, b: seq<Line>)
      requires seglim > 0 && linenum == 0 && out == []
      modifies this
      ensures out == Text(Whole(a, b, 0, seglim, diff))
      ensures DiffOk(diff) ==>
                var r, m, n := ReadDiff(out), |a| - Common(a, b), |b| - Common(a, b);
                r.Reading? && (IsScript(a, b, r.hs) <==> !EndsInside(m, n, seglim) && !EndsInside(n, m, seglim))
    {
      hide Segments;
      hide Text;
      hide Left;
      hide ReadDiff;
      hide IsScript;
      hide EndsInside;
      if DiffOk(diff) {
        OutputReads(a, b, seglim, diff);
      }
      hide DiffOk;
      var of, nf := a, b;
      while true
        invariant Whole(a, b, 0, seglim, diff) == Whole(of, nf, linenum, seglim, diff) && out == []
        decreases |of|
      {
        var ob, nb, o2, n2;
        ob, o2 := Fgets(of);
        nb, n2 := Fgets(nf);
        LeftIs(ob, o2);
        LeftIs(nb, n2);
        if ob.Eof? || nb.Eof? || ob.line != nb.line {
          Pairs(ob, o2, nb, n2);
          return;
        }
        linenum := linenum + 1;
        of, nf := o2, n2;
      }
    }
  }

  lemma FixedStep(s: string, p: nat, k: nat)
    requires p < |s|
    ensures IsDigit(s[p]) ==>
              var r := p + DigitRun(s[p..]);
              r <= |s| && r > p && AllDigits(s[p..r]) && Fixed(s[p..], k) == Dec(Val(s[p..r]) + k) + Fixed(s[r..], k)
    ensures !IsDigit(s[p]) ==> Fixed(s[p..], k) == [s[p]] + Fixed(s[p + 1..], k)
  {
    hide Val;
    hide Dec;
    var t := s[p..];
    assert t[0] == s[p];
    if IsDigit(s[p]) {
      var r := DigitRun(t);
      assert r > 0;
      hide DigitRun;
      assert t[..r] == s[p..p + r] && t[r..] == s[p + r..];
    } else {
      assert t[1..] == s[p + 1..];
    }
  }

  lemma NoneMarked(mark: char)
    ensures Marked(mark, []) == []
  {
  }

  lemma RestText(ln: nat, a: seq<Line>, b: seq<Line>, seglim: nat, diff: Diff)
    requires seglim > 0 && (a == [] || b == [])
    ensures Text(Segments(a, b, ln, seglim, diff)) ==
            if a == [] then (if b == [] then [] else Text([AddRest(ln, b)])) else Text([DeleteRest(ln, a)])
  {
    hide Lines;
  }

  lemma SegmentsText(a: seq<Line>, b: seq<Line>, ln: nat, seglim: nat, diff: Diff)
    requires seglim > 0 && a != [] && b != []
    ensures Text(Segments(a, b, ln, seglim, diff)) ==
            Text(ShiftAll(diff(Front(a, seglim), Front(b, seglim)), ln, ln)) +
            Text(Segments(Past(a, seglim), Past(b, seglim), ln + seglim, seglim, diff))
    ensures |Past(a, seglim)| < |a|
  {
    hide Text;
    hide ShiftAll;
    TextConcat(ShiftAll(diff(Front(a, seglim), Front(b, seglim)), ln, ln),
               Segments(Past(a, seglim), Past(b, seglim), ln + seglim, seglim, diff));
  }

  lemma OneText(h: Hunk)
    ensures Text([h]) == Lines(h)
  {
    hide Lines;
    assert [h][1..] == [];
  }

  lemma LeftIs(buf: Buf, file: seq<Line>)
    ensures Left(buf, file) == if buf.Eof? then [] else [buf.line] + file
    ensures buf.Got? ==> Left(buf, file)[0] == buf.line && Left(buf, file)[1..] == file
  {
  }
}
