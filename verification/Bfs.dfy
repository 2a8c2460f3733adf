/** Random line access of bfs (usr/src/common/cmd/bfs/bfs.c): one scan builds a table of line
    lengths and a sparse index of every 64th line; any line is then fetched by walking from the
    previously fetched one, or by jumping through the index, with one cached block. */
module Bfs {

  const MAXLINES := 32767
  const BFSLIM := 511
  const BFSBUF := 512

  function Min(a: int, b: int): int {
    if a <= b then a else b
  }

  /** What storing a length into a 16-bit short keeps. */
  function Short(n: nat): (r: int)
    ensures -32768 <= r <= 32767
  {
    if n <= 32767 then n else if n <= 65535 then n - 65536 else Short(n - 65536)
  }

  // ----- What "line l of a file" means --------------------------------------------------------

  /** A line starts at the first byte and after every newline that is not the last byte. */
  predicate IsStart(f: seq<char>, q: int) {
    0 <= q < |f| && (q == 0 || f[q - 1] == '\n')
  }

  /** The line starts among the first p bytes, in order. */
  function Starts(f: seq<char>, p: nat): (st: seq<int>)
    requires p <= |f|
    ensures |st| <= p && (|st| == 0 <==> p == 0)
  {
    if p == 0 then [] else Starts(f, p - 1) + if IsStart(f, p - 1) then [p - 1] else []
  }

  function NumLines(f: seq<char>): nat {
    |Starts(f, |f|)|
  }

  /** Where line l (numbered from 1) starts; the line after the last starts at end of file. */
  function Start(f: seq<char>, l: int): (p: int)
    requires 1 <= l <= NumLines(f) + 1
  {
    if l <= NumLines(f) then Starts(f, |f|)[l - 1] else |f|
  }

  /** The starts are exactly the start positions, each once, in increasing order. */
  lemma {:induction false} StartsAreAll(f: seq<char>, p: nat)
    requires p <= |f|
    ensures var st := Starts(f, p);
      && (forall i :: 0 <= i < |st| ==> IsStart(f, st[i]) && st[i] < p)
      && (forall i, j :: 0 <= i < j < |st| ==> st[i] < st[j])
      && (p > 0 ==> st[0] == 0)
    ensures forall q :: 0 <= q < p && IsStart(f, q) ==> q in Starts(f, p)
  {
    if p > 0 {
      StartsAreAll(f, p - 1);
    }
  }

  lemma {:induction false} StartsGrow(f: seq<char>, p: nat, r: nat)
    requires p <= r <= |f|
    ensures Starts(f, p) <= Starts(f, r)
  {
    if p < r {
      StartsGrow(f, p, r - 1);
    }
  }

  /** Between two consecutive starts there is no other. */
  lemma NoStartBetween(f: seq<char>, p: nat, i: nat, q: int)
    requires p <= |f| && i < |Starts(f, p)|
    requires Starts(f, p)[i] < q < (if i + 1 < |Starts(f, p)| then Starts(f, p)[i + 1] else p)
    ensures 1 <= q <= |f| && f[q - 1] != '\n'
  {
    StartsAreAll(f, p);
    var _ := IsStart(f, q);
  }

  function Slice(f: seq<char>, a: int, b: int): seq<char> {
    if 0 <= a <= b <= |f| then f[a..b] else []
  }

  function Line(f: seq<char>, l: int): seq<char>
    requires 1 <= l <= NumLines(f)
  {
    Slice(f, Start(f, l), Start(f, l + 1))
  }

  predicate Ended(line: seq<char>) {
    line != [] && line[|line| - 1] == '\n'
  }

  lemma StartsInOrder(f: seq<char>, l: int)
    requires 1 <= l <= NumLines(f)
    ensures Start(f, 1) == 0 && Start(f, NumLines(f) + 1) == |f|
    ensures 0 <= Start(f, l) < Start(f, l + 1) <= |f|
    ensures l < NumLines(f) ==> f[Start(f, l + 1) - 1] == '\n'
  {
    StartsAreAll(f, |f|);
    var st := Starts(f, |f|);
    assert IsStart(f, st[l - 1]);
    if l < NumLines(f) {
      assert IsStart(f, st[l]);
    }
  }

  /** The lines tile the file; a newline can only be the last byte of a line, and is the last byte
      of every line but perhaps the last one. */
  lemma LinesTile(f: seq<char>, l: int)
    requires 1 <= l <= NumLines(f)
    ensures Start(f, 1) == 0 && Start(f, NumLines(f) + 1) == |f|
    ensures 0 <= Start(f, l) < Start(f, l + 1) == Start(f, l) + |Line(f, l)| <= |f|
    ensures forall k :: 0 <= k < |Line(f, l)| ==> Line(f, l)[k] == f[Start(f, l) + k]
    ensures forall k :: 0 <= k < |Line(f, l)| - 1 ==> Line(f, l)[k] != '\n'
    ensures Ended(Line(f, l)) <==> l < NumLines(f) || Ended(f)
  {
    StartsInOrder(f, l);
    forall k | 0 <= k < |Line(f, l)| - 1
      ensures Line(f, l)[k] != '\n'
    {
      NoStartBetween(f, |f|, l - 1, Start(f, l) + k + 1);
    }
  }

  /** A line as bigread leaves it in the caller's buffer: terminated by a null instead of its
      newline when both fit in 512 bytes, otherwise its first 512 bytes. */
  function Delivered(line: seq<char>): (r: seq<char>)
    ensures |r| <= BFSBUF
  {
    if |line| <= BFSLIM + 1 && Ended(line) then line[..|line| - 1] + ['\0'] else line[..Min(|line|, BFSLIM + 1)]
  }

  /** A null-terminated string read from a fixed buffer. */
  function CString(s: seq<char>): (r: seq<char>)
    ensures r <= s && '\0' !in r
    ensures r == s || s[|r|] == '\0'
  {
    if s == [] || s[0] == '\0' then [] else [s[0]] + CString(s[1..])
  }

  lemma {:induction false} CStringPrefix(s: seq<char>, t: seq<char>)
    requires '\0' in s
    ensures CString(s + t) == CString(s)
  {
    if s[0] != '\0' {
      assert (s + t)[1..] == s[1..] + t;
      CStringPrefix(s[1..], t);
    }
  }

  lemma {:induction false} CStringAfter(s: seq<char>, t: seq<char>)
    requires '\0' !in s
    ensures CString(s + t) == s + CString(t)
  {
    if s == [] {
      assert s + t == t;
    } else {
      assert (s + t)[1..] == s[1..] + t;
      CStringAfter(s[1..], t);
    }
  }

  // ----- The table of line lengths ------------------------------------------------------------

  function Zeros(n: nat): (z: seq<int>)
    ensures |z| == n
  {
    seq(n, _ => 0)
  }

  /** Table slots gained by the time `l` lines have started: the l-th start grows a full table. */
  function Space(l: nat): nat {
    if l == 0 then 4096 else Space(l - 1) + (if l > 1 && (l - 1) % 4096 == 0 then 4096 else 0)
  }

  /** The growth keeps step with the lines: the slot about to be written is always there. */
  lemma {:induction false} SpaceSuffices(l: nat)
    ensures l < Space(l + 1) && (l % 4096 != 0 ==> l < Space(l))
  {
    SpaceIs(l, l / 4096);
  }

  lemma {:induction false} SpaceIs(l: nat, q: nat)
    requires 4096 * q <= l < 4096 * q + 4096
    ensures Space(l) == if l == 0 || 4096 * q < l then 4096 * q + 4096 else 4096 * q
  {
    if l > 0 {
      SpaceIs(l - 1, if 4096 * q < l then q else q - 1);
    }
  }

  /** A table entry holds length n, as far as a short can. */
  predicate Holds(v: int, n: int) {
    n >= 0 && v == Short(n)
  }

  /** The table holds, cut to 16 bits, the lengths of the lines that start at st[0], st[1], ...
      up to line `stored`; `end` is where the last of the lines ends. */
  ghost predicate LengthsOk(st: seq<int>, end: int, tab: seq<int>, stored: nat) {
    && stored <= |st|
    && |tab| > stored
    && forall i {:trigger tab[i]} :: 1 <= i <= stored ==> Holds(tab[i], (if i < |st| then st[i] else end) - st[i - 1])
  }

  /** Storing the length of the last line scanned, in a table that may just have grown. */
  lemma StoreLength(st: seq<int>, p: int, tab: seq<int>, more: seq<int>, v: int)
    requires LengthsOk(st, p, tab, if |st| == 0 then 0 else |st| - 1) && |st| < |tab + more|
    requires |st| > 0 ==> Holds(v, p - st[|st| - 1])
    ensures LengthsOk(st, p, (tab + more)[|st| := v], |st|)
  {
  }

  /** A table of shorts tells the true lengths exactly when none exceeds 32767. */
  lemma LengthsTrue(f: seq<char>, tab: seq<int>)
    requires LengthsOk(Starts(f, |f|), |f|, tab, NumLines(f))
    ensures (forall l {:trigger tab[l]} :: 1 <= l <= NumLines(f) ==> tab[l] == Start(f, l + 1) - Start(f, l)) <==>
            (forall l :: 1 <= l <= NumLines(f) ==> |Line(f, l)| <= 32767)
  {
    forall l | 1 <= l <= NumLines(f)
      ensures tab[l] == Start(f, l + 1) - Start(f, l) <==> |Line(f, l)| <= 32767
    {
      LinesTile(f, l);
    }
  }

  // ----- The order in which a search visits the lines -------------------------------------------

  /** The k-th line visited from `start` when the file is taken as a ring. */
  function Visit(start: nat, down: bool, dollar: nat, k: nat): (l: int)
    ensures (if down then 0 else 1) <= start <= dollar && 1 <= k <= dollar ==> 1 <= l <= dollar
  {
    if down then (if start + k <= dollar then start + k else start + k - dollar)
    else (if start - k >= 1 then start - k else start - k + dollar)
  }

  /** How many lines a search may visit: the whole ring, or only up to the end it walks toward. */
  function Reach(start: nat, down: bool, wrap: bool, dollar: nat): int {
    if wrap then dollar else if down then dollar - start else start - 1
  }

  /** Line l lies strictly between lines start and r in the direction of a search, going round. */
  predicate Between(start: int, down: bool, l: int, r: int) {
    if down then (if start < r then start < l < r else l > start || l < r)
    else if r < start then r < l < start
    else l < start || l > r
  }

  /** When a line has its turn. */
  function Turn(start: nat, down: bool, dollar: nat, l: int): (k: nat)
    requires (if down then 0 else 1) <= start <= dollar && 1 <= l <= dollar
    ensures 1 <= k <= dollar && Visit(start, down, dollar, k) == l
  {
    if down then (if l > start then l - start else l - start + dollar)
    else if l < start then start - l
    else start - l + dollar
  }

  /** The visit order is a ring: it meets every line exactly once and ends at `start` itself. */
  lemma VisitIsRing(start: nat, down: bool, dollar: nat, l: nat)
    requires 1 <= start <= dollar && 1 <= l <= dollar
    ensures exists k :: 1 <= k <= dollar && Visit(start, down, dollar, k) == l
    ensures forall j, k :: 1 <= j < k <= dollar ==> Visit(start, down, dollar, j) != Visit(start, down, dollar, k)
    ensures Visit(start, down, dollar, dollar) == start
  {
    var k := if down then (if l > start then l - start else l - start + dollar)
             else (if l < start then start - l else start - l + dollar);
    assert Visit(start, down, dollar, k) == l;
  }

  class Reader {
    const file: seq<char>
    const segblk: array<int>
    const segoff: array<int>
    const savetxt: array<char>
    var lincnt: seq<int>      // the data segment that sbrk extends in place
    var Dot: int
    var Dollar: int
    var txtpos: nat           // position of descriptor txtfd
    var lprev: int
    var prevblk: int
    var prevoff: int
    var saveblk: int

    predicate Separate() {
      segblk != segoff && segblk.Length == 512 && segoff.Length == 512 && savetxt.Length == 512
    }

    predicate Fresh()
      reads `txtpos, `lprev, `prevblk, `prevoff, `saveblk
    {
      Separate() && txtpos == 0 && lprev == 1 && prevblk == 0 && prevoff == 0 && saveblk == -1
    }

    /** The first `s` slots of the index say where lines 1, 65, 129, ... start. */
    ghost predicate Index(st: seq<int>, s: int)
      reads segblk, segoff
    {
      && Separate()
      && 0 <= s <= 512
      && 64 * s - 64 < |st| <= 64 * s
      && forall t {:trigger segblk[t]} {:trigger segoff[t]} :: 0 <= t < s ==>
            0 <= segoff[t] < 512 && segblk[t] >= 0 && segblk[t] * 512 + segoff[t] == st[64 * t]
    }

    ghost predicate WholeIndex()
      reads segblk, segoff
    {
      exists s :: Index(Starts(file, |file|), s)
    }

    /** Both tables tell the truth about the whole file. */
    ghost predicate Indexed()
      reads `lincnt, `Dollar, segblk, segoff
    {
      && Dollar == NumLines(file) <= MAXLINES
      && WholeIndex()
      && |lincnt| > Dollar
      && forall l {:trigger lincnt[l]} :: 1 <= l <= Dollar ==> lincnt[l] == Start(file, l + 1) - Start(file, l)
    }

    /** The cached block holds the bytes of block saveblk that exist, and the descriptor is just past it. */
    ghost predicate Cached()
      reads `saveblk, `txtpos, savetxt
    {
      && savetxt.Length == 512
      && saveblk >= 0
      && (forall k {:trigger savetxt[k]} :: 0 <= k < 512 && 512 * saveblk + k < |file| ==>
            savetxt[k] == file[512 * saveblk + k])
      && txtpos == Min(|file|, 512 * (saveblk + 1))
    }

    ghost predicate Positioned()
      reads `lprev, `prevblk, `prevoff
    {
      && 1 <= lprev <= NumLines(file) + 1
      && prevblk >= 0
      && 0 <= prevoff < 512
      && 512 * prevblk + prevoff == Start(file, lprev)
    }

    ghost predicate Valid()
      reads this, segblk, segoff, savetxt
    {
      Indexed() && Positioned() && saveblk >= -1 && (saveblk >= 0 ==> Cached())
    }

    constructor (file: seq<char>)
      ensures Fresh() && this.file == file
      ensures fresh(segblk) && fresh(segoff) && fresh(savetxt)
    {
      this.file := file;
      segblk, segoff, savetxt := new int[512], new int[512], new char[512](_ => '\0');
      lincnt, Dot, Dollar := [], 0, 0;
      txtpos, lprev, prevblk, prevoff, saveblk := 0, 1, 0, 0, -1;
    }

    /** read(txtfd, buf, 512): what is left of the buffer beyond end of file stays as it was. */
    method Read(buf: array<char>) returns (n: nat)
      requires buf.Length == 512
      modifies this`txtpos, buf
      ensures n == if old(txtpos) >= |file| then 0 else Min(512, |file| - old(txtpos))
      ensures txtpos == old(txtpos) + n
      ensures forall k :: 0 <= k < n ==> buf[k] == file[old(txtpos) + k]
      ensures forall k :: n <= k < 512 ==> buf[k] == old(buf[k])
    {
      n := if txtpos >= |file| then 0 else Min(512, |file| - txtpos);
      for i := 0 to n
        invariant txtpos == old(txtpos)
        invariant forall k :: 0 <= k < i ==> buf[k] == file[txtpos + k]
        invariant forall k :: i <= k < 512 ==> buf[k] == old(buf[k])
      {
        buf[i] := file[txtpos + i];
      }
      txtpos := txtpos + n;
    }

    /** Index every 64th line. */
    method StartSegment(blk: nat, off: nat, l: nat, s: nat, ghost st: seq<int>) returns (s': nat)
      requires off < 512 && l == |st| <= MAXLINES && Index(st, s)
      modifies segblk, segoff
      ensures Index(st + [blk * 512 + off], s')
    {
      s' := s;
      if l % 64 == 0 {
        segblk[s'], segoff[s'] := blk, off;
        s' := s' + 1;
      }
    }

    /** Both tables, once the lines that start at `st` are scanned up to `p`. */
    ghost predicate Tables(st: seq<int>, p: int, s: int)
      reads `lincnt, segblk, segoff
    {
      LengthsOk(st, p, lincnt, if |st| == 0 then 0 else |st| - 1) && Index(st, s) && |lincnt| == Space(|st|)
    }

    /** Open a line at the byte about to be counted: store the length of the finished line and
        index every 64th line.  Fails beyond 32767 lines. */
    method StartLine(blk: nat, off: nat, l: nat, cnt: nat, s: nat, ghost st: seq<int>) returns (s': nat, ok: bool)
      requires off < 512 && l == |st| <= MAXLINES && Tables(st, blk * 512 + off, s)
      requires l > 0 ==> cnt == blk * 512 + off - st[l - 1]
      modifies this`lincnt, segblk, segoff
      ensures ok <==> l + 1 <= MAXLINES
      ensures Tables(st + [blk * 512 + off], blk * 512 + off + 1, s')
    {
      SpaceSuffices(l);
      var more := if l > 0 && l % 4096 == 0 then Zeros(4096) else [];
      StoreLength(st, blk * 512 + off, lincnt, more, Short(cnt));
      lincnt := (lincnt + more)[l := Short(cnt)];
      s' := StartSegment(blk, off, l, s, st);
      ok := l + 1 <= MAXLINES;
    }

    /** The locals of the scan, once `p` bytes are behind it. */
    ghost predicate Scanned(p: nat, l: nat, cnt: int, s: int, newline: bool)
      reads `lincnt, segblk, segoff
    {
      && p <= |file|
      && var st := Starts(file, p);
      && l == |st| <= MAXLINES
      && cnt == (if l == 0 then 0 else p - st[l - 1])
      && (newline <==> (p == 0 || file[p - 1] == '\n'))
      && Tables(st, p, s)
    }

    /** Count one byte of the file. */
    method ScanByte(blk: nat, off: nat, ghost p: nat, c: char, l: nat, cnt: nat, s: nat, newline: bool)
      returns (l': nat, cnt': nat, s': nat, newline': bool, ok: bool)
      requires off < 512 && p == blk * 512 + off < |file| && c == file[p]
      requires Scanned(p, l, cnt, s, newline)
      modifies this`lincnt, segblk, segoff
      ensures ok ==> Scanned(p + 1, l', cnt', s', newline')
      ensures !ok ==> NumLines(file) > MAXLINES
    {
      l', cnt', s', newline', ok := l, cnt, s, newline, true;
      if newline' {
        newline' := false;
        s', ok := StartLine(blk, off, l, cnt, s, Starts(file, p));
        cnt' := 0;
        l' := l' + 1;
        if !ok {
          StartsGrow(file, p + 1, |file|);
          return;
        }
      }
      if c == '\n' {
        newline' := true;
      }
      cnt' := cnt' + 1;
    }

    /** Count the bytes of one block. */
    method ScanBlock(block: array<char>, n: nat, blk: nat, l0: nat, cnt0: nat, s0: nat, newline0: bool)
      returns (l: nat, cnt: nat, s: nat, newline: bool, ok: bool)
      requires block.Length == 512 && n <= 512 && blk * 512 + n <= |file|
      requires forall k :: 0 <= k < n ==> block[k] == file[blk * 512 + k]
      requires Scanned(blk * 512, l0, cnt0, s0, newline0)
      modifies this`lincnt, segblk, segoff
      ensures ok ==> Scanned(blk * 512 + n, l, cnt, s, newline)
      ensures !ok ==> NumLines(file) > MAXLINES
    {
      l, cnt, s, newline, ok := l0, cnt0, s0, newline0, true;
      var off := 0;
      ghost var p := blk * 512;
      while off < n
        invariant 0 <= off <= n && p == blk * 512 + off && ok
        invariant Scanned(p, l, cnt, s, newline)
      {
        l, cnt, s, newline, ok := ScanByte(blk, off, p, block[off], l, cnt, s, newline);
        if !ok {
          return;
        }
        off, p := off + 1, p + 1;
      }
    }

    /** At end of file the length of the last line is stored too. */
    method Finish(l: nat, cnt: nat, s: nat, newline: bool)
      requires Scanned(|file|, l, cnt, s, newline)
      modifies this`lincnt, this`Dollar, this`Dot
      ensures Dot == Dollar == NumLines(file) <= MAXLINES
      ensures LengthsOk(Starts(file, |file|), |file|, lincnt, Dollar) && WholeIndex()
      ensures Indexed() <==> forall l :: 1 <= l <= Dollar ==> |Line(file, l)| <= 32767
    {
      SpaceSuffices(l);
      var more := if l % 4096 == 0 then Zeros(2) else [];
      StoreLength(Starts(file, |file|), |file|, lincnt, more, Short(cnt));
      lincnt := (lincnt + more)[l := Short(cnt)];
      Dollar, Dot := l, l;
      LengthsTrue(file, lincnt);
    }

    /** Read and count block after block, up to end of file or one line too many. */
    method ScanFile() returns (blk: int, off: int, l: nat, cnt: nat, s: nat, newline: bool, ok: bool)
      requires Separate() && txtpos == 0
      modifies this`lincnt, this`txtpos, segblk, segoff
      ensures ok ==> 512 * blk + off == |file| && Scanned(|file|, l, cnt, s, newline)
      ensures !ok ==> NumLines(file) > MAXLINES
    {
      blk, off := -1, 512;
      l, cnt, s, newline, ok := 0, 0, 0, true, true;
      var block := new char[512];
      lincnt := Zeros(4096);
      ghost var p := 0;
      var n := Read(block);
      while n > 0
        invariant fresh(block) && ok
        invariant 0 <= p <= |file| && p == blk * 512 + off
        invariant txtpos == p + n && n == Min(512, |file| - p) && (n > 0 ==> off == 512)
        invariant forall k :: 0 <= k < n ==> block[k] == file[p + k]
        invariant Scanned(p, l, cnt, s, newline) == true
        decreases |file| - p
      {
        blk := blk + 1;
        off := n;
        l, cnt, s, newline, ok := ScanBlock(block, n, blk, l, cnt, s, newline);
        if !ok {
          return;
        }
        p := p + n;
        n := Read(block);
      }
    }

    /** Scan the whole file once.  Returns 0 and the size it prints, or -1 for too many lines. */
    method BigOpen() returns (rc: int, size: int)
      requires Fresh()
      modifies this, segblk, segoff
      ensures rc == 0 || rc == -1
      ensures rc == 0 <==> NumLines(file) <= 32767
      ensures rc == 0 ==>
        && size == |file|
        && Dot == Dollar == NumLines(file)
        && LengthsOk(Starts(file, |file|), |file|, lincnt, Dollar)
        && WholeIndex()
        && (Valid() <==> forall l :: 1 <= l <= Dollar ==> |Line(file, l)| <= 32767)
    {
      var blk, off, l, cnt, s, newline, ok := ScanFile();
      if !ok {
        return -1, 0;
      }
      Finish(l, cnt, s, newline);
      StartsAreAll(file, |file|);
      assert Positioned();
      return 0, 512 * blk + off;
    }

    /** Move prevblk/prevoff from the start of line lprev to the start of line l: over the next
        line, up to 32 lines forward or back, or forward from the nearest indexed line.  prevoff
        may leave 0..511, and may turn negative. */
    method Walk(l: int)
      requires Valid() && 1 <= l <= Dollar
      modifies this`prevblk, this`prevoff
      ensures 512 * prevblk + prevoff == Start(file, l)
    {
      hide Cached;
      hide Starts;
      var i := l - lprev;
      if i == 1 {
        prevoff := prevoff + lincnt[lprev];
      } else if 0 <= i <= 32 {
        i := lprev;
        while i < l
          invariant lprev <= i <= l && 512 * prevblk + prevoff == Start(file, i)
        {
          prevoff := prevoff + lincnt[i];
          i := i + 1;
        }
      } else if -32 <= i < 0 {
        i := lprev - 1;
        while i >= l
          invariant l - 1 <= i < lprev && 512 * prevblk + prevoff == Start(file, i + 1)
        {
          prevoff := prevoff - lincnt[i];
          i := i - 1;
        }
      } else {
        i := (l - 1) / 64;
        prevblk := segblk[i];
        prevoff := segoff[i];
        i := i * 64 + 1;
        while i < l
          invariant 1 <= i <= l && 512 * prevblk + prevoff == Start(file, i)
        {
          prevoff := prevoff + lincnt[i];
          i := i + 1;
        }
      }
    }

    /** Bring block prevblk into the cache unless it is there already. */
    method Seek()
      requires saveblk >= 0 ==> Cached()
      requires Separate() && 0 <= prevblk && saveblk >= -1 && 512 * prevblk < |file|
      modifies this`saveblk, this`txtpos, savetxt
      ensures saveblk == prevblk && Cached()
      ensures forall k :: 0 <= k < 512 && 512 * prevblk + k >= |file| ==> savetxt[k] == old(savetxt[k])
    {
      if prevblk != saveblk {
        saveblk := prevblk;
        txtpos := saveblk * 512;
        var n := Read(savetxt);
      }
    }

    /** The byte the copy loop takes from file position q: past end of file, whatever is stale. */
    ghost function At(q: nat): char
      reads savetxt
    {
      if q < |file| then file[q] else if savetxt.Length == 512 then savetxt[q % 512] else ' '
    }

    /** Go on to the next block; past end of file the cache keeps its stale bytes. */
    method NextBlock()
      requires Cached()
      modifies this`saveblk, this`txtpos, savetxt
      ensures Cached() && saveblk == old(saveblk) + 1
      ensures forall q: nat :: q < 512 * saveblk ==> At(q) == old(At(q))
      ensures forall k :: 0 <= k < 512 && 512 * saveblk + k >= |file| ==> savetxt[k] == old(savetxt[k])
    {
      var n := Read(savetxt);
      saveblk := saveblk + 1;
    }

    lemma CachedByte(b: nat, q: nat)
      requires Cached() && b < 512 && 512 * saveblk + b == q
      ensures savetxt[b] == At(q)
    {
    }

    ghost predicate Copied(rec: array<char>, start: nat, r: nat)
      reads rec, savetxt
    {
      r <= rec.Length && forall k {:trigger rec[k]} :: 0 <= k < r ==> rec[k] == At(start + k) && rec[k] != '\n'
    }

    /** Copy from the cached block, starting at its byte `off`, until a newline, 512 bytes in rec,
        or the end of the block. */
    method CopyBlock(rec: array<char>, start: nat, r0: nat, off: nat) returns (r: nat, done: bool, truncated: bool)
      requires savetxt.Length == 512 && rec.Length >= BFSBUF && rec != savetxt && r0 < 512
      requires Cached() && 512 * saveblk + off == start + r0 && off < 512
      requires Copied(rec, start, r0)
      modifies rec
      ensures r0 < r <= 512 && 512 * saveblk < start + r <= 512 * saveblk + 512
      ensures Copied(rec, start, if done && !truncated then r - 1 else r)
      ensures !done ==> r < 512 && 512 * saveblk + 512 == start + r
      ensures done && truncated ==> r == 512
      ensures done && !truncated ==> At(start + r - 1) == '\n' && rec[r - 1] == '\0'
      ensures forall k :: r <= k < rec.Length ==> rec[k] == old(rec[k])
    {
      hide Cached;
      hide At;
      r := r0;
      var b := off;
      while b < 512
        invariant off <= b <= 512 && 512 * saveblk + b == start + r && r < 512
        invariant Cached()
        invariant Copied(rec, start, r)
        invariant forall k :: r <= k < rec.Length ==> rec[k] == old(rec[k])
      {
        CachedByte(b, start + r);
        rec[r] := savetxt[b];
        r := r + 1;
        if rec[r - 1] == '\n' {
          rec[r - 1] := '\0';
          return r, true, false;
        }
        if r > BFSLIM {
          return r, true, true;
        }
        b := b + 1;
      }
      return r, false, false;
    }

    /** Copy bytes from position `start` into rec, up to a newline or 512 bytes. */
    method CopyLine(rec: array<char>, start: nat, ghost b: nat, ghost e: nat) returns (r: nat, truncated: bool)
      requires rec.Length >= BFSBUF && rec != savetxt && |file| == 512 * b + e && e < 512
      requires Cached() && 512 * saveblk <= start < 512 * saveblk + 512
      modifies this`saveblk, this`txtpos, savetxt, rec
      ensures Cached()
      ensures 1 <= r <= 512
      ensures Copied(rec, start, if truncated then r else r - 1)
      ensures if truncated then r == 512 else At(start + r - 1) == '\n' && rec[r - 1] == '\0'
      ensures 512 * saveblk < start + r <= 512 * saveblk + 512
      ensures forall k :: r <= k < rec.Length ==> rec[k] == old(rec[k])
      ensures old(saveblk) >= b ==> savetxt[e] == old(savetxt[e])
      ensures old(saveblk) < b && start + r > |file| ==> savetxt[e] == file[|file| - 512]
      ensures old(saveblk) < b && saveblk < b ==> savetxt[e] == file[512 * saveblk + e]
      ensures old(saveblk) < b <= saveblk ==> savetxt[e] == file[|file| - 512]
    {
      r := 0;
      var off := start - 512 * saveblk;
      while true
        invariant 0 <= off < 512 && 512 * saveblk + off == start + r && r < 512
        invariant Cached() && saveblk >= old(saveblk)
        invariant old(saveblk) >= b ==> savetxt[e] == old(savetxt[e])
        invariant old(saveblk) < b <= saveblk ==> savetxt[e] == file[|file| - 512]
        invariant Copied(rec, start, r)
        invariant forall k :: r <= k < rec.Length ==> rec[k] == old(rec[k])
        decreases 512 - r
      {
        var done;
        r, done, truncated := CopyBlock(rec, start, r, off);
        if done {
          return;
        }
        NextBlock();
        off := 0;
      }
    }

    /** What the cache holds in the place behind the last byte of the file. */
    ghost function Edge(): char
      requires savetxt.Length == 512
      reads savetxt
    {
      savetxt[|file| % 512]
    }

    /** The byte that is found behind the last line when it does not end in a newline, where c is what
        the cache holds there before: a line that starts in the block where the file ends is followed by
        that, any other by a byte of the block before. */
    ghost function StaleOf(l: int, c: char): char
      requires 1 <= l <= NumLines(file)
    {
      if Start(file, l) / 512 == |file| / 512 || |file| < 512 then c else file[|file| - 512]
    }

    ghost function Stale(l: int): char
      requires 1 <= l <= NumLines(file) && savetxt.Length == 512
      reads savetxt
    {
      StaleOf(l, Edge())
    }

    /** The block in which the last delivered byte of a line is. */
    ghost function LastBlock(l: int): nat
      requires 1 <= l <= NumLines(file)
    {
      var q := Start(file, l) + |Delivered(Line(file, l))|;
      if q <= 0 then 0 else (q - 1) / 512
    }

    /** What the cache holds behind the end of the file after line l was read, where c is what it held
        before: only blocks before the one where the file ends bring something there. */
    ghost function EdgeAfter(l: int, c: char): char
      requires 1 <= l <= NumLines(file)
    {
      if Start(file, l) / 512 == |file| / 512 || |file| < 512 then c
      else if LastBlock(l) < |file| / 512 then file[512 * LastBlock(l) + |file| % 512]
      else file[|file| - 512]
    }

    lemma StaleIs(l: int, b: nat, e: nat)
      requires 1 <= l <= NumLines(file) && savetxt.Length == 512 && |file| == 512 * b + e && e < 512
      ensures |file| / 512 == b && |file| % 512 == e
      ensures Start(file, l) >= 512 * b ==> Stale(l) == savetxt[e]
      ensures Start(file, l) < 512 * b ==> |file| >= 512 && Stale(l) == file[|file| - 512]
      ensures Edge() == savetxt[e]
    {
      StartsInOrder(file, l);
    }

    /** What bigread leaves in the caller's buffer for line l.  A line that ends in a newline, or
        is at least 512 bytes long, arrives exactly.  A short last line without newline arrives
        too, followed by the stale byte. */
    ghost predicate Delivers(l: int, rec: array<char>, truncated: bool, stale: char)
      requires 1 <= l <= NumLines(file) && rec.Length >= BFSBUF
      reads rec
    {
      var line := Line(file, l);
      if Ended(line) || |line| >= 512 then
        && (truncated <==> |line| > 512 || !Ended(line))
        && forall k :: 0 <= k < |Delivered(line)| ==> rec[k] == Delivered(line)[k]
      else
        && (forall k :: 0 <= k < |line| ==> rec[k] == line[k])
        && rec[|line|] == (if stale == '\n' then '\0' else stale)
    }

    /** A short last line without newline is delivered as it is exactly when the stale byte is a
        null or a newline. */
    lemma TailWhole(l: int, rec: array<char>, truncated: bool, stale: char)
      requires 1 <= l <= NumLines(file) && rec.Length >= BFSBUF && Delivers(l, rec, truncated, stale)
      requires !Ended(Line(file, l)) && |Line(file, l)| < 512
      ensures CString(Line(file, l)) <= CString(rec[..512])
      ensures '\0' in Line(file, l) ==> CString(rec[..512]) == CString(Line(file, l))
      ensures '\0' !in Line(file, l) ==>
                (CString(rec[..512]) == Line(file, l) <==> stale == '\0' || stale == '\n')
    {
      var line, n := Line(file, l), |Line(file, l)|;
      assert rec[..512] == line + rec[n..512];
      if '\0' in line {
        CStringPrefix(line, rec[n..512]);
      } else {
        CStringAfter(line, rec[n..512]);
        assert rec[n..512][0] == rec[n];
      }
    }

    /** Copy line l, whose first byte is at position `start` in the cached block. */
    method CopyOut(l: int, rec: array<char>, start: nat) returns (truncated: bool)
      requires 1 <= l <= NumLines(file) && start == Start(file, l) && rec.Length >= BFSBUF && rec != savetxt
      requires Cached() && 512 * saveblk <= start < 512 * saveblk + 512
      modifies this`saveblk, this`txtpos, savetxt, rec
      ensures Cached() && Delivers(l, rec, truncated, old(Stale(l))) && Edge() == EdgeAfter(l, old(Edge()))
      ensures Ended(Line(file, l)) ==>
                512 * saveblk < Start(file, l) + |Delivered(Line(file, l))| <= 512 * saveblk + 512
      ensures forall k :: 512 <= k < rec.Length ==> rec[k] == old(rec[k])
    {
      hide Stale;
      LinesTile(file, l);
      ghost var b, e := |file| / 512, |file| % 512;
      StaleIs(l, b, e);
      var r;
      ghost var was := Edge();
      r, truncated := CopyLine(rec, start, b, e);
      Arrived(l, start, rec, r, truncated, e, old(Stale(l)));
      EdgeMoved(l, r, was, b, e);
    }

    lemma EdgeMoved(l: int, r: nat, was: char, b: nat, e: nat)
      requires 1 <= l <= NumLines(file) && savetxt.Length == 512 && |file| == 512 * b + e && e < 512
      requires saveblk >= 0 && 512 * saveblk < Start(file, l) + r <= 512 * saveblk + 512
      requires if Ended(Line(file, l)) || |Line(file, l)| >= 512 then r == |Delivered(Line(file, l))|
               else Start(file, l) + r > |file|
      requires Start(file, l) >= 512 * b ==> savetxt[e] == was
      requires Start(file, l) < 512 * b && saveblk < b ==> savetxt[e] == file[512 * saveblk + e]
      requires Start(file, l) < 512 * b && b <= saveblk ==> |file| >= 512 && savetxt[e] == file[|file| - 512]
      ensures Edge() == EdgeAfter(l, was)
    {
      StartsInOrder(file, l);
      BlockOf(|file|, b);
      BlockOf(Start(file, l), Start(file, l) / 512);
      var q := Start(file, l) + |Delivered(Line(file, l))|;
      if Ended(Line(file, l)) || |Line(file, l)| >= 512 {
        BlockOf(q - 1, saveblk);
      } else {
        TailDelivered(l);
        BlockOf(|file| - 1, if e == 0 then b - 1 else b);
      }
    }

    lemma TailDelivered(l: int)
      requires 1 <= l <= NumLines(file) && !Ended(Line(file, l)) && |Line(file, l)| < 512
      ensures Start(file, l) + |Delivered(Line(file, l))| == |file|
    {
      LinesTile(file, l);
    }

    lemma BlockOf(q: int, b: int)
      requires 512 * b <= q < 512 * b + 512
      ensures q / 512 == b && q % 512 == q - 512 * b
    {
    }

    /** The copied bytes are the line, up to its newline, its 512th byte, or the end of the file. */
    lemma Arrived(l: int, start: nat, rec: array<char>, r: nat, truncated: bool, e: nat, stale: char)
      requires 1 <= l <= NumLines(file) && rec.Length >= BFSBUF && savetxt.Length == 512 && 1 <= r <= 512
      requires start == Start(file, l) && Copied(rec, start, if truncated then r else r - 1)
      requires if truncated then r == 512 else At(start + r - 1) == '\n' && rec[r - 1] == '\0'
      requires e == |file| % 512 && (start + r > |file| ==> savetxt[e] == stale)
      ensures Delivers(l, rec, truncated, stale)
      ensures if Ended(Line(file, l)) || |Line(file, l)| >= 512 then r == |Delivered(Line(file, l))|
              else start + r > |file|
    {
      LinesTile(file, l);
      var line := Line(file, l);
      forall k | 0 <= k < r && k < |line|
        ensures rec[k] == line[k] || (k == r - 1 && !truncated && line[k] == '\n')
      {
        assert line[k] == At(start + k);
      }
      if |line| < r {
        assert rec[|line| - 1] == line[|line| - 1];
      }
    }

    /** Bring the block of line l into the cache; the stale byte behind the line stays as it was. */
    method SeekLine(l: int)
      requires saveblk >= 0 ==> Cached()
      requires Separate() && 0 <= prevblk && saveblk >= -1 && 1 <= l <= NumLines(file)
      requires 512 * prevblk <= Start(file, l) < 512 * prevblk + 512
      modifies this`saveblk, this`txtpos, savetxt
      ensures saveblk == prevblk && Cached() && Stale(l) == old(Stale(l))
      ensures EdgeAfter(l, Edge()) == EdgeAfter(l, old(Edge()))
    {
      hide Stale;
      ghost var b, e := |file| / 512, |file| % 512;
      StartsInOrder(file, l);
      StaleIs(l, b, e);
      Seek();
      StaleIs(l, b, e);
    }

    /** Deliver line l, from wherever the previous call left off. */
    method BigRead(l: int, rec: array<char>) returns (truncated: bool)
      requires Valid() && 1 <= l <= Dollar
      requires rec.Length >= BFSBUF && rec != savetxt
      modifies this`prevblk, this`prevoff, this`lprev, this`saveblk, this`txtpos, savetxt, rec
      ensures Valid() && lprev == l && Delivers(l, rec, truncated, old(Stale(l)))
      ensures Edge() == EdgeAfter(l, old(Edge()))
      ensures Ended(Line(file, l)) ==>
                512 * saveblk < Start(file, l) + |Delivered(Line(file, l))| <= 512 * saveblk + 512
      ensures forall k :: 512 <= k < rec.Length ==> rec[k] == old(rec[k])
    {
      hide Stale;
      hide Delivers;
      hide Delivered;
      Walk(l);
      StartsInOrder(file, l);
      prevblk := prevblk + prevoff / 512;
      prevoff := prevoff % 512;
      lprev := l;
      SeekLine(l);
      truncated := CopyOut(l, rec, 512 * prevblk + prevoff);
    }

    /** The text a search sees on line l. */
    ghost function Shown(l: int): seq<char>
      requires 1 <= l <= NumLines(file)
    {
      CString(Delivered(Line(file, l)))
    }

    /** Of a line of at most 512 bytes it is what is before the newline, of a longer one the first 512
        bytes; in either case only up to a null. */
    lemma ShownIs(l: int)
      requires 1 <= l <= NumLines(file) && Ended(Line(file, l))
      ensures var line := Line(file, l);
        var text := if |line| <= 512 then line[..|line| - 1] else line[..512];
        Shown(l) <= text && '\0' !in Shown(l) && (Shown(l) == text || text[|Shown(l)|] == '\0')
    {
      var line, d := Line(file, l), Delivered(Line(file, l));
      var t := Shown(l);
      if |line| <= 512 {
        var text := line[..|line| - 1];
        assert d == text + ['\0'];
        assert d[|text|] == '\0' && t != d;
        assert t == d[..|t|] && d[..|d|] == d;
        assert t == d[..|t|] == text[..|t|];
      } else {
        assert d == line[..512];
      }
    }

    /** What a search sees on line l: the line, and behind a short last line without newline nothing more
        exactly when the stale byte is a null or a newline. */
    ghost predicate Saw(l: int, text: seq<char>, stale: char)
      requires 1 <= l <= NumLines(file)
    {
      var line := Line(file, l);
      if Ended(line) || |line| >= 512 then text == Shown(l)
      else
        && CString(line) <= text
        && ('\0' in line ==> text == CString(line))
        && ('\0' !in line ==> (text == line <==> stale == '\0' || stale == '\n'))
    }

    /** What the cache holds behind the end of the file when the k-th line is visited, from what it held
        before the first. */
    ghost function EdgeAt(start: nat, down: bool, k: nat, c: char): char
      requires (if down then 0 else 1) <= start <= NumLines(file) && 1 <= k <= NumLines(file) + 1
      decreases k
    {
      if k == 1 then c else EdgeAfter(Visit(start, down, NumLines(file), k - 1), EdgeAt(start, down, k - 1, c))
    }

    ghost predicate SawAt(start: nat, down: bool, k: nat, c: char, text: seq<char>)
      requires (if down then 0 else 1) <= start <= NumLines(file) && 1 <= k <= NumLines(file)
    {
      var l := Visit(start, down, NumLines(file), k);
      Saw(l, text, StaleOf(l, EdgeAt(start, down, k, c)))
    }

    /** Fetch line l and match what is seen of it. */
    method Probe(l: int, line: array<char>, step: seq<char> -> bool) returns (hit: bool, ghost text: seq<char>)
      requires Valid() && 1 <= l <= Dollar
      requires line.Length == BFSBUF && line != savetxt
      modifies this`prevblk, this`prevoff, this`lprev, this`saveblk, this`txtpos, savetxt, line
      ensures Valid() && Saw(l, text, old(Stale(l))) && (hit <==> step(text))
      ensures Edge() == EdgeAfter(l, old(Edge()))
    {
      ghost var stale := Stale(l);
      var truncated := BigRead(l, line);
      LinesTile(file, l);
      assert line[..512] == line[..];
      text := CString(line[..]);
      if Ended(Line(file, l)) || |Line(file, l)| >= 512 {
        ShownWhole(l, line, truncated, stale);
      } else {
        TailWhole(l, line, truncated, stale);
      }
      hit := step(CString(line[..]));
    }

    lemma ShownWhole(l: int, rec: array<char>, truncated: bool, stale: char)
      requires 1 <= l <= NumLines(file) && rec.Length == BFSBUF && Delivers(l, rec, truncated, stale)
      requires Ended(Line(file, l)) || |Line(file, l)| >= 512
      ensures CString(rec[..]) == Shown(l)
    {
      var d := Delivered(Line(file, l));
      assert rec[..] == d + rec[|d|..];
      if |d| < BFSBUF || '\0' in d {
        CStringPrefix(d, rec[|d|..]);
      } else {
        assert rec[|d|..] == [];
        assert rec[..] == d;
      }
    }

    /** A search that visits lines k0-th to before k1-th and sees `seen` on them ends with r: at the
        first text that matches, or with -1 when none does.  Before the first line of all the cache
        held c behind the end of the file. */
    ghost predicate Searched(step: seq<char> -> bool, start: nat, down: bool, c: char, k0: nat, k1: nat, r: int,
                             seen: seq<seq<char>>)
      requires (if down then 0 else 1) <= start <= NumLines(file) && 1 <= k0 <= k1 <= NumLines(file) + 1
    {
      && |seen| <= k1 - k0
      && (forall j :: 0 <= j < |seen| ==> SawAt(start, down, k0 + j, c, seen[j]))
      && (forall j :: 0 <= j < |seen| - 1 ==> !step(seen[j]))
      && if r == -1 then |seen| == k1 - k0 && (seen != [] ==> !step(seen[|seen| - 1]))
         else seen != [] && r == Visit(start, down, NumLines(file), k0 + |seen| - 1) && step(seen[|seen| - 1])
    }

    lemma SearchedNext(step: seq<char> -> bool, start: nat, down: bool, c: char, k0: nat, k: nat,
                       seen: seq<seq<char>>, r: int, text: seq<char>)
      requires (if down then 0 else 1) <= start <= NumLines(file) && 1 <= k0 <= k <= NumLines(file)
      requires Searched(step, start, down, c, k0, k, -1, seen)
      requires SawAt(start, down, k, c, text)
      requires r == if step(text) then Visit(start, down, NumLines(file), k) else -1
      ensures Searched(step, start, down, c, k0, k + 1, r, seen + [text])
    {
      hide SawAt;
      var all := seen + [text];
      forall j | 0 <= j < |all|
        ensures SawAt(start, down, k0 + j, c, all[j])
      {
        if j < |seen| {
          assert all[j] == seen[j];
        }
      }
    }

    lemma SearchedTwice(step: seq<char> -> bool, start: nat, down: bool, c: char, k0: nat, k: nat, k1: nat,
                        seen: seq<seq<char>>, r: int, more: seq<seq<char>>)
      requires (if down then 0 else 1) <= start <= NumLines(file) && 1 <= k0 <= k <= k1 <= NumLines(file) + 1
      requires Searched(step, start, down, c, k0, k, -1, seen) && Searched(step, start, down, c, k, k1, r, more)
      ensures Searched(step, start, down, c, k0, k1, r, seen + more)
    {
      hide SawAt;
      var all := seen + more;
      forall j | 0 <= j < |all|
        ensures SawAt(start, down, k0 + j, c, all[j])
        ensures j < |all| - 1 ==> !step(all[j])
      {
        if j < |seen| {
          assert all[j] == seen[j];
        } else {
          assert all[j] == more[j - |seen|] && k0 + j == k + (j - |seen|);
        }
      }
    }

    /** A search stopped by a match does not depend on how far it would have gone. */
    lemma SearchedFar(step: seq<char> -> bool, start: nat, down: bool, c: char, k0: nat, k: nat, k1: nat, r: int,
                      seen: seq<seq<char>>)
      requires (if down then 0 else 1) <= start <= NumLines(file) && 1 <= k0 <= k <= k1 <= NumLines(file) + 1
      requires Searched(step, start, down, c, k0, k, r, seen) && r != -1
      ensures Searched(step, start, down, c, k0, k1, r, seen)
    {
    }

    /** Probe the lines from `i0` up to (or down to) just before `stop`: the k0-th to before the k1-th visited. */
    method Sweep(step: seq<char> -> bool, line: array<char>, start: nat, down: bool, i0: int, stop: int,
                 ghost c: char, ghost k0: nat, ghost k1: nat)
      returns (r: int, ghost seen: seq<seq<char>>)
      requires Valid() && (if down then 0 else 1) <= start <= Dollar
      requires 1 <= k0 <= k1 <= Dollar + 1 && stop == (if down then i0 + (k1 - k0) else i0 - (k1 - k0))
      requires forall k :: k0 <= k < k1 ==>
                 Visit(start, down, Dollar, k) == if down then i0 + (k - k0) else i0 - (k - k0)
      requires line.Length == BFSBUF && line != savetxt && Edge() == EdgeAt(start, down, k0, c)
      modifies this`prevblk, this`prevoff, this`lprev, this`saveblk, this`txtpos, savetxt, line
      ensures Valid() && Searched(step, start, down, c, k0, k1, r, seen)
      ensures r == -1 ==> Edge() == EdgeAt(start, down, k1, c)
    {
      hide Searched;
      hide SawAt;
      hide Saw;
      hide EdgeAfter;
      hide EdgeAt;
      hide StaleOf;
      hide Edge;
      var i, incr := i0, if down then 1 else -1;
      ghost var k := k0;
      r, seen := -1, [];
      NothingSearched(step, start, down, c, k0);
      while i != stop
        invariant Valid() && k0 <= k <= k1 && i == if down then i0 + (k - k0) else i0 - (k - k0)
        invariant Searched(step, start, down, c, k0, k, -1, seen) && Edge() == EdgeAt(start, down, k, c)
        decreases k1 - k
      {
        assert i == Visit(start, down, Dollar, k);
        var hit;
        ghost var text;
        hit, text := Probe(i, line, step);
        SawIs(start, down, k, c, text);
        SearchedNext(step, start, down, c, k0, k, seen, if hit then i else -1, text);
        seen := seen + [text];
        if hit {
          SearchedFar(step, start, down, c, k0, k + 1, k1, i, seen);
          return i, seen;
        }
        i := i + incr;
        k := k + 1;
      }
      r := -1;
    }

    lemma SawIs(start: nat, down: bool, k: nat, c: char, text: seq<char>)
      requires (if down then 0 else 1) <= start <= NumLines(file) && 1 <= k <= NumLines(file)
      ensures var l, edge := Visit(start, down, NumLines(file), k), EdgeAt(start, down, k, c);
        && (SawAt(start, down, k, c, text) <==> Saw(l, text, StaleOf(l, edge)))
        && EdgeAt(start, down, k + 1, c) == EdgeAfter(l, edge)
    {
      hide Saw;
      hide StaleOf;
      hide EdgeAfter;
      hide Visit;
    }

    lemma NothingSearched(step: seq<char> -> bool, start: nat, down: bool, c: char, k0: nat)
      requires (if down then 0 else 1) <= start <= NumLines(file) && 1 <= k0 <= NumLines(file) + 1
      ensures Searched(step, start, down, c, k0, k0, -1, [])
    {
    }

    /** Search from `start` for a line that matches, downward or upward, perhaps wrapping around:
        the first match in visiting order, or -1 when no visited line matches. */
    method Hunt(step: seq<char> -> bool, start: nat, down: bool, wrap: bool)
      returns (r: int, ghost seen: seq<seq<char>>)
      requires Valid() && (if down then 0 else 1) <= start <= Dollar
      modifies this`prevblk, this`prevoff, this`lprev, this`saveblk, this`txtpos, savetxt
      ensures Valid()
      ensures Searched(step, start, down, old(Edge()), 1, Reach(start, down, wrap, Dollar) + 1, r, seen)
      ensures Ended(file) ==>
                (r == -1 <==> forall l :: 1 <= l <= Dollar && (wrap || (if down then start < l else l < start)) ==>
                                            !step(Shown(l)))
      ensures Ended(file) && r != -1 ==>
                1 <= r <= Dollar && (wrap || (if down then start < r else r < start)) && step(Shown(r))
      ensures Ended(file) && r != -1 ==>
                forall l :: 1 <= l <= Dollar && Between(start, down, l, r) ==> !step(Shown(l))
    {
      hide Searched;
      hide Shown;
      hide Edge;
      hide Between;
      hide Reach;
      r, seen := HuntLines(step, start, down, wrap);
      if Ended(file) {
        Found(step, start, down, wrap, old(Edge()), r, seen);
      }
    }

    /** The two loops of the search. */
    method HuntLines(step: seq<char> -> bool, start: nat, down: bool, wrap: bool)
      returns (r: int, ghost seen: seq<seq<char>>)
      requires Valid() && (if down then 0 else 1) <= start <= Dollar
      modifies this`prevblk, this`prevoff, this`lprev, this`saveblk, this`txtpos, savetxt
      ensures Valid()
      ensures Searched(step, start, down, old(Edge()), 1, Reach(start, down, wrap, Dollar) + 1, r, seen)
    {
      hide Searched;
      hide Edge;
      ghost var c := Edge();
      var line := new char[BFSBUF];
      var start1, end1, start2, incr;
      if down {
        start1, end1, start2, incr := start + 1, Dollar, 1, 1;
      } else {
        start1, end1, start2, incr := start - 1, 1, Dollar, -1;
      }
      ghost var turn := Reach(start, down, false, Dollar) + 1;
      r, seen := Sweep(step, line, start, down, start1, end1 + incr, c, 1, turn);
      if !wrap {
        return;
      }
      if r != -1 {
        SearchedFar(step, start, down, c, 1, turn, Dollar + 1, r, seen);
        return;
      }
      ghost var more;
      r, more := Sweep(step, line, start, down, start2, start1, c, turn, Dollar + 1);
      SearchedTwice(step, start, down, c, 1, turn, Dollar + 1, seen, r, more);
      seen := seen + more;
    }

    /** What was found, line by line. */
    lemma Found(step: seq<char> -> bool, start: nat, down: bool, wrap: bool, c: char, r: int, seen: seq<seq<char>>)
      requires Ended(file) && (if down then 0 else 1) <= start <= NumLines(file)
      requires Searched(step, start, down, c, 1, Reach(start, down, wrap, NumLines(file)) + 1, r, seen)
      ensures r == -1 <==>
                forall l :: 1 <= l <= NumLines(file) && (wrap || (if down then start < l else l < start)) ==>
                              !step(Shown(l))
      ensures r != -1 ==>
                1 <= r <= NumLines(file) && (wrap || (if down then start < r else r < start)) && step(Shown(r))
      ensures r != -1 ==>
                forall l :: 1 <= l <= NumLines(file) && Between(start, down, l, r) ==> !step(Shown(l))
    {
      hide Searched;
      hide Shown;
      var n := NumLines(file);
      FirstMatch(step, start, down, c, 1, Reach(start, down, wrap, n) + 1, r, seen);
      if r == -1 {
        forall l | 1 <= l <= n && (wrap || (if down then start < l else l < start))
          ensures !step(Shown(l))
        {
          var k := Turn(start, down, n, l);
          assert !Matches(step, start, down, k);
        }
      } else {
        var k :| 1 <= k < Reach(start, down, wrap, n) + 1 && Matches(step, start, down, k) &&
                 r == Visit(start, down, n, k) && forall j :: 1 <= j < k ==> !Matches(step, start, down, j);
        forall l | 1 <= l <= n && Between(start, down, l, r)
          ensures !step(Shown(l))
        {
          var j := Turn(start, down, n, l);
          assert !Matches(step, start, down, j);
        }
      }
    }

    lemma SawLine(l: int, text: seq<char>, stale: char)
      requires Ended(file) && 1 <= l <= NumLines(file) && Saw(l, text, stale)
      ensures text == Shown(l)
    {
      LinesTile(file, l);
    }

    /** The k-th visited line matches. */
    ghost predicate Matches(step: seq<char> -> bool, start: nat, down: bool, k: nat)
      requires (if down then 0 else 1) <= start <= NumLines(file) && 1 <= k <= NumLines(file)
    {
      step(Shown(Visit(start, down, NumLines(file), k)))
    }

    lemma MatchesSeen(step: seq<char> -> bool, start: nat, down: bool, c: char, k: nat, text: seq<char>)
      requires (if down then 0 else 1) <= start <= NumLines(file) && 1 <= k <= NumLines(file)
      requires Ended(file) && SawAt(start, down, k, c, text)
      ensures Matches(step, start, down, k) == step(text)
    {
      hide Saw;
      hide Shown;
      hide Visit;
      hide StaleOf;
      hide EdgeAt;
      var l := Visit(start, down, NumLines(file), k);
      SawLine(l, text, StaleOf(l, EdgeAt(start, down, k, c)));
    }

    /** There the search ends with the first visited line that matches, or with -1 when none does. */
    lemma FirstMatch(step: seq<char> -> bool, start: nat, down: bool, c: char, k0: nat, k1: nat, r: int,
                     seen: seq<seq<char>>)
      requires (if down then 0 else 1) <= start <= NumLines(file) && 1 <= k0 <= k1 <= NumLines(file) + 1
      requires Ended(file) && Searched(step, start, down, c, k0, k1, r, seen)
      ensures r == -1 ==> forall k :: k0 <= k < k1 ==> !Matches(step, start, down, k)
      ensures r != -1 ==>
                exists k :: k0 <= k < k1 && Matches(step, start, down, k) &&
                            r == Visit(start, down, NumLines(file), k) &&
                            forall j :: k0 <= j < k ==> !Matches(step, start, down, j)
    {
      hide Matches;
      hide SawAt;
      hide Visit;
      forall k | k0 <= k < k0 + |seen|
        ensures Matches(step, start, down, k) == step(seen[k - k0])
      {
        var j := k - k0;
        assert k0 + j == k && SawAt(start, down, k0 + j, c, seen[j]);
        MatchesSeen(step, start, down, c, k, seen[j]);
      }
      if r != -1 {
        var k := k0 + |seen| - 1;
        assert Matches(step, start, down, k);
      }
    }
  }

  /** A file of two lines: one that fills the first block, and a short one without newline. */
  function TailFile(): seq<char> {
    seq(511, _ => 'x') + "\nab"
  }

  lemma TailFileStarts()
    ensures var st := Starts(TailFile(), 514); |st| == 2 && st[0] == 0 && st[1] == 512
  {
    var f := TailFile();
    StartsAreAll(f, 514);
    var st := Starts(f, 514);
    assert IsStart(f, 0) && IsStart(f, 512);
    var k :| 0 <= k < |st| && st[k] == 512;
    forall i | 0 <= i < |st|
      ensures st[i] == 0 || st[i] == 512
    {
      assert IsStart(f, st[i]);
    }
    assert st[0] == 0 && st[1] == 512 && st[|st| - 1] == 512;
  }

  lemma TailFileLines()
    ensures NumLines(TailFile()) == 2 && Start(TailFile(), 2) == 512
    ensures |Line(TailFile(), 1)| == 512 && Ended(Line(TailFile(), 1)) && Line(TailFile(), 2) == "ab"
  {
    hide Starts;
    TailFileStarts();
    assert |TailFile()| == 514;
  }

  /** From the block before, the unterminated line "ab" arrives followed by a byte of that block. */
  method ReadTail(reader: Reader, rec: array<char>)
    requires reader.Valid() && reader.file == TailFile() && reader.saveblk == 0
    requires rec.Length == BFSBUF && rec != reader.savetxt
    modifies reader, reader.savetxt, rec
    ensures NumLines(reader.file) == 2 && Line(reader.file, 2) == "ab"
    ensures rec[0] == 'a' && rec[1] == 'b' && rec[2] == 'x'
  {
    TailFileLines();
    assert reader.savetxt[2] == reader.file[2] == 'x';
    reader.StaleIs(2, 1, 2);
    var _ := reader.BigRead(2, rec);
    ghost var line := Line(reader.file, 2);
    assert rec[|line|] == 'x';
  }

  /** Opening that file and reading its first line gets the reader there. */
  method ReadHead() returns (reader: Reader, rec: array<char>)
    ensures fresh(reader) && fresh(rec) && rec.Length == BFSBUF && rec != reader.savetxt && fresh(reader.savetxt)
    ensures reader.Valid() && reader.file == TailFile() && reader.saveblk == 0
  {
    TailFileLines();
    rec := new char[BFSBUF];
    reader := new Reader(TailFile());
    var rc, _ := reader.BigOpen();
    var _ := reader.BigRead(1, rec);
    LinesTile(TailFile(), 1);
  }

  /** The file opened and its two lines read in order: the second comes as "abx...". */
  method UnendedTail() returns (reader: Reader, rec: array<char>)
    ensures fresh(reader) && fresh(rec) && reader.file == TailFile() && rec.Length == BFSBUF
    ensures NumLines(TailFile()) == 2 && Line(TailFile(), 2) == "ab"
    ensures rec[0] == 'a' && rec[1] == 'b' && rec[2] == 'x'
  {
    hide Reader.Valid;
    reader, rec := ReadHead();
    ReadTail(reader, rec);
  }
}
