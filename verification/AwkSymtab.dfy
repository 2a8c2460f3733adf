/** The awk symbol table (usr/src/common/cmd/awk/tran.c): an array of chains of cells that grows in
    place by relinking the same cells.  The rest of awk keeps pointers into cells, so the table
    must keep every cell, not only its contents, until it is freed. */
module AwkSymtab {
  import opened Remainder

  const FULLTAB := 2
  const GROWTAB := 4

  datatype Flag = NUM | STR | DONTFREE | CON | ARR | FCN | FLD | REC | CANBENUM

  // ----- What a run of operations on a table means ------------------------------------------------

  datatype Option<+T> = None | Some(value: T)
  datatype Value = Value(sval: string, fval: real, tval: set<Flag>)

  /** Enter a name, look one up, free one, or store through a kept pointer to a cell. */
  datatype Op = Enter(n: string, v: Value) | Find(n: string) | Free(n: string) | Store(n: string, v: Value)

  /** What is2number makes of a string: the number it denotes, if it looks like one. */
  type Recognizer = string -> Option<real>

  /** A value as it is entered: one that can be a number becomes one if its string looks like it. */
  function Entered(v: Value, number: Recognizer): Value {
    var t := v.tval - {CANBENUM};
    if CANBENUM in v.tval && number(v.sval).Some? then Value(v.sval, number(v.sval).value, t + {NUM})
    else v.(tval := t)
  }

  /** What entering makes of the flags: only that a string can be a number is forgotten, and only a
      string that can be one and looks like one becomes one. */
  lemma EnteredIs(v: Value, number: Recognizer)
    ensures var e, looks := Entered(v, number), CANBENUM in v.tval && number(v.sval).Some?;
      && e.sval == v.sval && e.fval == (if looks then number(v.sval).value else v.fval)
      && CANBENUM !in e.tval && (NUM in e.tval <==> NUM in v.tval || looks)
      && forall f :: f != NUM && f != CANBENUM ==> (f in e.tval <==> f in v.tval)
  {
  }

  function Step(m: map<string, Value>, op: Op, number: Recognizer): map<string, Value> {
    match op
    case Enter(n, v) => if n in m then m else m[n := Entered(v, number)]
    case Find(n) => m
    case Free(n) => m - {n}
    case Store(n, v) => if n in m then m[n := v] else m
  }

  /** Name by name: entering adds a new name only, finding changes nothing, freeing takes the name away, and
      storing gives a name that is there its new value; all other names are as they were. */
  lemma StepIs(m: map<string, Value>, n: string, v: Value, k: string, number: Recognizer)
    ensures Step(m, Find(n), number) == m && n !in Step(m, Free(n), number)
    ensures n in Step(m, Enter(n, v), number) &&
            Step(m, Enter(n, v), number)[n] == if n in m then m[n] else Entered(v, number)
    ensures if n in m then n in Step(m, Store(n, v), number) && Step(m, Store(n, v), number)[n] == v
            else n !in Step(m, Store(n, v), number)
    ensures k != n ==> forall op :: op in {Enter(n, v), Free(n), Store(n, v)} ==>
              (k in Step(m, op, number) <==> k in m) && (k in m ==> Step(m, op, number)[k] == m[k])
  {
  }

  /** What the caller of an operation finds in the cell it is given. */
  function Answer(m: map<string, Value>, op: Op, number: Recognizer): Option<Value> {
    var m' := Step(m, op, number);
    if op.n in m' then Some(m'[op.n]) else None
  }

  function Replay(m: map<string, Value>, ops: seq<Op>, number: Recognizer): map<string, Value>
    decreases |ops|
  {
    if ops == [] then m else Replay(Step(m, ops[0], number), ops[1..], number)
  }

  function Answers(m: map<string, Value>, ops: seq<Op>, number: Recognizer): seq<Option<Value>>
    decreases |ops|
  {
    if ops == [] then [] else [Answer(m, ops[0], number)] + Answers(Step(m, ops[0], number), ops[1..], number)
  }

  // ----- Hashing ----------------------------------------------------------------------------------

  /** The running hash, in 32-bit unsigned arithmetic. */
  function HashVal(s: string): nat {
    if s == "" then 0 else (s[|s| - 1] as int + 31 * HashVal(s[..|s| - 1])) % 0x1_0000_0000
  }

  /** The hash as a sum over the characters: each counts 31 times as much as the next. */
  function Weighed(s: string): nat {
    if s == "" then 0 else s[0] as int * Pow31(|s| - 1) + Weighed(s[1..])
  }

  function Pow31(n: nat): nat {
    if n == 0 then 1 else 31 * Pow31(n - 1)
  }

  lemma {:induction false} WeighedSnoc(s: string, c: char)
    ensures Weighed(s + [c]) == 31 * Weighed(s) + c as int
  {
    if s == "" {
      assert s + [c] == [c] && [c][1..] == "";
      assert Weighed([c]) == c as int * Pow31(0) + Weighed("");
    } else {
      assert (s + [c])[1..] == s[1..] + [c];
      WeighedSnoc(s[1..], c);
      var x, p := s[0] as int, Pow31(|s| - 1);
      assert Pow31(|s|) == 31 * p;
      assert x * (31 * p) == 31 * (x * p);
    }
  }

  lemma {:induction false} HashIs(s: string)
    ensures HashVal(s) == Weighed(s) % 0x1_0000_0000
  {
    if s != "" {
      var init, c := s[..|s| - 1], s[|s| - 1];
      assert s == init + [c];
      HashIs(init);
      WeighedSnoc(init, c);
      Wraps(Weighed(init), c as int);
    }
  }

  lemma Wraps(w: nat, c: nat)
    ensures (c + 31 * (w % 0x1_0000_0000)) % 0x1_0000_0000 == (31 * w + c) % 0x1_0000_0000
  {
    var q := w / 0x1_0000_0000;
    assert 31 * w + c == 31 * q * 0x1_0000_0000 + (c + 31 * (w % 0x1_0000_0000));
  }

  /** The bucket of a name is that sum, in 32 bits, by the number of buckets. */
  lemma BucketIs(s: string, n: nat)
    requires n > 0
    ensures Bucket(s, n) == Weighed(s) % 0x1_0000_0000 % n
  {
    HashIs(s);
    RemIsMod(HashVal(s), n);
  }

  function Bucket(s: string, n: nat): (h: nat)
    requires n > 0
    ensures h < n
  {
    Rem(HashVal(s), n)
  }

  method Hash(s: string, n: nat) returns (h: nat)
    requires n > 0
    ensures h == Bucket(s, n)
  {
    var hashval := 0;
    for i := 0 to |s|
      invariant hashval == HashVal(s[..i])
    {
      assert s[..i + 1][..i] == s[..i];
      hashval := (s[i] as int + 31 * hashval) % 0x1_0000_0000;
    }
    assert s[..|s|] == s;
    RemIsMod(hashval, n);
    h := hashval % n;
  }

  class Cell {
    const nval: string
    var sval: string
    var fval: real
    var tval: set<Flag>
    var cnext: Cell?
    ghost var rank: nat       // how many cells its table got before it

    constructor (n: string, s: string, f: real, t: set<Flag>)
      ensures nval == n && sval == s && fval == f && tval == t
    {
      nval, sval, fval, tval, cnext := n, s, f, t, null;
    }

    function Read(): Value
      reads `sval, `fval, `tval
    {
      Value(sval, fval, tval)
    }
  }

  // ----- Chains -------------------------------------------------------------------------------

  /** The rank just above a cell, or above nothing. */
  ghost function Above(p: Cell?): nat
    reads (if p == null then {} else {p})`rank
  {
    if p == null then 0 else p.rank + 1
  }

  /** Bucket h starts with a cell of its own, or is empty. */
  ghost predicate HeadsOk(heads: seq<Cell?>, own: set<Cell>, n: nat)
    requires 0 < n == |heads|
    reads own`rank
  {
    && (forall h {:trigger heads[h]} :: 0 <= h < n && heads[h] != null ==>
          heads[h] in own && Bucket(heads[h].nval, n) == h)
    && (forall h, c {:trigger heads[h], c.rank} :: 0 <= h < n && c in own && Bucket(c.nval, n) == h ==>
          c.rank < Above(heads[h]))
  }

  /** The next cell on a chain is the one of the next lower rank in the same bucket. */
  ghost predicate NextOk(own: set<Cell>, n: nat)
    requires n > 0
    reads own`cnext, own`rank
  {
    && (forall c {:trigger c.cnext} :: c in own && c.cnext != null ==>
          c.cnext in own && Bucket(c.cnext.nval, n) == Bucket(c.nval, n) && c.cnext.rank < c.rank)
    && (forall c, d {:trigger c.cnext, d.rank} ::
          c in own && d in own && Bucket(c.nval, n) == Bucket(d.nval, n) && d.rank < c.rank ==>
          d.rank < Above(c.cnext))
  }

  /** The chains that start at `heads` and follow cnext hold exactly the cells `own`, each once and
      in the bucket of its name: a chain runs through all the cells of its bucket, the last one
      linked first.  `log` lists the cells in the order they were linked. */
  ghost predicate TableOk(heads: seq<Cell?>, own: set<Cell>, log: seq<Cell>, n: nat)
    reads own`cnext, own`rank
  {
    && 0 < n == |heads|
    && HeadsOk(heads, own, n)
    && NextOk(own, n)
    && (forall c {:trigger c.rank} :: c in own ==> c.rank < |log| && log[c.rank] == c)
  }

  lemma MoveKeepsUnion<T>(rest: set<T>, moved: set<T>, c: T)
    requires c in rest && rest !! moved
    ensures rest - {c} !! moved + {c} && (rest - {c}) + (moved + {c}) == rest + moved
  {
  }

  ghost function EmptyHeads(n: nat): (heads: seq<Cell?>)
    requires n > 0
    ensures TableOk(heads, {}, [], n) && forall h :: 0 <= h < n ==> heads[h] == null
  {
    seq(n, _ => null)
  }

  /** The heads once the first i chains have been moved away. */
  ghost function Cleared(heads: seq<Cell?>, i: nat): (r: seq<Cell?>)
    requires i <= |heads|
    ensures |r| == |heads|
    ensures forall h {:trigger r[h]} :: 0 <= h < |heads| ==> r[h] == if h < i then null else heads[h]
  {
    if i == 0 then heads else Cleared(heads, i - 1)[i - 1 := null]
  }

  lemma HeadIsOwn(heads: seq<Cell?>, own: set<Cell>, log: seq<Cell>, n: nat, h: nat)
    requires TableOk(heads, own, log, n) && h < n
    ensures heads[h] != null ==> heads[h] in own && Bucket(heads[h].nval, n) == h
  {
  }

  lemma BucketNotEmpty(heads: seq<Cell?>, own: set<Cell>, log: seq<Cell>, n: nat, c: Cell)
    requires TableOk(heads, own, log, n) && c in own
    ensures heads[Bucket(c.nval, n)] != null
  {
    assert c.rank >= 0;
  }

  lemma AllMoved(heads: seq<Cell?>, own: set<Cell>, log: seq<Cell>, n: nat)
    requires TableOk(heads, own, log, n) && forall h :: 0 <= h < n ==> heads[h] == null
    ensures own == {}
  {
    if own != {} {
      var c :| c in own;
      BucketNotEmpty(heads, own, log, n, c);
      assert false;
    }
  }

  /** Taking the first cell off a chain leaves a table of the others. */
  lemma PopFront(heads: seq<Cell?>, own: set<Cell>, log: seq<Cell>, n: nat, p: Cell)
    requires TableOk(heads, own, log, n) && heads[Bucket(p.nval, n)] == p
    ensures p in own
    ensures TableOk(heads[Bucket(p.nval, n) := p.cnext], own - {p}, log, n)
  {
    var b := Bucket(p.nval, n);
    var rest, hs := own - {p}, heads[b := p.cnext];
    forall h, c | 0 <= h < n && c in rest && Bucket(c.nval, n) == h
      ensures c.rank < Above(hs[h])
    {
      assert c.rank >= 0 && heads[h] != null;
      if h == b {
        assert c.rank < p.rank;
        assert c.rank < Above(p.cnext);
      }
    }
    forall c | c in rest && c.cnext != null
      ensures c.cnext in rest
    {
      assert heads[Bucket(c.nval, n)] != null && c.rank >= 0;
      assert c.cnext.rank < c.rank;
    }
    assert HeadsOk(hs, rest, n);
    assert NextOk(rest, n);
  }

  lemma OnlyOneBefore(own: set<Cell>, log: seq<Cell>, n: nat, prev: Cell, p: Cell, c: Cell)
    requires n > 0 && NextOk(own, n) && forall d {:trigger d.rank} :: d in own ==> d.rank < |log| && log[d.rank] == d
    requires prev in own && c in own && prev.cnext == p && c.cnext == p
    ensures c == prev
  {
    assert p.rank < c.rank && p.rank < prev.rank;
  }

  /** What unlinking p, which follows prev, will need to know of the table as it was. */
  lemma AroundNext(heads: seq<Cell?>, own: set<Cell>, log: seq<Cell>, n: nat, prev: Cell, p: Cell)
    requires TableOk(heads, own, log, n) && prev in own && prev.cnext == p
    ensures p in own && p.rank < prev.rank && Bucket(p.nval, n) == Bucket(prev.nval, n)
    ensures forall h {:trigger heads[h]} :: 0 <= h < n ==> heads[h] != p
    ensures forall c {:trigger c.cnext} :: c in own && c.cnext == p ==> c == prev
    ensures p.cnext != null ==> p.cnext in own && p.cnext.rank < p.rank && Bucket(p.cnext.nval, n) == Bucket(p.nval, n)
    ensures forall d {:trigger d.rank} ::
              d in own && d != p && Bucket(d.nval, n) == Bucket(p.nval, n) && d.rank < prev.rank ==>
                d.rank < Above(p.cnext)
  {
    assert p in own && p.rank < prev.rank && Bucket(p.nval, n) == Bucket(prev.nval, n);
    forall h | 0 <= h < n
      ensures heads[h] != p
    {
      assert prev.rank >= 0;
    }
    forall c | c in own && c.cnext == p
      ensures c == prev
    {
      OnlyOneBefore(own, log, n, prev, p, c);
    }
    forall d | d in own && d != p && Bucket(d.nval, n) == Bucket(p.nval, n) && d.rank < prev.rank
      ensures d.rank < Above(p.cnext)
    {
      assert d.rank < Above(prev.cnext);
      assert d.rank != p.rank;
    }
  }

  lemma HeadsWithout(heads: seq<Cell?>, own: set<Cell>, n: nat, p: Cell)
    requires 0 < n == |heads| && HeadsOk(heads, own, n)
    requires forall h {:trigger heads[h]} :: 0 <= h < n ==> heads[h] != p
    ensures HeadsOk(heads, own - {p}, n)
  {
  }

  /** Unlinking a cell that follows another leaves a table of the others. */
  method SkipNext(prev: Cell, p: Cell, ghost heads: seq<Cell?>, ghost own: set<Cell>, ghost log: seq<Cell>,
                  ghost n: nat)
    requires TableOk(heads, own, log, n) && prev in own && prev.cnext == p
    modifies prev`cnext
    ensures TableOk(heads, own - {p}, log, n)
  {
    AroundNext(heads, own, log, n, prev, p);
    HeadsWithout(heads, own, n, p);
    prev.cnext := p.cnext;
    assert HeadsOk(heads, own - {p}, n) == old(HeadsOk(heads, own - {p}, n));
  }

  /** A cell linked before the first cell of its bucket, and ranked above it, extends the table. */
  lemma PushOk(heads: seq<Cell?>, own: set<Cell>, log: seq<Cell>, n: nat, p: Cell)
    requires TableOk(heads, own, log, n) && p !in own
    requires p.cnext == heads[Bucket(p.nval, n)]
    requires p.rank == |log|
    ensures TableOk(heads[Bucket(p.nval, n) := p], own + {p}, log + [p], n)
  {
    var b := Bucket(p.nval, n);
    forall c | c in own && Bucket(c.nval, n) == b
      ensures c.rank < Above(p.cnext) <= p.rank
    {
      assert c.rank >= 0 && heads[b] == p.cnext;
    }
    var hs, all := heads[b := p], own + {p};
    forall h | 0 <= h < n && hs[h] != null
      ensures hs[h] in all && Bucket(hs[h].nval, n) == h
    {
      assert h != b ==> hs[h] == heads[h];
    }
    forall h, c | 0 <= h < n && c in all && Bucket(c.nval, n) == h
      ensures c.rank < Above(hs[h])
    {
      if c != p {
        assert c.rank >= 0 && heads[h] != null;
      }
    }
    assert NextOk(own + {p}, n);
  }

  /** Put a cell at the front of its chain. */
  method PushFront(tab: array<Cell?>, n: nat, cp: Cell, ghost heads: seq<Cell?>, ghost own: set<Cell>,
                   ghost log: seq<Cell>)
    returns (ghost heads': seq<Cell?>)
    requires TableOk(heads, own, log, n) && tab.Length == n && (forall h :: 0 <= h < n ==> tab[h] == heads[h])
    requires cp !in own
    modifies tab, cp`cnext, cp`rank
    ensures TableOk(heads', own + {cp}, log + [cp], n) && |heads'| == n
    ensures forall h :: 0 <= h < n ==> tab[h] == heads'[h]
  {
    hide HeadsOk;
    hide NextOk;
    var h := Hash(cp.nval, n);
    cp.cnext := tab[h];
    cp.rank := |log|;
    tab[h] := cp;
    heads' := heads[h := cp];
    assert TableOk(heads, own, log, n) == old(TableOk(heads, own, log, n));
    PushOk(heads, own, log, n, cp);
  }

  lemma NamedAdd(own: set<Cell>, m: map<string, Cell>, p: Cell)
    requires Named(own, m) && p.nval !in m
    ensures Named(own + {p}, m[p.nval := p]) && |m[p.nval := p]| == |m| + 1
  {
  }

  lemma NamedRemove(own: set<Cell>, m: map<string, Cell>, p: Cell)
    requires Named(own, m) && p in own
    ensures Named(own - {p}, m - {p.nval}) && |m - {p.nval}| == |m| - 1
  {
    assert m == (m - {p.nval})[p.nval := p];
  }

  /** The map holds each cell of `own` under its name, and nothing else. */
  ghost predicate Named(own: set<Cell>, m: map<string, Cell>) {
    && (forall c :: c in own ==> c.nval in m && m[c.nval] == c)
    && (forall k :: k in m ==> m[k] in own && m[k].nval == k)
  }

  class Array {
    const number: Recognizer
    var nelem: nat
    var size: nat
    var tab: array<Cell?>
    ghost var heads: seq<Cell?>
    ghost var cells: set<Cell>
    ghost var log: seq<Cell>
    ghost var Contents: map<string, Cell>

    /** The table holds exactly the cells of the map, each under its own name. */
    ghost predicate Linked()
      reads `heads, `cells, `log, `tab, `size, `Contents, tab, cells`cnext, cells`rank
    {
      && TableOk(heads, cells, log, size)
      && tab.Length == size == |heads| > 0
      && (forall h :: 0 <= h < size ==> tab[h] == heads[h])
      && Named(cells, Contents)
    }

    ghost predicate Valid()
      reads this, tab, cells`cnext, cells`rank
    {
      Linked() && nelem == |Contents| <= FULLTAB * size
    }

    constructor (n: nat, number: Recognizer)
      requires n > 0
      ensures this.number == number && Valid() && Contents == map[] && size == n && fresh(tab) && cells == {}
    {
      this.number := number;
      nelem, size := 0, n;
      tab := new Cell?[n](_ => null);
      heads, cells, log, Contents := EmptyHeads(n), {}, [], map[];
    }

    method Lookup(s: string) returns (p: Cell?)
      requires Linked()
      ensures p == if s in Contents then Contents[s] else null
      ensures Answer(View(), Op.Find(s), number) == if p == null then None else Some(p.Read())
    {
      var h := Hash(s, size);
      p := tab[h];
      while p != null
        invariant p != null ==> p in cells && Bucket(p.nval, size) == h
        invariant s in Contents ==> Contents[s].rank < Above(p)
        decreases Above(p)
      {
        if p.nval == s {
          return;
        }
        p := p.cnext;
      }
    }

    /** Move the first cell of bucket i to the front of its chain in the new table. */
    method MoveFirst(i: nat, c: Cell, np: array<Cell?>, nsz: nat, ghost olds: seq<Cell?>, ghost rest: set<Cell>,
                     ghost news: seq<Cell?>, ghost moved: set<Cell>, ghost nlog: seq<Cell>)
      returns (op: Cell?, ghost news': seq<Cell?>)
      requires rest !! moved && i < |olds| && TableOk(olds[i := c], rest, log, size)
      requires TableOk(news, moved, nlog, nsz) && np.Length == nsz && (forall h :: 0 <= h < nsz ==> np[h] == news[h])
      modifies np, c`cnext, c`rank
      ensures c in rest && TableOk(olds[i := op], rest - {c}, log, size)
      ensures TableOk(news', moved + {c}, nlog + [c], nsz) && (forall h :: 0 <= h < nsz ==> np[h] == news'[h])
    {
      hide HeadsOk;
      hide NextOk;
      HeadIsOwn(olds[i := c], rest, log, size, i);
      PopFront(olds[i := c], rest, log, size, c);
      op := c.cnext;
      assert olds[i := c][i := op] == olds[i := op];
      ghost var left := TableOk(olds[i := op], rest - {c}, log, size);
      news' := PushFront(np, nsz, c, news, moved, nlog);
      assert TableOk(olds[i := op], rest - {c}, log, size) == left;
    }

    /** Move the cells of bucket i, one after another: `rest` stays behind, `moved` has arrived. */
    method MoveChain(i: nat, np: array<Cell?>, nsz: nat, ghost old0: seq<Cell?>, ghost rest0: set<Cell>,
                     ghost new0: seq<Cell?>, ghost moved0: set<Cell>, ghost nlog0: seq<Cell>)
      returns (ghost rest: set<Cell>, ghost news: seq<Cell?>, ghost moved: set<Cell>, ghost nlog: seq<Cell>)
      requires i < size == tab.Length && np != tab && rest0 !! moved0
      requires TableOk(old0, rest0, log, size) && old0[i] == tab[i]
      requires TableOk(new0, moved0, nlog0, nsz) && np.Length == nsz && (forall h :: 0 <= h < nsz ==> np[h] == new0[h])
      modifies np, rest0`cnext, rest0`rank
      ensures rest <= rest0 && rest !! moved && rest + moved == rest0 + moved0
      ensures TableOk(old0[i := null], rest, log, size)
      ensures TableOk(news, moved, nlog, nsz) && (forall h :: 0 <= h < nsz ==> np[h] == news[h])
    {
      hide HeadsOk;
      hide NextOk;
      rest, news, moved, nlog := rest0, new0, moved0, nlog0;
      var cp := tab[i];
      assert old0[i := cp] == old0;
      while cp != null
        invariant rest <= rest0 && rest !! moved && rest + moved == rest0 + moved0
        invariant TableOk(old0[i := cp], rest, log, size) == true
        invariant TableOk(news, moved, nlog, nsz) == true
        invariant forall h :: 0 <= h < nsz ==> np[h] == news[h]
        decreases rest
      {
        var c: Cell := cp;
        HeadIsOwn(old0[i := c], rest, log, size, i);
        cp, news := MoveFirst(i, c, np, nsz, old0, rest, news, moved, nlog);
        MoveKeepsUnion(rest, moved, c);
        rest, moved, nlog := rest - {c}, moved + {c}, nlog + [c];
      }
    }

    /** Relink every cell into a new array of chains. */
    method Relink(nsz: nat) returns (np: array<Cell?>, ghost news: seq<Cell?>, ghost nlog: seq<Cell>)
      requires Linked() && nsz > 0
      modifies cells`cnext, cells`rank
      ensures TableOk(news, cells, nlog, nsz)
      ensures fresh(np) && np.Length == nsz && (forall h :: 0 <= h < nsz ==> np[h] == news[h])
    {
      hide HeadsOk;
      hide NextOk;
      np := new Cell?[nsz](_ => null);
      ghost var rest := cells;
      ghost var moved: set<Cell> := {};
      news, nlog := EmptyHeads(nsz), [];
      var i := 0;
      while i < size
        invariant 0 <= i <= size && rest !! moved && rest + moved == cells
        invariant TableOk(Cleared(heads, i), rest, log, size) == true
        invariant TableOk(news, moved, nlog, nsz) == true
        invariant np.Length == nsz && forall h :: 0 <= h < nsz ==> np[h] == news[h]
        modifies np, cells`cnext, cells`rank
      {
        rest, news, moved, nlog := MoveChain(i, np, nsz, Cleared(heads, i), rest, news, moved, nlog);
        i := i + 1;
      }
      AllMoved(Cleared(heads, size), rest, log, size);
      assert rest + moved == moved;
    }

    /** Grow the table: the same cells, under the same names, in four times as many chains. */
    method Rehash()
      requires Linked()
      modifies `size, `tab, `heads, `log, cells`cnext, cells`rank
      ensures Linked() && size == 4 * old(size) && fresh(tab)
    {
      hide HeadsOk;
      hide NextOk;
      var nsz := GROWTAB * size;
      ghost var news, nlog;
      tab, news, nlog := Relink(nsz);
      size, heads, log := nsz, news, nlog;
    }

    /** The map a caller sees: the value held by the cell of each name. */
    ghost function View(): map<string, Value>
      requires Named(cells, Contents)
      reads `cells, `Contents, cells
    {
      map k | k in Contents :: Contents[k].Read()
    }

    /** Count one more cell, and grow the table first if that makes it too full. */
    method Reserve()
      requires Valid()
      modifies `nelem, `size, `tab, `heads, `log, cells`cnext, cells`rank
      ensures Linked()
      ensures nelem == old(nelem) + 1 <= 2 * size
      ensures fresh(tab) || tab == old(tab)
    {
      hide HeadsOk;
      hide NextOk;
      nelem := nelem + 1;
      if nelem > FULLTAB * size {
        Rehash();
      }
    }

    /** Add a cell under a new name, in a table that has grown if it was full. */
    method Insert(p: Cell)
      requires Valid() && p !in cells && p.nval !in Contents
      modifies this, tab, cells`cnext, cells`rank, p`cnext, p`rank
      ensures Valid() && Contents == old(Contents)[p.nval := p] && cells == old(cells) + {p}
      ensures fresh(tab) || tab == old(tab)
    {
      hide TableOk;
      hide Named;
      NamedAdd(cells, Contents, p);
      Reserve();
      ghost var news := PushFront(tab, size, p, heads, cells, log);
      heads, cells, log, Contents := news, cells + {p}, log + [p], Contents[p.nval := p];
    }

    twostate lemma ViewEntered(new p: Cell)
      requires old(Named(cells, Contents)) && Named(cells, Contents)
      requires p.nval !in old(Contents) && Contents == old(Contents)[p.nval := p]
      requires forall c :: c in old(cells) ==> c.Read() == old(c.Read())
      ensures View() == old(View())[p.nval := p.Read()] && p.nval !in old(View())
    {
    }

    /** A new cell; a string that can be a number is looked at. */
    method MakeCell(n: string, s: string, f: real, t: set<Flag>) returns (p: Cell)
      ensures fresh(p) && p.nval == n && p.Read() == Entered(Value(s, f, t), number)
    {
      p := new Cell(n, s, f, t - {CANBENUM});
      if CANBENUM in t {
        var val := number(s);
        if val.Some? {
          p.fval, p.tval := val.value, p.tval + {NUM};
        }
      }
    }

    /** The cell named n: the existing one, untouched, or a new one holding the given value. */
    method Setsymtab(n: string, s: string, f: real, t: set<Flag>) returns (p: Cell)
      requires Valid()
      modifies this, tab, cells`cnext, cells`rank
      ensures Valid()
      ensures n in old(Contents) ==>
                p == old(Contents[n]) && unchanged(this) && unchanged(tab) && unchanged(old(cells))
      ensures n !in old(Contents) ==>
                && fresh(p) && Contents == old(Contents)[n := p] && cells == old(cells) + {p}
                && p.nval == n && p.Read() == Entered(Value(s, f, t), number)
      ensures fresh(tab) || tab == old(tab)
      ensures View() == Step(old(View()), Op.Enter(n, Value(s, f, t)), number)
      ensures Some(p.Read()) == Answer(old(View()), Op.Enter(n, Value(s, f, t)), number)
    {
      hide TableOk;
      hide View;
      hide Entered;
      var q := Lookup(n);
      if q != null {
        return q;
      }
      p := MakeCell(n, s, f, t);
      Insert(p);
      ViewEntered(p);
    }

    /** Walk the chain of s up to its cell, keeping the cell before it. */
    method Search(s: string) returns (h: nat, prev: Cell?, p: Cell?)
      requires Linked()
      ensures p == if s in Contents then Contents[s] else null
      ensures p != null ==> p in cells && p.nval == s && h == Bucket(s, size)
      ensures p != null ==> if prev == null then p == tab[h] else prev in cells && prev.cnext == p
    {
      h := Hash(s, size);
      p, prev := tab[h], null;
      while p != null
        invariant p != null ==> p in cells && Bucket(p.nval, size) == h
        invariant s in Contents ==> Contents[s].rank < Above(p)
        invariant if prev == null then p == tab[h] else prev in cells && prev.cnext == p
        decreases Above(p)
      {
        if p.nval == s {
          return;
        }
        prev, p := p, p.cnext;
      }
    }

    /** Take cell p out of chain h, where it is first or follows prev. */
    method Unchain(h: nat, prev: Cell?, p: Cell)
      requires Linked() && p in cells && h == Bucket(p.nval, size)
      requires if prev == null then tab[h] == p else prev in cells && prev.cnext == p
      modifies `heads, tab, cells`cnext
      ensures TableOk(heads, cells - {p}, log, size) && |heads| == size
      ensures forall h :: 0 <= h < size ==> tab[h] == heads[h]
    {
      hide TableOk;
      if prev == null {
        PopFront(heads, cells, log, size, p);
        tab[h] := p.cnext;
        heads := heads[h := p.cnext];
      } else {
        SkipNext(prev, p, heads, cells, log, size);
      }
    }

    /** Take cell p out of chain h, where it is first or follows prev, and forget its name. */
    method Unlink(h: nat, prev: Cell?, p: Cell)
      requires Valid() && p in cells && h == Bucket(p.nval, size)
      requires if prev == null then tab[h] == p else prev in cells && prev.cnext == p
      modifies `heads, `cells, `Contents, `nelem, tab, cells`cnext
      ensures Valid() && Contents == old(Contents) - {p.nval} && cells == old(cells) - {p}
    {
      hide TableOk;
      hide Named;
      NamedRemove(cells, Contents, p);
      Unchain(h, prev, p);
      cells, Contents, nelem := cells - {p}, Contents - {p.nval}, nelem - 1;
    }

    twostate lemma ViewFreed(s: string)
      requires old(Named(cells, Contents)) && Named(cells, Contents)
      requires Contents == old(Contents) - {s}
      requires forall c :: c in old(cells) ==> c.Read() == old(c.Read())
      ensures View() == old(View()) - {s}
    {
    }

    /** Forget the cell named s, if there is one; every other cell stays where it is. */
    method Freeelem(s: string)
      requires Valid()
      modifies `heads, `cells, `Contents, `nelem, tab, cells`cnext
      ensures Valid()
      ensures Contents == old(Contents) - {s}
      ensures cells == old(cells) - if s in old(Contents) then {old(Contents)[s]} else {}
      ensures View() == old(View()) - {s}
    {
      hide TableOk;
      hide View;
      var h, prev, p := Search(s);
      if p != null {
        Unlink(h, prev, p);
      }
      ViewFreed(s);
    }

    /** One operation of a run. */
    method Apply(op: Op) returns (answer: Option<Value>)
      requires Valid()
      modifies this, tab, cells
      ensures Valid() && (fresh(tab) || tab == old(tab)) && fresh(cells - old(cells))
      ensures View() == Step(old(View()), op, number) && answer == Answer(old(View()), op, number)
      ensures forall k :: k in old(Contents) && op != Free(k) ==> k in Contents && Contents[k] == old(Contents[k])
    {
      hide TableOk;
      hide Named;
      hide View;
      match op
      case Enter(n, v) =>
        var p := Setsymtab(n, v.sval, v.fval, v.tval);
        answer := Some(p.Read());
      case Find(n) =>
        var p := Lookup(n);
        answer := if p == null then None else Some(p.Read());
      case Free(n) =>
        Freeelem(n);
        answer := None;
      case Store(n, v) =>
        answer := Poke(n, v);
    }

    /** Assign through a pointer to the cell named n. */
    method Poke(n: string, v: Value) returns (answer: Option<Value>)
      requires Valid()
      modifies cells`sval, cells`fval, cells`tval
      ensures Valid()
      ensures View() == Step(old(View()), Op.Store(n, v), number)
      ensures answer == Answer(old(View()), Op.Store(n, v), number)
    {
      hide TableOk;
      var p := Lookup(n);
      if p == null {
        return None;
      }
      p.sval, p.fval, p.tval := v.sval, v.fval, v.tval;
      return Some(p.Read());
    }

    /** Any run of operations does to the table what it does to a map, and a cell never moves
        while its name is not freed. */
    method Run(ops: seq<Op>) returns (answers: seq<Option<Value>>)
      requires Valid()
      modifies this, tab, cells
      ensures Valid() && (fresh(tab) || tab == old(tab)) && fresh(cells - old(cells))
      ensures View() == Replay(old(View()), ops, number) && answers == Answers(old(View()), ops, number)
      ensures forall k :: k in old(Contents) && Free(k) !in ops ==> k in Contents && Contents[k] == old(Contents[k])
    {
      if ops == [] {
        return [];
      }
      var first := Apply(ops[0]);
      var rest := Run(ops[1..]);
      answers := [first] + rest;
    }
  }
}
