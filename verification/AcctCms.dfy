/** The command summary of acctcms (usr/src/common/cmd/acct/acctcms.c): a hash table of command
    names, whose rare entries are merged and whose holes are then squeezed out in place. */
module AcctCms {
  import opened Ring

  const CSIZE := 5001
  const COMM := 8          // characters of a command name

  // ----- Sums -----------------------------------------------------------------------------------

  /** The summed fields of a record, for prime time (0) and nonprime time (1). */
  datatype Sums = Sums(pc0: int, pc1: int, cpu0: real, cpu1: real, real0: real, real1: real,
                       kcore0: real, kcore1: real, io0: real, io1: real, rw0: real, rw1: real)

  const ZERO := Sums(0, 0, 0.0, 0.0, 0.0, 0.0, 0.0, 0.0, 0.0, 0.0, 0.0, 0.0)

  /** pcmadd. */
  function Plus(a: Sums, b: Sums): Sums {
    Sums(a.pc0 + b.pc0, a.pc1 + b.pc1, a.cpu0 + b.cpu0, a.cpu1 + b.cpu1, a.real0 + b.real0, a.real1 + b.real1,
         a.kcore0 + b.kcore0, a.kcore1 + b.kcore1, a.io0 + b.io0, a.io1 + b.io1, a.rw0 + b.rw0, a.rw1 + b.rw1)
  }

  lemma PlusZero(a: Sums)
    ensures Plus(ZERO, a) == a && Plus(a, ZERO) == a
  {
  }

  lemma PlusAssoc(a: Sums, b: Sums, c: Sums)
    ensures Plus(Plus(a, b), c) == Plus(a, Plus(b, c))
  {
  }

  lemma PlusSwap(a: Sums, b: Sums)
    ensures Plus(a, b) == Plus(b, a)
  {
  }

  // ----- Names ------------------------------------------------------------------------------------

  /** Characters are signed: those from 128 on compare below the blank like control characters. */
  function CleanChar(c: char): (r: char)
    ensures 31 as char < r < 128 as char
  {
    if c < 32 as char || c >= 128 as char then '?' else c
  }

  function Clean(name: string): (r: string)
    ensures |r| == |name| && forall i :: 0 <= i < |r| ==> r[i] == CleanChar(name[i])
  {
    if name == "" then "" else [CleanChar(name[0])] + Clean(name[1..])
  }

  /** The character of a fixed-width name, padded with NULs. */
  function At(name: string, j: nat): int {
    if j < |name| then name[j] as int else 0
  }

  /** The hash over the first n places. */
  function HashTo(name: string, n: nat): int {
    if n == 0 then 0 else HashTo(name, n - 1) * 7 + At(name, n - 1)
  }

  function Pow7(n: nat): int {
    if n == 0 then 1 else 7 * Pow7(n - 1)
  }

  /** With clean characters the hash of a whole name is not negative and fits 31 bits. */
  lemma {:induction false} HashFits(name: string, n: nat)
    requires forall i :: 0 <= i < |name| ==> name[i] < 128 as char
    ensures 0 <= 6 * HashTo(name, n) <= 127 * (Pow7(n) - 1)
  {
    if n > 0 {
      HashFits(name, n - 1);
    }
  }

  lemma HashBelow(name: string)
    requires forall i :: 0 <= i < |name| ==> name[i] < 128 as char
    ensures 0 <= HashTo(name, COMM) < 0x8000_0000
  {
    HashFits(name, COMM);
    assert Pow7(4) == 7 * Pow7(3) && Pow7(3) == 7 * Pow7(2) && Pow7(2) == 7 * Pow7(1) && Pow7(1) == 7;
    assert Pow7(8) == 7 * Pow7(7) && Pow7(7) == 7 * Pow7(6) && Pow7(6) == 7 * Pow7(5) && Pow7(5) == 7 * Pow7(4);
  }

  /** Spelled out: each of the eight places counts seven times as much as the next. */
  lemma HashIs(name: string)
    ensures HashTo(name, 8) ==
            At(name, 0) * 823543 + At(name, 1) * 117649 + At(name, 2) * 16807 + At(name, 3) * 2401 +
            At(name, 4) * 343 + At(name, 5) * 49 + At(name, 6) * 7 + At(name, 7)
  {
    HashFour(name);
    var h := HashTo(name, 4);
    assert HashTo(name, 5) == h * 7 + At(name, 4);
    assert HashTo(name, 6) == HashTo(name, 5) * 7 + At(name, 5);
    assert HashTo(name, 7) == HashTo(name, 6) * 7 + At(name, 6);
    assert HashTo(name, 8) == HashTo(name, 7) * 7 + At(name, 7);
  }

  lemma HashFour(name: string)
    ensures HashTo(name, 4) == At(name, 0) * 343 + At(name, 1) * 49 + At(name, 2) * 7 + At(name, 3)
  {
    assert HashTo(name, 1) == HashTo(name, 0) * 7 + At(name, 0);
    assert HashTo(name, 2) == HashTo(name, 1) * 7 + At(name, 1);
    assert HashTo(name, 3) == HashTo(name, 2) * 7 + At(name, 2);
  }

  lemma HomeIs(name: string)
    ensures Home(name) == HashTo(name, 8) % 5001
  {
  }

  /** What is not printable becomes a question mark. */
  lemma CleanCharIs(c: char)
    ensures CleanChar(c) == if ' ' <= c <= '~' || c as int == 127 then c else '?'
  {
  }

  function Home(name: string): (h: nat)
    ensures h < CSIZE
  {
    HashTo(name, COMM) % 5001
  }

  // ----- Records ----------------------------------------------------------------------------------

  datatype Rec = Rec(name: string, sums: Sums)

  /** The sum of the records with a name. */
  function SumOf(rs: seq<Rec>, name: string): Sums {
    if rs == [] then ZERO
    else if rs[|rs| - 1].name == name then Plus(SumOf(rs[..|rs| - 1], name), rs[|rs| - 1].sums)
    else SumOf(rs[..|rs| - 1], name)
  }

  /** The sum of all records. */
  function Total(rs: seq<Rec>): Sums {
    if rs == [] then ZERO else Plus(Total(rs[..|rs| - 1]), rs[|rs| - 1].sums)
  }

  function Reals(rs: seq<Rec>, name: string, g: Sums -> real): real {
    if rs == [] then 0.0
    else (if rs[0].name == name then g(rs[0].sums) else 0.0) + Reals(rs[1..], name, g)
  }

  function Counts(rs: seq<Rec>, name: string, g: Sums -> int): int {
    if rs == [] then 0
    else (if rs[0].name == name then g(rs[0].sums) else 0) + Counts(rs[1..], name, g)
  }

  lemma {:induction false} ColumnSnoc(rs: seq<Rec>, r: Rec, name: string, g: Sums -> real, h: Sums -> int)
    ensures Reals(rs + [r], name, g) == Reals(rs, name, g) + if r.name == name then g(r.sums) else 0.0
    ensures Counts(rs + [r], name, h) == Counts(rs, name, h) + if r.name == name then h(r.sums) else 0
  {
    if rs == [] {
      assert rs + [r] == [r] && [r][1..] == [];
    } else {
      assert (rs + [r])[1..] == rs[1..] + [r];
      ColumnSnoc(rs[1..], r, name, g, h);
    }
  }

  /** Sums are sums in every column, prime and nonprime. */
  lemma {:induction false} SumColumns(rs: seq<Rec>, name: string)
    ensures var s := SumOf(rs, name);
      && s.pc0 == Counts(rs, name, (t: Sums) => t.pc0) && s.pc1 == Counts(rs, name, (t: Sums) => t.pc1)
      && s.cpu0 == Reals(rs, name, (t: Sums) => t.cpu0) && s.cpu1 == Reals(rs, name, (t: Sums) => t.cpu1)
      && s.real0 == Reals(rs, name, (t: Sums) => t.real0) && s.real1 == Reals(rs, name, (t: Sums) => t.real1)
      && s.kcore0 == Reals(rs, name, (t: Sums) => t.kcore0) && s.kcore1 == Reals(rs, name, (t: Sums) => t.kcore1)
      && s.io0 == Reals(rs, name, (t: Sums) => t.io0) && s.io1 == Reals(rs, name, (t: Sums) => t.io1)
      && s.rw0 == Reals(rs, name, (t: Sums) => t.rw0) && s.rw1 == Reals(rs, name, (t: Sums) => t.rw1)
  {
    if rs != [] {
      var init, r := rs[..|rs| - 1], rs[|rs| - 1];
      assert rs == init + [r];
      SumColumns(init, name);
      ColumnSnoc(init, r, name, (t: Sums) => t.cpu0, (t: Sums) => t.pc0);
      ColumnSnoc(init, r, name, (t: Sums) => t.cpu1, (t: Sums) => t.pc1);
      ColumnSnoc(init, r, name, (t: Sums) => t.real0, (t: Sums) => t.pc0);
      ColumnSnoc(init, r, name, (t: Sums) => t.real1, (t: Sums) => t.pc0);
      ColumnSnoc(init, r, name, (t: Sums) => t.kcore0, (t: Sums) => t.pc0);
      ColumnSnoc(init, r, name, (t: Sums) => t.kcore1, (t: Sums) => t.pc0);
      ColumnSnoc(init, r, name, (t: Sums) => t.io0, (t: Sums) => t.pc0);
      ColumnSnoc(init, r, name, (t: Sums) => t.io1, (t: Sums) => t.pc0);
      ColumnSnoc(init, r, name, (t: Sums) => t.rw0, (t: Sums) => t.pc0);
      ColumnSnoc(init, r, name, (t: Sums) => t.rw1, (t: Sums) => t.pc0);
    }
  }

  /** The occupied ones of the first n slots, in order. */
  function Live(slots: seq<Rec>, n: nat): (r: seq<Rec>)
    requires n <= |slots|
    ensures |r| <= n
  {
    if n == 0 then []
    else Live(slots, n - 1) + if slots[n - 1].name != "" then [slots[n - 1]] else []
  }

  /** The slot is to be merged into slot j, where -1 stands for a slot in front of the table. */
  predicate Junk(slots: seq<Rec>, i: nat, j: int)
    requires i < |slots|
  {
    i != j && slots[i].name != "" && slots[i].sums.pc0 + slots[i].sums.pc1 <= 1
  }

  function JunkSum(slots: seq<Rec>, j: int, n: nat): Sums
    requires n <= |slots|
  {
    if n == 0 then ZERO
    else if Junk(slots, n - 1, j) then Plus(JunkSum(slots, j, n - 1), slots[n - 1].sums)
    else JunkSum(slots, j, n - 1)
  }

  /** The table after the junk was merged into slot j. */
  function Merged(slots: seq<Rec>, j: int): (r: seq<Rec>)
    requires j < |slots|
    ensures |r| == |slots|
    ensures forall i :: 0 <= i < |r| ==> r[i] == MergedSlot(slots, j, i)
  {
    seq(|slots|, i requires 0 <= i < |slots| => MergedSlot(slots, j, i))
  }

  function MergedSlot(slots: seq<Rec>, j: int, i: nat): Rec
    requires j < |slots| && i < |slots|
  {
    if i == j then slots[j].(sums := Plus(slots[j].sums, JunkSum(slots, j, |slots|)))
    else if Junk(slots, i, j) then slots[i].(name := "")
    else slots[i]
  }

  /** The sum of the occupied ones of the first n slots other than slot j. */
  function Others(slots: seq<Rec>, j: nat, n: nat): Sums
    requires n <= |slots|
  {
    if n == 0 then ZERO
    else if n - 1 != j && slots[n - 1].name != "" then Plus(Others(slots, j, n - 1), slots[n - 1].sums)
    else Others(slots, j, n - 1)
  }

  lemma TotalSnoc(rs: seq<Rec>, r: Rec)
    ensures Total(rs + [r]) == Plus(Total(rs), r.sums)
  {
    assert (rs + [r])[..|rs|] == rs;
  }

  lemma {:induction false} TotalLive(slots: seq<Rec>, j: nat, n: nat)
    requires n <= |slots|
    ensures Total(Live(slots, n)) ==
            if j < n && slots[j].name != "" then Plus(Others(slots, j, n), slots[j].sums) else Others(slots, j, n)
  {
    hide Plus;
    if n > 0 {
      TotalLive(slots, j, n - 1);
      var last := slots[n - 1];
      var before := Live(slots, n - 1);
      TotalSnoc(before, last);
      assert before + [] == before;
      if j < n - 1 {
        var o, x, y := Others(slots, j, n - 1), slots[j].sums, last.sums;
        PlusAssoc(o, x, y);
        PlusAssoc(o, y, x);
        PlusSwap(x, y);
      }
    }
  }

  lemma {:induction false} OthersMerged(slots: seq<Rec>, j: nat, n: nat)
    requires j < |slots| && n <= |slots|
    ensures Plus(Others(Merged(slots, j), j, n), JunkSum(slots, j, n)) == Others(slots, j, n)
  {
    hide Plus;
    PlusZero(ZERO);
    if n > 0 {
      OthersMerged(slots, j, n - 1);
      var o, k, x := Others(Merged(slots, j), j, n - 1), JunkSum(slots, j, n - 1), slots[n - 1].sums;
      PlusAssoc(o, k, x);
      PlusAssoc(o, x, k);
      PlusSwap(x, k);
      assert Merged(slots, j)[n - 1] == MergedSlot(slots, j, n - 1);
    }
  }

  /** Merging conserves every sum. */
  lemma MergeConserves(slots: seq<Rec>, j: nat)
    requires j < |slots| && slots[j].name != ""
    ensures Total(Live(Merged(slots, j), |slots|)) == Total(Live(slots, |slots|))
  {
    hide Plus;
    hide Live;
    var n := |slots|;
    TotalLive(slots, j, n);
    TotalLive(Merged(slots, j), j, n);
    OthersMerged(slots, j, n);
    assert Merged(slots, j)[j] == MergedSlot(slots, j, j);
    PlusSwap(slots[j].sums, JunkSum(slots, j, n));
    PlusAssoc(Others(Merged(slots, j), j, n), JunkSum(slots, j, n), slots[j].sums);
  }

  /** Every occupied slot is among the live ones, and every live one is a slot. */
  lemma {:induction false} LiveFrom(slots: seq<Rec>, n: nat, k: nat) returns (i: nat)
    requires n <= |slots| && k < |Live(slots, n)|
    ensures i < n && Live(slots, n)[k] == slots[i] && slots[i].name != ""
  {
    if k < |Live(slots, n - 1)| {
      i := LiveFrom(slots, n - 1, k);
    } else {
      i := n - 1;
    }
  }

  /** After merging, only the entry merged into may have a count of one or less. */
  lemma NoneRare(slots: seq<Rec>, j: int, k: nat)
    requires -1 <= j < |slots| && k < |Live(Merged(slots, j), |slots|)|
    ensures var r := Live(Merged(slots, j), |slots|)[k];
      r.sums.pc0 + r.sums.pc1 > 1 || (0 <= j && r.name == slots[j].name)
  {
    var i := LiveFrom(Merged(slots, j), |slots|, k);
    assert Merged(slots, j)[i] == MergedSlot(slots, j, i);
  }

  // ----- The table --------------------------------------------------------------------------------

  const OTHER := "***other"

  class Table {
    const pcm: array<Rec>
    var csize: nat
    ghost var m: map<string, Sums>     // what the table holds
    ghost var at: map<string, nat>     // in which slots

    /** An occupied slot is the one place of its name. */
    ghost predicate SlotOk(i: nat)
      requires i < pcm.Length
      reads pcm, `at
    {
      pcm[i].name != "" ==> pcm[i].name in at && at[pcm[i].name] == i
    }

    /** A name stands in its slot, and no slot between its home and that slot is empty. */
    ghost predicate NameOk(n: string)
      requires n in m && n in at && pcm.Length == CSIZE
      reads pcm, `m, `at
    {
      && n != "" && at[n] < CSIZE && pcm[at[n]] == Rec(n, m[n])
      && Reached(Home(n), at[n])
    }

    ghost predicate Reached(h: nat, i: nat)
      requires pcm.Length == CSIZE
      reads pcm
    {
      forall q :: 0 <= q < CSIZE && Dist(h, q, CSIZE) < Dist(h, i, CSIZE) ==> pcm[q].name != ""
    }

    ghost predicate Valid()
      reads pcm, `m, `at
      ensures Valid() ==> pcm.Length == CSIZE
    {
      && pcm.Length == CSIZE && m.Keys == at.Keys
      && (forall n :: n in m ==> NameOk(n))
      && (forall i :: 0 <= i < CSIZE ==> SlotOk(i))
    }

    constructor ()
      ensures Valid() && m == map[] && fresh(pcm) && csize == 0
      ensures forall i :: 0 <= i < CSIZE ==> pcm[i] == Rec("", ZERO)
    {
      pcm := new Rec[CSIZE](_ => Rec("", ZERO));
      csize, m, at := 0, map[], map[];
    }

    /** The slots up to j steps from h hold other names. */
    ghost predicate Tried(n: string, h: nat, j: nat)
      requires pcm.Length == CSIZE
      reads pcm
    {
      forall q {:trigger pcm[q]} :: 0 <= q < CSIZE && Dist(h, q, CSIZE) < j ==> pcm[q].name != "" && pcm[q].name != n
    }

    /** Probe for a name: its slot, or the empty slot where it would go, or nothing when every slot
        holds another name. */
    method Probe(n: string) returns (i: nat, full: bool)
      requires Valid()
      ensures i < CSIZE
      ensures full <==> forall q {:trigger pcm[q]} :: 0 <= q < CSIZE ==> pcm[q].name != "" && pcm[q].name != n
      ensures !full && n in m ==> pcm[i].name == n && at[n] == i
      ensures !full && n !in m ==> pcm[i].name == "" && Reached(Home(n), i)
      ensures full ==> n !in m
    {
      hide HashTo;
      hide Home;
      i := Home(n);
      var j := 0;
      while pcm[i].name != "" && j != CSIZE
        invariant i < CSIZE && 0 <= j <= CSIZE && Tried(n, Home(n), j)
        invariant j < CSIZE ==> Dist(Home(n), i, CSIZE) == j
        decreases CSIZE - j
      {
        if pcm[i].name == n {
          break;
        }
        i, j := (i + 1) % 5001, j + 1;
      }
      full := j == CSIZE;
      assert SlotOk(i);
      if n in m {
        assert NameOk(n);
      }
    }

    /** Add the sums of a record to the entry of its name, which comes into the first empty slot from
        its home on; -1 when the name is new and the table holds CSIZE others.  A record without a name
        leaves its sums in the first empty slot of the table, for the next name that comes there. */
    method Enter(p: Rec) returns (r: int)
      requires Valid()
      modifies pcm, `m, `at
      ensures Valid()
      ensures r == -1 <==> Clean(p.name) !in old(m) && |old(m)| == CSIZE
      ensures r == -1 ==> m == old(m) && pcm[..] == old(pcm[..])
      ensures r != -1 ==> 0 <= r < CSIZE
      ensures r != -1 ==> pcm[..] == old(pcm[..])[r := Rec(Clean(p.name), Plus(old(pcm[r].sums), p.sums))]
      ensures r != -1 && Clean(p.name) in old(m) ==> old(pcm[r]) == Rec(Clean(p.name), old(m)[Clean(p.name)])
      ensures r != -1 && Clean(p.name) !in old(m) ==>
                old(pcm[r].name) == "" && old(Reached(Home(Clean(p.name)), r))
      ensures r != -1 ==>
                m == if p.name == "" then old(m) else old(m)[Clean(p.name) := Plus(old(pcm[r].sums), p.sums)]
    {
      hide Plus;
      hide Home;
      hide HashTo;
      hide SlotOk;
      hide Reached;
      var n := Clean(p.name);
      var i, full := Probe(n);
      FullHere(n);
      r := -1;
      if !full {
        if n in m {
          assert NameOk(n);
        }
        if n == "" {
          PutNameless(i, p.sums);
        } else {
          Put(n, i, p.sums);
        }
        r := i;
      }
    }

    /** Every slot holds another name exactly when the name is new and there are CSIZE names. */
    lemma FullHere(n: string)
      requires Valid()
      ensures (forall q {:trigger pcm[q]} :: 0 <= q < CSIZE ==> pcm[q].name != "" && pcm[q].name != n) <==>
              n !in m && |m| == CSIZE
    {
      hide Reached;
      hide SlotOk;
      SlotsHeld(this);
      hide Valid;
      hide NamesOf;
      var slots := pcm[..];
      FullTable(slots, m);
      if n !in m && |m| == CSIZE {
        forall q {:trigger pcm[q]} | 0 <= q < CSIZE
          ensures pcm[q].name != "" && pcm[q].name != n
        {
          assert slots[q].name in m;
        }
      }
      if forall q {:trigger pcm[q]} :: 0 <= q < CSIZE ==> pcm[q].name != "" && pcm[q].name != n {
        assert forall q :: 0 <= q < CSIZE ==> slots[q] == pcm[q];
      }
    }

    /** Add sums to an empty slot. */
    method PutNameless(i: nat, s: Sums)
      requires Valid() && i < CSIZE && pcm[i].name == ""
      modifies pcm
      ensures Valid()
      ensures pcm[..] == old(pcm[..])[i := Rec("", Plus(old(pcm[i].sums), s))]
    {
      hide Plus;
      pcm[i] := pcm[i].(sums := Plus(pcm[i].sums, s));
      forall k | k in m
        ensures NameOk(k)
      {
        assert old(NameOk(k));
        NameStays(k);
      }
      forall q | 0 <= q < CSIZE
        ensures SlotOk(q)
      {
        assert old(SlotOk(q));
      }
    }

    /** Add sums to a slot that is empty or holds the name. */
    method Put(n: string, i: nat, s: Sums)
      requires Valid() && n != "" && i < CSIZE && Reached(Home(n), i)
      requires if n in m then at[n] == i && pcm[i].name == n else pcm[i].name == ""
      modifies pcm, `m, `at
      ensures Valid() && m == old(m)[n := Plus(old(pcm[i].sums), s)]
      ensures pcm[..] == old(pcm[..])[i := Rec(n, Plus(old(pcm[i].sums), s))]
    {
      hide Home;
      hide Plus;
      hide NameOk;
      hide Dist;
      assert SlotOk(i);
      Places();
      var slot := pcm[i];
      if slot.name == "" {
        slot := slot.(name := n);
      }
      pcm[i] := slot.(sums := Plus(slot.sums, s));
      m := m[n := pcm[i].sums];
      at := at[n := i];
      ghost var h := Home(n);
      forall q | 0 <= q < CSIZE && Dist(h, q, CSIZE) < Dist(h, i, CSIZE)
        ensures pcm[q].name != ""
      {
        assert old(pcm[q].name) != "";
      }
      NameNow(n);
      forall k | k in m && k != n
        ensures NameOk(k)
      {
        assert old(NameOk(k));
        NameStays(k);
      }
      forall q | 0 <= q < CSIZE
        ensures SlotOk(q)
      {
        assert old(SlotOk(q));
      }
    }

    lemma Places()
      requires Valid()
      ensures forall k {:trigger at[k]} :: k in m ==> k != "" && at[k] < CSIZE && pcm[at[k]].name == k
    {
      forall k | k in m
        ensures k != "" && at[k] < CSIZE && pcm[at[k]].name == k
      {
        assert NameOk(k);
      }
    }

    lemma NameNow(n: string)
      requires n != "" && n in m && n in at && at[n] < CSIZE == pcm.Length
      requires pcm[at[n]] == Rec(n, m[n]) && Reached(Home(n), at[n])
      ensures NameOk(n)
    {
    }

    twostate predicate NamesKept()
      requires pcm.Length == CSIZE
      reads pcm
    {
      forall q {:trigger pcm[q]} :: 0 <= q < CSIZE && old(pcm[q].name) != "" ==> pcm[q].name != ""
    }

    /** Names that enter empty slots leave every name within reach. */
    twostate lemma NameStays(k: string)
      requires pcm.Length == CSIZE && k in old(m) && k in old(at) && old(NameOk(k))
      requires k in m && k in at && m[k] == old(m)[k] && at[k] == old(at)[k]
      requires NamesKept()
      requires old(at[k] < CSIZE) && pcm[at[k]] == old(pcm[at[k]])
      ensures NameOk(k)
    {
      forall q | 0 <= q < CSIZE && Dist(Home(k), q, CSIZE) < Dist(Home(k), at[k], CSIZE)
        ensures pcm[q].name != ""
      {
        assert old(pcm[q].name) != "";
      }
    }

    /** Merge the entries with a count of one or less into the entry for others.  If that entry does
        not fit, j is -1: the rare entries are cleared all the same, and their sums are added to what
        lies in front of the table. */
    method Fixjunk() returns (j: int, ghost mid: seq<Rec>)
      requires Valid()
      modifies pcm, `m, `at
      ensures |mid| == pcm.Length == CSIZE && -1 <= j < CSIZE
      ensures j == -1 <==> OTHER !in old(m) && |old(m)| == CSIZE
      ensures mid == if j == -1 then old(pcm[..]) else old(pcm[..])[j := Rec(OTHER, old(pcm[j].sums))]
      ensures m == if j == -1 then old(m) else old(m)[OTHER := old(pcm[j].sums)]
      ensures j != -1 ==> old(pcm[j].name) == if OTHER in old(m) then OTHER else ""
      ensures j != -1 && OTHER !in old(m) ==> old(Reached(Home(OTHER), j))
      ensures SlotsHold(mid, m) && pcm[..] == Merged(mid, j)
    {
      hide Plus;
      hide Merged;
      hide Clean;
      hide NameOk;
      hide SlotOk;
      hide SlotsHold;
      hide Home;
      hide HashTo;
      CleanOther();
      j := Enter(Rec(OTHER, ZERO));
      mid := pcm[..];
      if j != -1 {
        PlusZero(old(pcm[j].sums));
      }
      SlotsHeld(this);
      MergeInto(j, mid);
    }

    method MergeInto(j: int, ghost mid: seq<Rec>)
      requires pcm.Length == CSIZE && -1 <= j < CSIZE && mid == pcm[..]
      modifies pcm
      ensures pcm[..] == Merged(mid, j)
    {
      hide Plus;
      var i := 0;
      if j != -1 {
        PlusZero(mid[j].sums);
      }
      while i < CSIZE
        invariant 0 <= i <= CSIZE == |mid|
        invariant j != -1 ==> pcm[j] == mid[j].(sums := Plus(mid[j].sums, JunkSum(mid, j, i)))
        invariant forall q :: 0 <= q < i && q != j ==> pcm[q] == MergedSlot(mid, j, q)
        invariant forall q :: i <= q < CSIZE && q != j ==> pcm[q] == mid[q]
      {
        if i != j && pcm[i].name != "" && pcm[i].sums.pc0 + pcm[i].sums.pc1 <= 1 {
          if j != -1 {
            PlusAssoc(mid[j].sums, JunkSum(mid, j, i), mid[i].sums);
            pcm[j] := pcm[j].(sums := Plus(pcm[j].sums, pcm[i].sums));
          }
          pcm[i] := pcm[i].(name := "");
        }
        i := i + 1;
      }
    }

    /** Squeeze out the empty slots: the occupied ones move to the front, in order. */
    method Squeeze()
      requires pcm.Length == CSIZE
      modifies pcm, `csize
      ensures csize == |Live(old(pcm[..]), CSIZE)| <= CSIZE
      ensures pcm[..csize] == Live(old(pcm[..]), CSIZE)
    {
      ghost var was := pcm[..];
      var i, k := 0, 0;
      while i < CSIZE
        invariant 0 <= k <= i <= CSIZE == |was| && k == |Live(was, i)|
        invariant forall t :: 0 <= t < k ==> pcm[t] == Live(was, i)[t]
        invariant forall t :: i <= t < CSIZE ==> pcm[t] == was[t]
      {
        if pcm[i].name != "" {
          pcm[k] := pcm[i];
          k := k + 1;
        }
        i := i + 1;
      }
      csize := k;
    }
  }

  lemma CleanOther()
    ensures Clean(OTHER) == OTHER
  {
  }

  /** A record without a name, and behind it a name whose home is the first slot, into the clear table:
      the name is charged with both.  Such a name is "bree". */
  method NamelessInherited(s: Sums, u: Sums) returns (r: Rec)
    ensures r == Rec("bree", Plus(s, u))
  {
    hide Plus;
    hide Home;
    hide HashTo;
    HomesOf();
    CleanBree();
    var t := new Table();
    PlusZero(s);
    label empty:
    var i := t.Enter(Rec("", s));
    hide Clean;
    assert i != -1;
    assert i == 0 by {
      assert old@empty(t.pcm[0].name) == "" && Dist(0, 0, CSIZE) == 0 && Dist(0, i, CSIZE) == i;
    }
    assert t.pcm[0] == Rec("", s);
    i := t.Enter(Rec("bree", u));
    r := t.pcm[i];
  }

  lemma CleanBree()
    ensures Clean("bree") == "bree" && Clean("") == ""
  {
  }

  lemma HomesOf()
    ensures Home("bree") == 0 && Home("") == 0
  {
    assert HashTo("bree", 4) == ((98 * 7 + 114) * 7 + 101) * 7 + 101;
    assert HashTo("bree", 8) == HashTo("bree", 4) * 2401;
  }

  // ----- The whole summary ------------------------------------------------------------------------

  function CleanRec(r: Rec): Rec {
    Rec(Clean(r.name), r.sums)
  }

  function CleanAll(rs: seq<Rec>): (r: seq<Rec>)
    ensures |r| == |rs|
  {
    if rs == [] then [] else CleanAll(rs[..|rs| - 1]) + [CleanRec(rs[|rs| - 1])]
  }

  /** The names of the records, but for the empty one. */
  function NamesOf(rs: seq<Rec>): set<string> {
    if rs == [] then {}
    else NamesOf(rs[..|rs| - 1]) + if rs[|rs| - 1].name != "" then {rs[|rs| - 1].name} else {}
  }

  lemma NamesSnoc(rs: seq<Rec>, r: Rec)
    ensures NamesOf(rs + [r]) == NamesOf(rs) + if r.name != "" then {r.name} else {}
  {
    assert (rs + [r])[..|rs|] == rs;
  }

  lemma {:induction false} NamesAre(rs: seq<Rec>, n: string)
    ensures n in NamesOf(rs) <==> n != "" && exists i :: 0 <= i < |rs| && rs[i].name == n
  {
    if rs != [] {
      var init := rs[..|rs| - 1];
      NamesAre(init, n);
      if i :| 0 <= i < |init| && init[i].name == n {
        assert rs[i].name == n;
      }
      if i :| 0 <= i < |rs| && rs[i].name == n {
        assert i < |init| ==> init[i].name == n;
      }
    }
  }

  predicate Named(rs: seq<Rec>) {
    forall i :: 0 <= i < |rs| ==> rs[i].name != ""
  }

  /** The name occurs before any record without a name. */
  ghost predicate Early(rs: seq<Rec>, n: string) {
    exists i :: 0 <= i < |rs| && rs[i].name == n && Named(rs[..i + 1])
  }

  /** A record is taken if its name was seen before or there is room for one more name. */
  predicate Takes(names: set<string>, n: string) {
    n in names || |names| < CSIZE
  }

  /** The records that are summed; the others are turned away one by one. */
  function Taken(rs: seq<Rec>): (r: seq<Rec>)
    ensures |r| <= |rs|
  {
    if rs == [] then []
    else
      var before, last := Taken(rs[..|rs| - 1]), rs[|rs| - 1];
      if Takes(NamesOf(before), last.name) then before + [last] else before
  }

  lemma TakenSnoc(rs: seq<Rec>, r: Rec)
    ensures Taken(rs + [r]) == Taken(rs) + if Takes(NamesOf(Taken(rs)), r.name) then [r] else []
  {
    assert (rs + [r])[..|rs|] == rs;
  }

  lemma SumSnoc(rs: seq<Rec>, r: Rec, n: string)
    ensures SumOf(rs + [r], n) == if r.name == n then Plus(SumOf(rs, n), r.sums) else SumOf(rs, n)
  {
    assert (rs + [r])[..|rs|] == rs;
  }

  /** A name is left out only when there are CSIZE others, and then altogether: a name that is in the
      table has the sum of all its records, those behind the overflow too. */
  lemma {:induction false} TakenKeeps(rs: seq<Rec>)
    ensures NamesOf(Taken(rs)) <= NamesOf(rs) && |NamesOf(Taken(rs))| <= CSIZE
    ensures NamesOf(Taken(rs)) == NamesOf(rs) || |NamesOf(Taken(rs))| == CSIZE
    ensures forall n :: n in NamesOf(Taken(rs)) ==> SumOf(Taken(rs), n) == SumOf(rs, n)
    ensures Named(rs) ==> Named(Taken(rs))
  {
    if rs != [] {
      var init, last := rs[..|rs| - 1], rs[|rs| - 1];
      TakenKeeps(init);
      hide *;
      assert rs == init + [last];
      TakenStep(init, last);
      forall n | n in NamesOf(Taken(rs))
        ensures SumOf(Taken(rs), n) == SumOf(rs, n)
      {
        TakenSum(init, last, n);
      }
    }
  }

  lemma TakenStep(rs: seq<Rec>, r: Rec)
    requires NamesOf(Taken(rs)) <= NamesOf(rs) && |NamesOf(Taken(rs))| <= CSIZE
    requires NamesOf(Taken(rs)) == NamesOf(rs) || |NamesOf(Taken(rs))| == CSIZE
    requires Named(rs) ==> Named(Taken(rs))
    ensures var names, all := NamesOf(Taken(rs + [r])), NamesOf(rs + [r]);
      names <= all && |names| <= CSIZE && (names == all || |names| == CSIZE)
    ensures Named(rs + [r]) ==> Named(Taken(rs + [r]))
  {
    hide *;
    TakenSnoc(rs, r);
    NamesSnoc(rs, r);
    NamesSnoc(Taken(rs), r);
    NamesStep(NamesOf(Taken(rs)), NamesOf(rs), r.name);
    NamedSnoc(rs, r);
    NamedSnoc(Taken(rs), r);
    assert Taken(rs) + [] == Taken(rs);
  }

  lemma NamesStep(names: set<string>, all: set<string>, n: string)
    requires names <= all && |names| <= CSIZE && (names == all || |names| == CSIZE)
    ensures var more := if n != "" then {n} else {};
      var names2 := if Takes(names, n) then names + more else names;
      names2 <= all + more && |names2| <= CSIZE && (names2 == all + more || |names2| == CSIZE)
  {
    CountMore(names, n);
    assert names + {} == names && all + {} == all;
  }

  lemma NamedSnoc(rs: seq<Rec>, r: Rec)
    ensures Named(rs + [r]) <==> Named(rs) && r.name != ""
  {
    var all := rs + [r];
    if Named(all) {
      assert all[|rs|].name != "";
      forall i | 0 <= i < |rs|
        ensures rs[i].name != ""
      {
        assert all[i].name != "";
      }
    }
  }

  lemma TakenSum(rs: seq<Rec>, r: Rec, n: string)
    requires NamesOf(Taken(rs)) == NamesOf(rs) || |NamesOf(Taken(rs))| == CSIZE
    requires n in NamesOf(Taken(rs)) ==> SumOf(Taken(rs), n) == SumOf(rs, n)
    requires n in NamesOf(Taken(rs + [r]))
    ensures SumOf(Taken(rs + [r]), n) == SumOf(rs + [r], n)
  {
    TakenSnoc(rs, r);
    NamesSnoc(Taken(rs), r);
    SumSnoc(rs, r, n);
    SumSnoc(Taken(rs), r, n);
    hide Taken;
    hide NamesOf;
    hide SumOf;
    hide Plus;
    if n !in NamesOf(Taken(rs)) {
      SumOfAbsent(rs, n);
      SumOfAbsent(Taken(rs), n);
    } else {
      assert Taken(rs) + [] == Taken(rs);
    }
  }

  lemma CountMore(names: set<string>, n: string)
    ensures |names + {n}| == if n in names then |names| else |names| + 1
  {
    if n in names {
      assert names + {n} == names;
    }
  }

  lemma SumOfAbsent(rs: seq<Rec>, n: string)
    requires n != "" && n !in NamesOf(rs)
    ensures SumOf(rs, n) == ZERO
  {
    forall i | 0 <= i < |rs|
      ensures rs[i].name != n
    {
      NamesAre(rs, n);
    }
    SumOfNone(rs, n);
  }

  /** No record is turned away: there are at most CSIZE names, and fewer before each record without a
      name. */
  ghost predicate Room(rs: seq<Rec>) {
    |NamesOf(rs)| <= 5001 && forall i :: 0 <= i < |rs| && rs[i].name == "" ==> |NamesOf(rs[..i])| < 5001
  }

  lemma {:induction false} TakenAll(rs: seq<Rec>)
    ensures Taken(rs) == rs <==> Room(rs)
  {
    if rs != [] {
      var init, last := rs[..|rs| - 1], rs[|rs| - 1];
      assert rs == init + [last];
      TakenAll(init);
      TakenSnoc(init, last);
      RoomNext(init, last);
      hide Taken;
      hide Room;
      if Taken(rs) == rs {
        assert |Taken(init)| == |init|;
        assert Taken(rs)[..|init|] == Taken(init);
      }
    }
  }

  lemma RoomNext(rs: seq<Rec>, r: Rec)
    ensures Room(rs + [r]) <==> Room(rs) && Takes(NamesOf(rs), r.name)
  {
    var all := rs + [r];
    NamesSnoc(rs, r);
    NamesAre(rs, "");
    CountMore(NamesOf(rs), r.name);
    hide NamesOf;
    assert all[..|rs|] == rs;
    if Room(all) {
      forall i | 0 <= i < |rs| && rs[i].name == ""
        ensures |NamesOf(rs[..i])| < CSIZE
      {
        assert all[i].name == "" && all[..i] == rs[..i];
      }
      assert r.name == "" ==> all[|rs|].name == "";
    }
    if Room(rs) && Takes(NamesOf(rs), r.name) {
      forall i | 0 <= i < |all| && all[i].name == ""
        ensures |NamesOf(all[..i])| < CSIZE
      {
        assert i < |rs| ==> rs[i].name == "" && all[..i] == rs[..i];
      }
    }
  }

  // ----- Where the sums are -----------------------------------------------------------------------

  /** The slot for a name, or for none: the first that is not used, from the home on. */
  function Slot(name: string, used: set<nat>): (i: nat)
    ensures i < CSIZE
  {
    First(Home(name), used, CSIZE, 0)
  }

  /** Which name came into which slot. */
  function In(rs: seq<Rec>): map<nat, string> {
    if rs == [] then map[]
    else
      var init, n := rs[..|rs| - 1], rs[|rs| - 1].name;
      if n == "" || n in NamesOf(init) then In(init) else In(init)[Slot(n, In(init).Keys) := n]
  }

  /** What the records without a name have left in slot i. */
  function Gift(rs: seq<Rec>, i: nat): Sums {
    if rs == [] then ZERO
    else
      var init, r := rs[..|rs| - 1], rs[|rs| - 1];
      if r.name == "" && Slot("", In(init).Keys) == i then Plus(Gift(init, i), r.sums) else Gift(init, i)
  }

  /** What was in the slot of a name when the name came there. */
  function Inherited(rs: seq<Rec>, n: string): Sums {
    if rs == [] then ZERO
    else
      var init := rs[..|rs| - 1];
      if n !in NamesOf(init) && rs[|rs| - 1].name == n then Gift(init, Slot(n, In(init).Keys)) else Inherited(init, n)
  }

  /** The sums of a name: those of its records, and what it found in its slot. */
  function Entry(rs: seq<Rec>, n: string): Sums {
    Plus(Inherited(rs, n), SumOf(rs, n))
  }

  function SlotOf(rs: seq<Rec>, i: nat): Rec {
    if i in In(rs) then Rec(In(rs)[i], Entry(rs, In(rs)[i])) else Rec("", Gift(rs, i))
  }

  /** What no name has taken over: it is all in the first slot that is not used. */
  function Unclaimed(rs: seq<Rec>): Sums {
    var i := Slot("", In(rs).Keys);
    if i in In(rs) then ZERO else Gift(rs, i)
  }

  /** The table is as it must be after the records, slot by slot. */
  ghost predicate Held(slots: seq<Rec>, rs: seq<Rec>) {
    |slots| == CSIZE && forall i :: 0 <= i < CSIZE ==> slots[i] == SlotOf(rs, i)
  }

  lemma InSnoc(rs: seq<Rec>, r: Rec)
    ensures In(rs + [r]) == if r.name == "" || r.name in NamesOf(rs) then In(rs)
                            else In(rs)[Slot(r.name, In(rs).Keys) := r.name]
  {
    assert (rs + [r])[..|rs|] == rs;
  }

  lemma GiftSnoc(rs: seq<Rec>, r: Rec, i: nat)
    ensures Gift(rs + [r], i) ==
            if r.name == "" && Slot("", In(rs).Keys) == i then Plus(Gift(rs, i), r.sums) else Gift(rs, i)
  {
    assert (rs + [r])[..|rs|] == rs;
  }

  lemma InheritedSnoc(rs: seq<Rec>, r: Rec, n: string)
    ensures Inherited(rs + [r], n) ==
            if n !in NamesOf(rs) && r.name == n then Gift(rs, Slot(n, In(rs).Keys)) else Inherited(rs, n)
  {
    assert (rs + [r])[..|rs|] == rs;
  }

  lemma {:induction false} InNamed(rs: seq<Rec>, i: nat)
    requires i in In(rs)
    ensures In(rs)[i] != "" && In(rs)[i] in NamesOf(rs)
  {
    hide Slot;
    var init := rs[..|rs| - 1];
    if i in In(init) {
      InNamed(init, i);
    }
  }

  /** A name that has a slot keeps its inheritance. */
  lemma EntrySame(rs: seq<Rec>, r: Rec, n: string)
    requires n in NamesOf(rs) && r.name != n
    ensures Entry(rs + [r], n) == Entry(rs, n)
  {
    hide Plus;
    InheritedSnoc(rs, r, n);
    SumSnoc(rs, r, n);
  }

  /** A record without a name. */
  lemma HeldNameless(was: seq<Rec>, rs: seq<Rec>, r: Rec, i: nat)
    requires Held(was, rs) && r.name == "" && i == Slot("", In(rs).Keys) && i !in In(rs)
    ensures Held(was[i := Rec("", Plus(was[i].sums, r.sums))], rs + [r])
  {
    var now, all := was[i := Rec("", Plus(was[i].sums, r.sums))], rs + [r];
    InSnoc(rs, r);
    hide Plus;
    hide Slot;
    hide In;
    hide Gift;
    forall k | 0 <= k < CSIZE
      ensures now[k] == SlotOf(all, k)
    {
      GiftSnoc(rs, r, k);
      if k in In(rs) {
        InNamed(rs, k);
        EntrySame(rs, r, In(rs)[k]);
      }
      assert was[k] == SlotOf(rs, k);
    }
  }

  /** One more record of a known name. */
  lemma HeldKnown(was: seq<Rec>, rs: seq<Rec>, r: Rec, i: nat)
    requires Held(was, rs) && DistinctSlots(was) && r.name in NamesOf(rs) && r.name != ""
    requires i < CSIZE && was[i].name == r.name
    ensures Held(was[i := Rec(r.name, Plus(was[i].sums, r.sums))], rs + [r])
  {
    var now, all := was[i := Rec(r.name, Plus(was[i].sums, r.sums))], rs + [r];
    InSnoc(rs, r);
    hide Plus;
    hide Slot;
    hide In;
    hide Gift;
    assert was[i] == SlotOf(rs, i) && i in In(rs);
    forall k | 0 <= k < CSIZE
      ensures now[k] == SlotOf(all, k)
    {
      GiftSnoc(rs, r, k);
      assert was[k] == SlotOf(rs, k);
      if k == i {
        EntryMore(rs, r);
      } else if k in In(rs) {
        InNamed(rs, k);
        assert was[k].name != was[i].name;
        EntrySame(rs, r, In(rs)[k]);
      }
    }
  }

  lemma EntryMore(rs: seq<Rec>, r: Rec)
    requires r.name in NamesOf(rs)
    ensures Entry(rs + [r], r.name) == Plus(Entry(rs, r.name), r.sums)
  {
    hide Plus;
    InheritedSnoc(rs, r, r.name);
    SumSnoc(rs, r, r.name);
    PlusAssoc(Inherited(rs, r.name), SumOf(rs, r.name), r.sums);
  }

  /** The first record of a name. */
  lemma HeldNew(was: seq<Rec>, rs: seq<Rec>, r: Rec, i: nat)
    requires Held(was, rs) && r.name !in NamesOf(rs) && r.name != ""
    requires i == Slot(r.name, In(rs).Keys) && i !in In(rs)
    ensures Held(was[i := Rec(r.name, Plus(was[i].sums, r.sums))], rs + [r])
  {
    var now, all := was[i := Rec(r.name, Plus(was[i].sums, r.sums))], rs + [r];
    InSnoc(rs, r);
    EntryNew(rs, r);
    hide Plus;
    hide Slot;
    hide In;
    hide Gift;
    hide Entry;
    forall k | 0 <= k < CSIZE
      ensures now[k] == SlotOf(all, k)
    {
      GiftSnoc(rs, r, k);
      assert was[k] == SlotOf(rs, k);
      if k != i && k in In(rs) {
        InNamed(rs, k);
        EntrySame(rs, r, In(rs)[k]);
      }
    }
  }

  lemma EntryNew(rs: seq<Rec>, r: Rec)
    requires r.name !in NamesOf(rs) && r.name != ""
    ensures Entry(rs + [r], r.name) == Plus(Gift(rs, Slot(r.name, In(rs).Keys)), r.sums)
  {
    hide Plus;
    InheritedSnoc(rs, r, r.name);
    SumSnoc(rs, r, r.name);
    SumOfAbsent(rs, r.name);
    PlusZero(r.sums);
  }

  /** The slot is that of the name, or the first empty one from its home on. */
  ghost predicate Goes(was: seq<Rec>, n: string, known: bool, i: nat) {
    && i < CSIZE == |was|
    && (if known then was[i].name == n
        else was[i].name == "" &&
             forall q :: 0 <= q < CSIZE && Dist(Home(n), q, CSIZE) < Dist(Home(n), i, CSIZE) ==> was[q].name != "")
  }

  lemma GoesToSlot(was: seq<Rec>, rs: seq<Rec>, n: string, i: nat)
    requires Held(was, rs) && Goes(was, n, false, i)
    ensures i == Slot(n, In(rs).Keys) && i !in In(rs)
  {
    hide In;
    hide Gift;
    hide Entry;
    hide Home;
    var used := In(rs).Keys;
    assert was[i] == SlotOf(rs, i);
    if i in In(rs) {
      InNamed(rs, i);
    }
    forall q | 0 <= q < CSIZE && Dist(Home(n), q, CSIZE) < Dist(Home(n), i, CSIZE)
      ensures q in used
    {
      assert was[q] == SlotOf(rs, q);
    }
    FirstIs(Home(n), used, CSIZE, 0, i);
  }

  lemma HeldNext(was: seq<Rec>, rs: seq<Rec>, r: Rec, i: nat)
    requires Held(was, rs) && DistinctSlots(was) && Goes(was, r.name, r.name in NamesOf(rs), i)
    ensures Held(was[i := Rec(r.name, Plus(was[i].sums, r.sums))], rs + [r])
  {
    NamesAre(rs, "");
    hide Held;
    hide DistinctSlots;
    hide NamesOf;
    hide Plus;
    if r.name in NamesOf(rs) {
      HeldKnown(was, rs, r, i);
    } else {
      GoesToSlot(was, rs, r.name, i);
      if r.name == "" {
        HeldNameless(was, rs, r, i);
      } else {
        HeldNew(was, rs, r, i);
      }
    }
  }

  /** Nothing is left in an empty slot but the first. */
  lemma {:induction false} OnlyFirst(rs: seq<Rec>, i: nat)
    requires i < CSIZE && i !in In(rs) && i != Slot("", In(rs).Keys)
    ensures Gift(rs, i) == ZERO
  {
    if rs != [] {
      var init, r := rs[..|rs| - 1], rs[|rs| - 1];
      assert rs == init + [r];
      InSnoc(init, r);
      GiftSnoc(init, r, i);
      if r.name == "" || r.name in NamesOf(init) {
        OnlyFirst(init, i);
      } else {
        hide NamesOf;
        if i == Slot("", In(init).Keys) {
          assert In(rs).Keys == In(init).Keys + {Slot(r.name, In(init).Keys)};
          StaysFirst(In(init).Keys, Slot(r.name, In(init).Keys), i);
        }
        OnlyFirst(init, i);
      }
    }
  }

  lemma StaysFirst(used: set<nat>, k: nat, i: nat)
    requires i == Slot("", used) && i !in used && i != k
    ensures i == Slot("", used + {k})
  {
    hide Home;
    FirstReached(Home(""), used, CSIZE, 0);
    FirstIs(Home(""), used + {k}, CSIZE, 0, i);
  }

  /** A name that occurs before any record without a name inherits nothing. */
  lemma {:induction false} NothingInherited(rs: seq<Rec>, n: string)
    requires Early(rs, n) && n != ""
    ensures Inherited(rs, n) == ZERO && Entry(rs, n) == SumOf(rs, n)
  {
    var init, r := rs[..|rs| - 1], rs[|rs| - 1];
    assert rs == init + [r];
    PlusZero(SumOf(rs, n));
    EarlyBefore(init, r, n);
    InheritedSnoc(init, r, n);
    if n in NamesOf(init) {
      NothingInherited(init, n);
    } else {
      NoGift(init, Slot(n, In(init).Keys));
    }
  }

  /** What the first record of a name inherits: all that is unclaimed when the name comes into the first
      empty slot, and nothing else. */
  lemma InheritsWhen(rs: seq<Rec>, r: Rec)
    requires r.name != "" && r.name !in NamesOf(rs) && Slot(r.name, In(rs).Keys) !in In(rs)
    ensures Inherited(rs + [r], r.name) ==
            if Slot(r.name, In(rs).Keys) == Slot("", In(rs).Keys) then Unclaimed(rs) else ZERO
  {
    hide In;
    hide Gift;
    hide Slot;
    hide NamesOf;
    InheritedSnoc(rs, r, r.name);
    if Slot(r.name, In(rs).Keys) != Slot("", In(rs).Keys) {
      OnlyFirst(rs, Slot(r.name, In(rs).Keys));
    }
  }

  lemma {:induction false} NoGift(rs: seq<Rec>, i: nat)
    requires Named(rs)
    ensures Gift(rs, i) == ZERO
  {
    hide Slot;
    if rs != [] {
      NoGift(rs[..|rs| - 1], i);
    }
  }

  lemma {:induction false} SumOfNone(rs: seq<Rec>, n: string)
    requires forall i :: 0 <= i < |rs| ==> rs[i].name != n
    ensures SumOf(rs, n) == ZERO
  {
    if rs != [] {
      SumOfNone(rs[..|rs| - 1], n);
    }
  }

  lemma EarlyBefore(rs: seq<Rec>, r: Rec, n: string)
    requires Early(rs + [r], n) && n != ""
    ensures if n in NamesOf(rs) then Early(rs, n) else r.name == n && Named(rs)
  {
    var all := rs + [r];
    var i :| 0 <= i < |all| && all[i].name == n && Named(all[..i + 1]);
    NamesAre(rs, n);
    if i < |rs| {
      assert rs[i].name == n && all[..i + 1] == rs[..i + 1];
    } else {
      assert all[..i + 1] == all;
      forall k | 0 <= k < |rs|
        ensures rs[k].name != ""
      {
        assert all[k].name != "";
      }
      if k :| 0 <= k < |rs| && rs[k].name == n {
        assert Named(rs[..k + 1]);
      }
    }
  }

  /** What is in slot k, if that is an empty one among the first n. */
  function Left(slots: seq<Rec>, k: nat, n: nat): Sums
    requires n <= |slots| && k < |slots|
  {
    if k < n && slots[k].name == "" then slots[k].sums else ZERO
  }

  lemma LiveNext(slots: seq<Rec>, n: nat)
    requires 0 < n <= |slots|
    ensures Total(slots[..n]) == Plus(Total(slots[..n - 1]), slots[n - 1].sums)
    ensures Total(Live(slots, n)) == if slots[n - 1].name == "" then Total(Live(slots, n - 1))
                                     else Plus(Total(Live(slots, n - 1)), slots[n - 1].sums)
  {
    var last := slots[n - 1];
    assert slots[..n] == slots[..n - 1] + [last];
    TotalSnoc(slots[..n - 1], last);
    TotalSnoc(Live(slots, n - 1), last);
    assert Live(slots, n - 1) + [] == Live(slots, n - 1);
  }

  /** One more slot: an empty one with nothing in it, the one empty slot with something, or another. */
  lemma OneMoreSlot(t: Sums, left: Sums, all: Sums, x: Sums, empty: bool, here: bool)
    requires Plus(t, left) == all && (empty ==> if here then left == ZERO else x == ZERO)
    ensures Plus(if empty then t else Plus(t, x), if empty && here then x else left) == Plus(all, x)
  {
  }

  /** Nothing is in the empty slots but slot k. */
  predicate OnlyIn(slots: seq<Rec>, k: nat) {
    forall i :: 0 <= i < |slots| && i != k && slots[i].name == "" ==> slots[i].sums == ZERO
  }

  lemma NothingIn(slots: seq<Rec>, k: nat, i: nat)
    requires OnlyIn(slots, k) && i < |slots| && i != k && slots[i].name == ""
    ensures slots[i].sums == ZERO
  {
  }

  /** The occupied slots have everything but what is in slot k. */
  lemma {:induction false} LiveTotal(slots: seq<Rec>, k: nat, n: nat)
    requires n <= |slots| && k < |slots| && OnlyIn(slots, k)
    ensures Plus(Total(Live(slots, n)), Left(slots, k, n)) == Total(slots[..n])
  {
    hide *;
    if n == 0 {
      NoSlots(slots, k);
    } else {
      LiveTotal(slots, k, n - 1);
      LiveNext(slots, n);
      LeftNext(slots, k, n);
      var last := slots[n - 1];
      if last.name == "" && n - 1 != k {
        NothingIn(slots, k, n - 1);
      }
      OneMoreSlot(Total(Live(slots, n - 1)), Left(slots, k, n - 1), Total(slots[..n - 1]), last.sums,
                  last.name == "", n - 1 == k);
    }
  }

  lemma LeftNext(slots: seq<Rec>, k: nat, n: nat)
    requires 0 < n <= |slots| && k < |slots|
    ensures n - 1 == k ==> Left(slots, k, n - 1) == ZERO
    ensures Left(slots, k, n) == if slots[n - 1].name == "" && n - 1 == k then slots[n - 1].sums
                                 else Left(slots, k, n - 1)
  {
  }

  lemma NoSlots(slots: seq<Rec>, k: nat)
    requires k < |slots|
    ensures Plus(Total(Live(slots, 0)), Left(slots, k, 0)) == Total(slots[..0])
  {
    PlusZero(ZERO);
    hide Plus;
    assert slots[..0] == [];
    NoTotal();
    hide Total;
  }

  lemma NoTotal()
    ensures Total([]) == ZERO
  {
  }

  /** What the table shows and what no name has taken over are all sums. */
  lemma HeldTotal(slots: seq<Rec>, rs: seq<Rec>)
    requires Held(slots, rs) && Total(slots) == Total(rs)
    ensures Plus(Total(Live(slots, CSIZE)), Unclaimed(rs)) == Total(rs)
  {
    var k := Slot("", In(rs).Keys);
    hide In;
    hide Plus;
    hide Live;
    hide Total;
    hide Slot;
    hide Gift;
    hide Entry;
    forall i | 0 <= i < |slots| && i != k && slots[i].name == ""
      ensures slots[i].sums == ZERO
    {
      assert slots[i] == SlotOf(rs, i);
      if i in In(rs) {
        InNamed(rs, i);
      }
      OnlyFirst(rs, i);
    }
    assert slots[k] == SlotOf(rs, k);
    if k in In(rs) {
      InNamed(rs, k);
    }
    LiveTotal(slots, k, CSIZE);
    assert slots[..CSIZE] == slots;
  }

  /** Adding to one slot adds to the total. */
  lemma {:induction false} OneSlot(slots: seq<Rec>, i: nat, n: string, s: Sums)
    requires i < |slots|
    ensures Total(slots[i := Rec(n, Plus(slots[i].sums, s))]) == Plus(Total(slots), s)
    decreases |slots|
  {
    hide Plus;
    var x := Rec(n, Plus(slots[i].sums, s));
    var after, init, last := slots[i := x], slots[..|slots| - 1], slots[|slots| - 1].sums;
    PlusAssoc(Total(init), last, s);
    if i < |init| {
      OneSlot(init, i, n, s);
      assert after[..|init|] == init[i := x];
      PlusAssoc(Total(init), s, last);
      PlusSwap(s, last);
    } else {
      assert after[..|init|] == init;
    }
  }

  lemma {:induction false} LiveHas(slots: seq<Rec>, n: nat, i: nat)
    requires i < n <= |slots| && slots[i].name != ""
    ensures slots[i] in Live(slots, n)
  {
    if i == n - 1 {
      assert Live(slots, n)[|Live(slots, n - 1)|] == slots[i];
    } else {
      LiveHas(slots, n - 1, i);
    }
  }

  predicate Distinct(rs: seq<Rec>) {
    forall i, j :: 0 <= i < j < |rs| ==> rs[i].name != rs[j].name
  }

  predicate DistinctSlots(slots: seq<Rec>) {
    forall i, j :: 0 <= i < j < |slots| && slots[i].name != "" ==> slots[i].name != slots[j].name
  }

  lemma {:induction false} LiveDistinct(slots: seq<Rec>, n: nat)
    requires n <= |slots| && DistinctSlots(slots)
    ensures Distinct(Live(slots, n))
  {
    if n > 0 {
      LiveDistinct(slots, n - 1);
      var before := Live(slots, n - 1);
      forall i | 0 <= i < |before| && slots[n - 1].name != ""
        ensures before[i].name != slots[n - 1].name
      {
        var q := LiveFrom(slots, n - 1, i);
      }
    }
  }

  /** One entry for each name, with its sums; together all there is but what no name has taken over. */
  ghost predicate Summary(out: seq<Rec>, rs: seq<Rec>) {
    && Distinct(out)
    && (forall r :: r in out ==> r.name in NamesOf(rs) && r.sums == Entry(rs, r.name))
    && (forall n :: n in NamesOf(rs) ==> Rec(n, Entry(rs, n)) in out)
    && Plus(Total(out), Unclaimed(rs)) == Total(rs)
  }

  /** There is a slot for the entry for others. */
  predicate OtherFits(rs: seq<Rec>) {
    |NamesOf(rs) + {OTHER}| <= 5001
  }

  ghost predicate HasOther(out: seq<Rec>) {
    exists r :: r in out && r.name == "***other"
  }

  /** The same with every name of a count of one or less under "others", or left out if that entry
      does not fit. */
  ghost predicate ShortSummary(out: seq<Rec>, rs: seq<Rec>) {
    && Distinct(out)
    && (forall r :: r in out && r.name != OTHER ==>
          r.name in NamesOf(rs) && r.sums == Entry(rs, r.name) && r.sums.pc0 + r.sums.pc1 > 1)
    && (forall n :: n in NamesOf(rs) && n != OTHER ==>
          var s := Entry(rs, n); s.pc0 + s.pc1 <= 1 || Rec(n, s) in out)
    && (HasOther(out) <==> OtherFits(rs))
    && (OtherFits(rs) ==> Plus(Total(out), Unclaimed(rs + [Rec(OTHER, ZERO)])) == Total(rs))
  }

  /** Without nameless records nothing is inherited or left over. */
  lemma AllNamed(rs: seq<Rec>)
    requires Named(rs)
    ensures Unclaimed(rs) == Unclaimed(rs + [Rec(OTHER, ZERO)]) == ZERO
    ensures forall n :: n in NamesOf(rs) ==> Entry(rs, n) == SumOf(rs, n)
  {
    NoGift(rs, Slot("", In(rs).Keys));
    var more := rs + [Rec(OTHER, ZERO)];
    NoGift(more, Slot("", In(more).Keys));
    hide NamesOf;
    hide In;
    hide Gift;
    hide Slot;
    hide Plus;
    forall n | n in NamesOf(rs)
      ensures Entry(rs, n) == SumOf(rs, n)
    {
      NamesAre(rs, n);
      var i :| 0 <= i < |rs| && rs[i].name == n;
      assert Named(rs[..i + 1]);
      NothingInherited(rs, n);
    }
  }

  /** The occupied slots are the entries of m. */
  ghost predicate SlotsHold(slots: seq<Rec>, m: map<string, Sums>) {
    && DistinctSlots(slots)
    && (forall i :: 0 <= i < |slots| && slots[i].name != "" ==> slots[i].name in m && m[slots[i].name] == slots[i].sums)
    && (forall n :: n in m ==> n != "" && exists i :: 0 <= i < |slots| && slots[i] == Rec(n, m[n]))
  }

  lemma HeldEntries(slots: seq<Rec>, m: map<string, Sums>, rs: seq<Rec>)
    requires SlotsHold(slots, m) && Held(slots, rs)
    ensures forall n :: n in m ==> m[n] == Entry(rs, n)
  {
    hide In;
    hide Gift;
    hide Entry;
    hide DistinctSlots;
    forall n | n in m
      ensures m[n] == Entry(rs, n)
    {
      var i :| 0 <= i < |slots| && slots[i] == Rec(n, m[n]);
      assert slots[i] == SlotOf(rs, i);
    }
  }

  /** The live slots are the entries of m. */
  lemma LiveIs(slots: seq<Rec>, m: map<string, Sums>)
    requires SlotsHold(slots, m)
    ensures var out := Live(slots, |slots|);
      (forall r :: r in out ==> r.name in m && m[r.name] == r.sums) && (forall n :: n in m ==> Rec(n, m[n]) in out)
  {
    hide DistinctSlots;
    hide Live;
    var out := Live(slots, |slots|);
    forall r | r in out
      ensures r.name in m && m[r.name] == r.sums
    {
      var k :| 0 <= k < |out| && out[k] == r;
      var i := LiveFrom(slots, |slots|, k);
    }
    forall n | n in m
      ensures Rec(n, m[n]) in out
    {
      var i :| 0 <= i < |slots| && slots[i] == Rec(n, m[n]);
      LiveHas(slots, |slots|, i);
    }
  }

  lemma SummaryOf(slots: seq<Rec>, m: map<string, Sums>, rs: seq<Rec>)
    requires SlotsHold(slots, m) && m.Keys == NamesOf(rs) && Held(slots, rs) && Total(slots) == Total(rs)
    ensures Summary(Live(slots, |slots|), rs)
  {
    assert |slots| == CSIZE && DistinctSlots(slots);
    hide *;
    HeldEntries(slots, m, rs);
    HeldTotal(slots, rs);
    LiveDistinct(slots, |slots|);
    LiveIs(slots, m);
    AllEntries(Live(slots, |slots|), m, rs);
  }

  lemma AllEntries(out: seq<Rec>, m: map<string, Sums>, rs: seq<Rec>)
    requires m.Keys == NamesOf(rs) && Distinct(out) && Plus(Total(out), Unclaimed(rs)) == Total(rs)
    requires forall n :: n in m ==> m[n] == Entry(rs, n)
    requires forall r :: r in out ==> r.name in m && m[r.name] == r.sums
    requires forall n :: n in m ==> Rec(n, m[n]) in out
    ensures Summary(out, rs)
  {
    hide Total;
    hide NamesOf;
    hide Entry;
    hide Plus;
    hide Unclaimed;
    hide Distinct;
  }

  lemma MergedDistinct(slots: seq<Rec>, j: int)
    requires DistinctSlots(slots) && -1 <= j < |slots|
    ensures DistinctSlots(Merged(slots, j))
  {
    hide JunkSum;
    var t := Merged(slots, j);
    forall a, b | 0 <= a < b < |t| && t[a].name != ""
      ensures t[a].name != t[b].name
    {
      assert t[a] == MergedSlot(slots, j, a) && t[b] == MergedSlot(slots, j, b);
    }
  }

  /** Slot j is the entry for others, or there is no such entry and j is -1. */
  ghost predicate OtherAt(slots: seq<Rec>, j: int, m: map<string, Sums>) {
    if j == -1 then OTHER !in m else 0 <= j < |slots| && slots[j].name == OTHER
  }

  /** What is kept of the entries of m is as it was, and everything but the junk is kept. */
  lemma MergedKeeps(slots: seq<Rec>, j: int, m: map<string, Sums>)
    requires SlotsHold(slots, m) && OtherAt(slots, j, m)
    ensures var out := Live(Merged(slots, j), |slots|);
      && (forall r :: r in out && r.name != OTHER ==>
            r.name in m && r.sums == m[r.name] && r.sums.pc0 + r.sums.pc1 > 1)
      && (forall n :: n in m && n != OTHER && m[n].pc0 + m[n].pc1 > 1 ==> Rec(n, m[n]) in out)
      && (HasOther(out) <==> j != -1)
  {
    assert j < |slots|;
    KeptOther(slots, j, m);
    hide *;
    var out := Live(Merged(slots, j), |slots|);
    forall r | r in out && r.name != OTHER
      ensures r.name in m && r.sums == m[r.name] && r.sums.pc0 + r.sums.pc1 > 1
    {
      KeptIs(slots, j, m, r);
    }
    forall n | n in m && n != OTHER && m[n].pc0 + m[n].pc1 > 1
      ensures Rec(n, m[n]) in out
    {
      KeptHas(slots, j, m, n);
    }
  }

  lemma KeptOther(slots: seq<Rec>, j: int, m: map<string, Sums>)
    requires SlotsHold(slots, m) && OtherAt(slots, j, m)
    ensures HasOther(Live(Merged(slots, j), |slots|)) <==> j != -1
  {
    hide Live;
    hide JunkSum;
    hide DistinctSlots;
    var t := Merged(slots, j);
    var out := Live(t, |slots|);
    if j != -1 {
      assert t[j] == MergedSlot(slots, j, j);
      LiveHas(t, |slots|, j);
    } else if HasOther(out) {
      var r :| r in out && r.name == OTHER;
      var k :| 0 <= k < |out| && out[k] == r;
      var i := LiveFrom(t, |slots|, k);
    }
  }

  lemma KeptIs(slots: seq<Rec>, j: int, m: map<string, Sums>, r: Rec)
    requires SlotsHold(slots, m) && OtherAt(slots, j, m)
    requires r in Live(Merged(slots, j), |slots|) && r.name != OTHER
    ensures r.name in m && r.sums == m[r.name] && r.sums.pc0 + r.sums.pc1 > 1
  {
    hide Live;
    hide JunkSum;
    hide DistinctSlots;
    var t := Merged(slots, j);
    var k :| 0 <= k < |Live(t, |slots|)| && Live(t, |slots|)[k] == r;
    var i := LiveFrom(t, |slots|, k);
    assert t[i] == MergedSlot(slots, j, i);
  }

  lemma KeptHas(slots: seq<Rec>, j: int, m: map<string, Sums>, n: string)
    requires SlotsHold(slots, m) && OtherAt(slots, j, m)
    requires n in m && n != OTHER && m[n].pc0 + m[n].pc1 > 1
    ensures Rec(n, m[n]) in Live(Merged(slots, j), |slots|)
  {
    hide Live;
    hide JunkSum;
    hide DistinctSlots;
    var t := Merged(slots, j);
    var i :| 0 <= i < |slots| && slots[i] == Rec(n, m[n]);
    assert t[i] == MergedSlot(slots, j, i) == slots[i];
    LiveHas(t, |slots|, i);
  }

  /** From the table with the entry for others in it, if it fits. */
  lemma ShortOf(slots: seq<Rec>, j: int, m: map<string, Sums>, rs: seq<Rec>)
    requires SlotsHold(slots, m) && OtherAt(slots, j, m) && (j == -1 <==> !OtherFits(rs))
    requires m.Keys + {OTHER} == NamesOf(rs) + {OTHER}
    requires forall n :: n in m && n != OTHER ==> m[n] == Entry(rs, n)
    requires j != -1 ==> Plus(Total(Live(slots, |slots|)), Unclaimed(rs + [Rec(OTHER, ZERO)])) == Total(rs)
    ensures ShortSummary(Live(Merged(slots, j), |slots|), rs)
  {
    hide Live;
    hide Merged;
    hide Total;
    hide NamesOf;
    hide Entry;
    hide Unclaimed;
    hide Plus;
    hide HasOther;
    hide OtherFits;
    hide ShortSummary;
    hide DistinctSlots;
    var out := Live(Merged(slots, j), |slots|);
    ShortDistinct(slots, j);
    if j != -1 {
      MergeConserves(slots, j);
    }
    MergedKeeps(slots, j, m);
    ShortIs(out, m, rs);
  }

  lemma ShortDistinct(slots: seq<Rec>, j: int)
    requires DistinctSlots(slots) && -1 <= j < |slots|
    ensures Distinct(Live(Merged(slots, j), |slots|))
  {
    hide *;
    MergedDistinct(slots, j);
    LiveDistinct(Merged(slots, j), |slots|);
  }

  lemma ShortIs(out: seq<Rec>, m: map<string, Sums>, rs: seq<Rec>)
    requires Distinct(out) && (HasOther(out) <==> OtherFits(rs))
    requires OtherFits(rs) ==> Plus(Total(out), Unclaimed(rs + [Rec(OTHER, ZERO)])) == Total(rs)
    requires m.Keys + {OTHER} == NamesOf(rs) + {OTHER}
    requires forall n :: n in m && n != OTHER ==> m[n] == Entry(rs, n)
    requires forall r :: r in out && r.name != OTHER ==>
                           r.name in m && r.sums == m[r.name] && r.sums.pc0 + r.sums.pc1 > 1
    requires forall n :: n in m && n != OTHER && m[n].pc0 + m[n].pc1 > 1 ==> Rec(n, m[n]) in out
    ensures ShortSummary(out, rs)
  {
    hide Entry;
    hide Unclaimed;
    hide Plus;
    hide Total;
    hide NamesOf;
    hide HasOther;
    hide OtherFits;
    forall n | n != OTHER
      ensures n in m <==> n in NamesOf(rs)
    {
      assert n in m.Keys + {OTHER} <==> n in NamesOf(rs) + {OTHER};
    }
  }

  /** The table with the entry for others. */
  lemma OtherHeld(was: seq<Rec>, j: nat, rs: seq<Rec>, mid: seq<Rec>)
    requires Held(was, rs) && DistinctSlots(was) && Total(was) == Total(rs)
    requires Goes(was, OTHER, OTHER in NamesOf(rs), j)
    requires mid == was[j := Rec(OTHER, was[j].sums)]
    ensures Held(mid, rs + [Rec(OTHER, ZERO)])
    ensures Plus(Total(Live(mid, CSIZE)), Unclaimed(rs + [Rec(OTHER, ZERO)])) == Total(rs)
  {
    assert j < |was|;
    hide *;
    var r := Rec(OTHER, ZERO);
    PlusZero(was[j].sums);
    HeldNext(was, rs, r, j);
    OneSlot(was, j, OTHER, ZERO);
    PlusZero(Total(rs));
    TotalSnoc(rs, r);
    HeldTotal(mid, rs + [r]);
  }

  lemma AfterMerge(was: seq<Rec>, m: map<string, Sums>, j: int, rs: seq<Rec>, mid: seq<Rec>, m2: map<string, Sums>)
    requires m.Keys == NamesOf(rs) && Held(was, rs) && SlotsHold(was, m) && Total(was) == Total(rs)
    requires -1 <= j < |was| && (j == -1 <==> !OtherFits(rs)) && (j == -1 ==> OTHER !in m)
    requires j != -1 ==> Goes(was, OTHER, OTHER in m, j)
    requires mid == if j == -1 then was else was[j := Rec(OTHER, was[j].sums)]
    requires m2 == if j == -1 then m else m[OTHER := was[j].sums]
    requires SlotsHold(mid, m2)
    ensures ShortSummary(Live(Merged(mid, j), |was|), rs)
  {
    HeldEntries(was, m, rs);
    assert |was| == CSIZE && DistinctSlots(was);
    hide *;
    OtherIn(j, m, m2, mid);
    if j != -1 {
      OtherHeld(was, j, rs, mid);
    }
    ShortOf(mid, j, m2, rs);
  }

  lemma OtherIn(j: int, m: map<string, Sums>, m2: map<string, Sums>, mid: seq<Rec>)
    requires -1 <= j < |mid| && (j == -1 ==> OTHER !in m)
    requires if j == -1 then m2 == m else mid[j].name == OTHER && m2 == m[OTHER := mid[j].sums]
    ensures OtherAt(mid, j, m2) && m2.Keys + {OTHER} == m.Keys + {OTHER}
    ensures forall n :: n in m2 && n != OTHER ==> n in m && m2[n] == m[n]
  {
  }

  lemma SlotsHeld(t: Table)
    requires t.Valid()
    ensures SlotsHold(t.pcm[..], t.m)
  {
    hide Table.Reached;
    var slots := t.pcm[..];
    forall i | 0 <= i < |slots| && slots[i].name != ""
      ensures slots[i].name in t.m && t.m[slots[i].name] == slots[i].sums && t.at[slots[i].name] == i
    {
      assert t.SlotOk(i);
      assert t.NameOk(slots[i].name);
    }
    forall n | n in t.m
      ensures n != "" && exists i :: 0 <= i < |slots| && slots[i] == Rec(n, t.m[n])
    {
      assert t.NameOk(n);
      assert slots[t.at[n]] == Rec(n, t.m[n]);
    }
  }

  lemma {:induction false} NamesCount(slots: seq<Rec>)
    requires DistinctSlots(slots)
    ensures |NamesOf(slots)| <= |slots|
    ensures |NamesOf(slots)| == |slots| <==> Named(slots)
  {
    if slots != [] {
      var init, n := slots[..|slots| - 1], slots[|slots| - 1].name;
      NamesCount(init);
      NamesAre(init, n);
      CountMore(NamesOf(init), n);
      assert NamesOf(init) + {} == NamesOf(init);
    }
  }

  /** A table holds as many names as it has slots exactly when no slot is empty: that many others it
      takes for a name to be turned away. */
  lemma FullTable(slots: seq<Rec>, m: map<string, Sums>)
    requires SlotsHold(slots, m)
    ensures |m| <= |slots| && (|m| == |slots| <==> Named(slots))
  {
    NamesCount(slots);
    forall s
      ensures s in m <==> s in NamesOf(slots)
    {
      NamesAre(slots, s);
      if s in m {
        var i :| 0 <= i < |slots| && slots[i] == Rec(s, m[s]);
        assert slots[i].name == s;
      }
    }
    assert m.Keys == NamesOf(slots);
    assert |m| == |m.Keys|;
  }

  /** The table after the records: its names, its slots and their total. */
  ghost predicate Entered(m: map<string, Sums>, slots: seq<Rec>, rs: seq<Rec>) {
    m.Keys == NamesOf(Taken(rs)) && Held(slots, Taken(rs)) && Total(slots) == Total(Taken(rs))
  }

  lemma EnterEffect(m: map<string, Sums>, was: seq<Rec>, rs: seq<Rec>, r: Rec, i: nat)
    requires Entered(m, was, rs) && DistinctSlots(was) && Takes(NamesOf(Taken(rs)), r.name)
    requires Goes(was, r.name, r.name in m, i)
    ensures Entered(if r.name == "" then m else m[r.name := Plus(was[i].sums, r.sums)],
                    was[i := Rec(r.name, Plus(was[i].sums, r.sums))], rs + [r])
  {
    assert i < |was|;
    hide *;
    var taken := Taken(rs);
    EnteredIs(m, was, rs);
    TakenMore(rs, r);
    OneSlot(was, i, r.name, r.sums);
    TotalSnoc(taken, r);
    NamesSnoc(taken, r);
    HeldNext(was, taken, r, i);
    var x := Plus(was[i].sums, r.sums);
    KeysNext(m, r.name, x, NamesOf(taken));
    EnteredIs(if r.name == "" then m else m[r.name := x], was[i := Rec(r.name, x)], rs + [r]);
  }

  lemma EnteredIs(m: map<string, Sums>, slots: seq<Rec>, rs: seq<Rec>)
    ensures Entered(m, slots, rs) <==>
            m.Keys == NamesOf(Taken(rs)) && Held(slots, Taken(rs)) && Total(slots) == Total(Taken(rs))
  {
    hide Held;
    hide Total;
    hide NamesOf;
    hide Taken;
  }

  lemma TakenMore(rs: seq<Rec>, r: Rec)
    requires Takes(NamesOf(Taken(rs)), r.name)
    ensures Taken(rs + [r]) == Taken(rs) + [r]
  {
    TakenSnoc(rs, r);
  }

  lemma KeysNext(m: map<string, Sums>, n: string, x: Sums, names: set<string>)
    requires m.Keys == names
    ensures (if n == "" then m else m[n := x]).Keys == names + if n != "" then {n} else {}
  {
  }

  /** Enter all the records; ok tells that none was turned away. */
  method EnterAll(t: Table, rs: seq<Rec>) returns (ok: bool)
    requires t.Valid() && t.m == map[] && forall i :: 0 <= i < CSIZE ==> t.pcm[i] == Rec("", ZERO)
    modifies t.pcm, t`m, t`at
    ensures t.Valid() && Entered(t.m, t.pcm[..], CleanAll(rs))
    ensures ok <==> Room(CleanAll(rs))
  {
    hide Table.Valid;
    hide Total;
    hide Entered;
    hide Room;
    hide Clean;
    hide Taken;
    hide NamesOf;
    var i := 0;
    ok := true;
    NothingEntered(t.pcm[..]);
    assert rs[..0] == [];
    while i < |rs|
      invariant 0 <= i <= |rs| && t.Valid()
      invariant Entered(t.m, t.pcm[..], CleanAll(rs[..i]))
      invariant ok <==> Taken(CleanAll(rs[..i])) == CleanAll(rs[..i])
    {
      TakenNext(CleanAll(rs[..i]), CleanRec(rs[i]));
      CleanNext(rs, i);
      var r := EnterNext(t, rs[i], CleanAll(rs[..i]));
      ok := ok && r != -1;
      i := i + 1;
    }
    assert rs[..i] == rs;
    TakenAll(CleanAll(rs));
  }

  lemma TakenNext(rs: seq<Rec>, r: Rec)
    ensures Taken(rs + [r]) == rs + [r] <==> Taken(rs) == rs && Takes(NamesOf(Taken(rs)), r.name)
  {
    TakenSnoc(rs, r);
    if Taken(rs + [r]) == rs + [r] {
      assert |Taken(rs)| == |rs|;
      assert Taken(rs + [r])[..|rs|] == Taken(rs);
      assert (rs + [r])[..|rs|] == rs;
    }
  }

  method EnterNext(t: Table, p: Rec, ghost rs: seq<Rec>) returns (r: int)
    requires t.Valid() && Entered(t.m, t.pcm[..], rs)
    modifies t.pcm, t`m, t`at
    ensures t.Valid() && Entered(t.m, t.pcm[..], rs + [CleanRec(p)])
    ensures r == -1 <==> !Takes(NamesOf(Taken(rs)), Clean(p.name))
  {
    hide Table.Valid;
    hide Total;
    hide Home;
    hide HashTo;
    hide Clean;
    hide Plus;
    hide NamesOf;
    hide Taken;
    hide Held;
    hide DistinctSlots;
    ghost var m, was := t.m, t.pcm[..];
    SlotsHeld(t);
    FullTable(was, m);
    TakenSnoc(rs, CleanRec(p));
    assert Taken(rs) + [] == Taken(rs);
    assert |m| == |m.Keys|;
    r := t.Enter(p);
    if r != -1 {
      EnterEffect(m, was, rs, CleanRec(p), r);
    }
  }

  lemma NoRecords()
    ensures CleanAll([]) == [] == Taken([]) && Total([]) == ZERO && In([]) == map[] && NamesOf([]) == {}
    ensures forall i: nat :: Gift([], i) == ZERO
  {
  }

  lemma NothingEntered(slots: seq<Rec>)
    requires |slots| == CSIZE && forall i :: 0 <= i < CSIZE ==> slots[i] == Rec("", ZERO)
    ensures Entered(map[], slots, CleanAll([])) && Taken(CleanAll([])) == CleanAll([])
  {
    NoRecords();
    ClearTotal(slots);
    hide CleanAll;
    hide Taken;
    hide Total;
    hide In;
    hide NamesOf;
    hide Gift;
    hide Entry;
  }

  lemma CleanNext(rs: seq<Rec>, i: nat)
    requires i < |rs|
    ensures CleanAll(rs[..i + 1]) == CleanAll(rs[..i]) + [CleanRec(rs[i])]
  {
    assert rs[..i + 1][..i] == rs[..i];
  }

  lemma {:induction false} ClearTotal(slots: seq<Rec>)
    requires forall i :: 0 <= i < |slots| ==> slots[i] == Rec("", ZERO)
    ensures Total(slots) == ZERO
  {
    hide Plus;
    PlusZero(ZERO);
    if slots != [] {
      var init := slots[..|slots| - 1];
      ClearTotal(init);
      assert Total(slots) == Plus(Total(init), slots[|slots| - 1].sums);
    }
  }

  /** The program, up to the order of its output: with -j the rare commands are put together.  A record
      that does not fit is turned away with a message, and the program goes on with the next. */
  method Summarize(rs: seq<Rec>, jflg: bool) returns (out: seq<Rec>, ok: bool)
    ensures !jflg ==> Summary(out, Taken(CleanAll(rs)))
    ensures jflg ==> ShortSummary(out, Taken(CleanAll(rs)))
    ensures ok <==> Room(CleanAll(rs)) && (jflg ==> OtherFits(CleanAll(rs)))
  {
    hide Live;
    hide Total;
    hide Held;
    hide Table.Valid;
    hide Merged;
    hide Summary;
    hide ShortSummary;
    hide SlotsHold;
    hide NamesOf;
    hide Taken;
    hide Room;
    hide Home;
    ghost var cs := CleanAll(rs);
    ghost var taken := Taken(cs);
    var t := new Table();
    ok := EnterAll(t, rs);
    SlotsHeld(t);
    TakenKeeps(cs);
    TakenAll(cs);
    if jflg {
      ghost var was, m := t.pcm[..], t.m;
      var j, mid := t.Fixjunk();
      OtherFitsIs(m, taken);
      AfterMerge(was, m, j, taken, mid, t.m);
      ok := ok && j != -1;
    } else {
      SummaryOf(t.pcm[..], t.m, taken);
    }
    t.Squeeze();
    out := t.pcm[..t.csize];
  }

  lemma OtherFitsIs(m: map<string, Sums>, rs: seq<Rec>)
    requires m.Keys == NamesOf(rs) && |NamesOf(rs)| <= CSIZE
    ensures OtherFits(rs) <==> !(OTHER !in m && |m| == CSIZE)
  {
    assert |m| == |m.Keys|;
    CountMore(NamesOf(rs), OTHER);
  }
}
