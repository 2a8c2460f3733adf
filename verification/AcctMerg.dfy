/** acctmerg (usr/src/common/cmd/acct/acctmerg.c): merge streams of total accounting records, adding
    up the records of each user. */
module AcctMerg {
  import opened Lex

  const NFILE := 100

  // ----- Totals ---------------------------------------------------------------------------------

  /** The summed fields of a record: prime and nonprime CPU, kcore and connect minutes, disk usage,
      and the counts of processes, sessions, disk samples and fees. */
  datatype Totals = Totals(cpu0: real, cpu1: real, kcore0: real, kcore1: real, con0: real, con1: real,
                           du: real, pc: int, sc: int, dc: int, fee: int)

  const ZERO := Totals(0.0, 0.0, 0.0, 0.0, 0.0, 0.0, 0.0, 0, 0, 0, 0)

  function Plus(a: Totals, b: Totals): Totals {
    Totals(a.cpu0 + b.cpu0, a.cpu1 + b.cpu1, a.kcore0 + b.kcore0, a.kcore1 + b.kcore1,
           a.con0 + b.con0, a.con1 + b.con1, a.du + b.du, a.pc + b.pc, a.sc + b.sc, a.dc + b.dc, a.fee + b.fee)
  }

  lemma PlusZero(a: Totals)
    ensures Plus(ZERO, a) == a && Plus(a, ZERO) == a
  {
  }

  lemma PlusAssoc(a: Totals, b: Totals, c: Totals)
    ensures Plus(Plus(a, b), c) == Plus(a, Plus(b, c))
  {
  }

  lemma PlusSwap(a: Totals, b: Totals, c: Totals, d: Totals)
    ensures Plus(Plus(a, b), Plus(c, d)) == Plus(Plus(a, c), Plus(b, d))
  {
  }

  // ----- Keys -----------------------------------------------------------------------------------

  /** A record; names have at most eight characters, and a record without a name counts as none. */
  datatype Tacct = Tacct(uid: int, name: string, totals: Totals)

  datatype Key = Key(uid: int, name: string)

  /** What records are merged by: uid and name, or with -u the uid alone. */
  function KeyOf(t: Tacct, uidsum: bool): Key {
    Key(t.uid, if uidsum then "" else t.name)
  }

  predicate Less(a: Key, b: Key) {
    a.uid < b.uid || (a.uid == b.uid && LexLess(a.name, b.name))
  }

  /** Keys are totally ordered. */
  lemma LessOrder(a: Key, b: Key)
    ensures !(Less(a, b) && Less(b, a))
    ensures !Less(a, b) && !Less(b, a) <==> a == b
  {
    LexOrder(a.name, b.name);
  }

  lemma LessTransitive(a: Key, b: Key, c: Key)
    requires Less(a, b) && Less(b, c)
    ensures Less(a, c)
  {
    if a.uid == b.uid == c.uid {
      LexTransitive(a.name, b.name, c.name);
    }
  }

  // ----- Streams --------------------------------------------------------------------------------

  /** The records of a stream that are ever read: those before the first without a name. */
  function Live(s: seq<Tacct>): (r: seq<Tacct>)
    ensures r <= s && (forall i :: 0 <= i < |r| ==> r[i].name != "")
    ensures |r| < |s| ==> s[|r|].name == ""
  {
    if s == [] || s[0].name == "" then [] else [s[0]] + Live(s[1..])
  }

  function Lives(inputs: seq<seq<Tacct>>): (r: seq<seq<Tacct>>)
    ensures |r| == |inputs| && forall i :: 0 <= i < |r| ==> r[i] == Live(inputs[i])
  {
    seq(|inputs|, i requires 0 <= i < |inputs| => Live(inputs[i]))
  }

  /** Which records to add up. */
  datatype Pick = All | Only(key: Key)

  predicate Picks(p: Pick, k: Key) {
    p.All? || p.key == k
  }

  /** The sum of the picked records of a stream. */
  function SumOf(s: seq<Tacct>, p: Pick, uidsum: bool): Totals
    decreases |s|
  {
    if s == [] then ZERO
    else if Picks(p, KeyOf(s[0], uidsum)) then Plus(s[0].totals, SumOf(s[1..], p, uidsum))
    else SumOf(s[1..], p, uidsum)
  }

  /** The sum of the picked records of all streams from number `from` on. */
  function SumsOf(ss: seq<seq<Tacct>>, from: nat, p: Pick, uidsum: bool): Totals
    decreases |ss| - from
  {
    if from >= |ss| then ZERO else Plus(SumOf(ss[from], p, uidsum), SumsOf(ss, from + 1, p, uidsum))
  }

  /** The sum of the records with key k that lead a stream, and what follows them. */
  function RunSum(s: seq<Tacct>, k: Key, uidsum: bool): Totals
    decreases |s|
  {
    if s != [] && KeyOf(s[0], uidsum) == k then Plus(s[0].totals, RunSum(s[1..], k, uidsum)) else ZERO
  }

  function DropRun(s: seq<Tacct>, k: Key, uidsum: bool): (r: seq<Tacct>)
    ensures |r| <= |s|
    ensures r != [] ==> KeyOf(r[0], uidsum) != k
    decreases |s|
  {
    if s != [] && KeyOf(s[0], uidsum) == k then DropRun(s[1..], k, uidsum) else s
  }

  function RunsSum(ss: seq<seq<Tacct>>, from: nat, k: Key, uidsum: bool): Totals
    decreases |ss| - from
  {
    if from >= |ss| then ZERO else Plus(RunSum(ss[from], k, uidsum), RunsSum(ss, from + 1, k, uidsum))
  }

  function DropRuns(ss: seq<seq<Tacct>>, k: Key, uidsum: bool): (r: seq<seq<Tacct>>)
    ensures |r| == |ss| && forall i :: 0 <= i < |r| ==> r[i] == DropRun(ss[i], k, uidsum)
  {
    seq(|ss|, i requires 0 <= i < |ss| => DropRun(ss[i], k, uidsum))
  }

  lemma {:induction false} RunThenRest(s: seq<Tacct>, k: Key, p: Pick, uidsum: bool)
    ensures SumOf(s, p, uidsum) ==
            Plus(if Picks(p, k) then RunSum(s, k, uidsum) else ZERO, SumOf(DropRun(s, k, uidsum), p, uidsum))
    decreases |s|
  {
    hide Plus;
    PlusZero(SumOf(s, p, uidsum));
    if s != [] && KeyOf(s[0], uidsum) == k {
      RunThenRest(s[1..], k, p, uidsum);
      PlusAssoc(s[0].totals, RunSum(s[1..], k, uidsum), SumOf(DropRun(s[1..], k, uidsum), p, uidsum));
    }
  }

  lemma {:induction false} RunsThenRest(ss: seq<seq<Tacct>>, from: nat, k: Key, p: Pick, uidsum: bool)
    ensures SumsOf(ss, from, p, uidsum) ==
            Plus(if Picks(p, k) then RunsSum(ss, from, k, uidsum) else ZERO,
                 SumsOf(DropRuns(ss, k, uidsum), from, p, uidsum))
    decreases |ss| - from
  {
    hide Plus;
    hide RunSum;
    hide SumOf;
    PlusZero(ZERO);
    if from < |ss| {
      var rest := DropRuns(ss, k, uidsum);
      RunThenRest(ss[from], k, p, uidsum);
      RunsThenRest(ss, from + 1, k, p, uidsum);
      var a, b := RunSum(ss[from], k, uidsum), RunsSum(ss, from + 1, k, uidsum);
      PlusSwap(if Picks(p, k) then a else ZERO, SumOf(rest[from], p, uidsum),
               if Picks(p, k) then b else ZERO, SumsOf(rest, from + 1, p, uidsum));
    }
  }

  lemma {:induction false} RunsAgree(ss: seq<seq<Tacct>>, tt: seq<seq<Tacct>>, from: nat, k: Key, uidsum: bool)
    requires |ss| == |tt| && forall i :: from <= i < |ss| ==> ss[i] == tt[i]
    ensures RunsSum(ss, from, k, uidsum) == RunsSum(tt, from, k, uidsum)
    decreases |ss| - from
  {
    if from < |ss| {
      RunsAgree(ss, tt, from + 1, k, uidsum);
    }
  }

  // ----- Sortedness -----------------------------------------------------------------------------

  /** Every record has a key of at least k. */
  predicate AtLeast(s: seq<Tacct>, k: Key, uidsum: bool) {
    forall i :: 0 <= i < |s| ==> !Less(KeyOf(s[i], uidsum), k)
  }

  predicate Above(s: seq<Tacct>, k: Key, uidsum: bool) {
    forall i :: 0 <= i < |s| ==> Less(k, KeyOf(s[i], uidsum))
  }

  predicate Sorted(s: seq<Tacct>, uidsum: bool)
    decreases |s|
  {
    s == [] || (AtLeast(s[1..], KeyOf(s[0], uidsum), uidsum) && Sorted(s[1..], uidsum))
  }

  predicate AllSorted(ss: seq<seq<Tacct>>, uidsum: bool) {
    forall i :: 0 <= i < |ss| ==> Sorted(ss[i], uidsum)
  }

  predicate AllAbove(ss: seq<seq<Tacct>>, k: Key, uidsum: bool) {
    forall i :: 0 <= i < |ss| ==> Above(ss[i], k, uidsum)
  }

  predicate Increasing(s: seq<Tacct>, uidsum: bool) {
    forall i, j :: 0 <= i < j < |s| ==> Less(KeyOf(s[i], uidsum), KeyOf(s[j], uidsum))
  }

  /** The heads of all streams are at least k. */
  predicate HeadsAtLeast(ss: seq<seq<Tacct>>, k: Key, uidsum: bool) {
    forall i :: 0 <= i < |ss| && ss[i] != [] ==> !Less(KeyOf(ss[i][0], uidsum), k)
  }

  lemma {:induction false} DropLeast(s: seq<Tacct>, k: Key, uidsum: bool)
    requires Sorted(s, uidsum) && (s != [] ==> !Less(KeyOf(s[0], uidsum), k))
    ensures Sorted(DropRun(s, k, uidsum), uidsum) && Above(DropRun(s, k, uidsum), k, uidsum)
    decreases |s|
  {
    hide Less;
    if s != [] {
      var h := KeyOf(s[0], uidsum);
      if h == k {
        DropLeast(s[1..], k, uidsum);
      } else {
        forall i | 0 <= i < |s|
          ensures Less(k, KeyOf(s[i], uidsum))
        {
          LessOrder(k, h);
          if i > 0 {
            var x := KeyOf(s[1..][i - 1], uidsum);
            LessOrder(h, x);
            if h != x {
              LessTransitive(k, h, x);
            }
          }
        }
      }
    }
  }

  /** Taking the least key from the head of every sorted stream leaves greater keys only. */
  lemma DropLeasts(ss: seq<seq<Tacct>>, k: Key, uidsum: bool)
    requires AllSorted(ss, uidsum) && HeadsAtLeast(ss, k, uidsum)
    ensures AllSorted(DropRuns(ss, k, uidsum), uidsum) && AllAbove(DropRuns(ss, k, uidsum), k, uidsum)
  {
    hide Less;
    hide Sorted;
    hide Above;
    forall i | 0 <= i < |ss|
      ensures Sorted(DropRuns(ss, k, uidsum)[i], uidsum) && Above(DropRuns(ss, k, uidsum)[i], k, uidsum)
    {
      DropLeast(ss[i], k, uidsum);
    }
  }

  function KeysOf(s: seq<Tacct>, uidsum: bool): set<Key> {
    set i | 0 <= i < |s| :: KeyOf(s[i], uidsum)
  }

  function KeysFrom(ss: seq<seq<Tacct>>, from: nat, uidsum: bool): set<Key>
    decreases |ss| - from
  {
    if from >= |ss| then {} else KeysOf(ss[from], uidsum) + KeysFrom(ss, from + 1, uidsum)
  }

  lemma KeysCons(s: seq<Tacct>, uidsum: bool)
    requires s != []
    ensures KeysOf(s, uidsum) == {KeyOf(s[0], uidsum)} + KeysOf(s[1..], uidsum)
  {
    forall k | k in KeysOf(s, uidsum)
      ensures k in {KeyOf(s[0], uidsum)} + KeysOf(s[1..], uidsum)
    {
      var i :| 0 <= i < |s| && KeyOf(s[i], uidsum) == k;
      if i > 0 {
        assert s[1..][i - 1] == s[i];
      }
    }
    forall k | k in KeysOf(s[1..], uidsum)
      ensures k in KeysOf(s, uidsum)
    {
      var i :| 0 <= i < |s| - 1 && KeyOf(s[1..][i], uidsum) == k;
      assert s[1..][i] == s[i + 1];
    }
  }

  lemma KeysSnoc(s: seq<Tacct>, t: Tacct, uidsum: bool)
    ensures KeysOf(s + [t], uidsum) == KeysOf(s, uidsum) + {KeyOf(t, uidsum)}
  {
    forall k | k in KeysOf(s, uidsum)
      ensures k in KeysOf(s + [t], uidsum)
    {
      var i :| 0 <= i < |s| && KeyOf(s[i], uidsum) == k;
      assert (s + [t])[i] == s[i];
    }
    assert (s + [t])[|s|] == t;
  }

  lemma {:induction false} KeysAfterDrop(s: seq<Tacct>, k: Key, uidsum: bool)
    ensures KeysOf(s, uidsum) ==
            KeysOf(DropRun(s, k, uidsum), uidsum) + if s != [] && KeyOf(s[0], uidsum) == k then {k} else {}
    decreases |s|
  {
    hide KeysOf;
    if s != [] && KeyOf(s[0], uidsum) == k {
      KeysCons(s, uidsum);
      KeysAfterDrop(s[1..], k, uidsum);
    }
  }

  lemma {:induction false} KeysAfterDrops(ss: seq<seq<Tacct>>, from: nat, k: Key, uidsum: bool)
    ensures KeysFrom(ss, from, uidsum) + {k} == KeysFrom(DropRuns(ss, k, uidsum), from, uidsum) + {k}
    decreases |ss| - from
  {
    hide KeysOf;
    hide DropRun;
    if from < |ss| {
      KeysAfterDrop(ss[from], k, uidsum);
      KeysAfterDrops(ss, from + 1, k, uidsum);
    }
  }

  lemma {:induction false} HeadIsKey(ss: seq<seq<Tacct>>, from: nat, i: nat, uidsum: bool)
    requires from <= i < |ss| && ss[i] != []
    ensures KeyOf(ss[i][0], uidsum) in KeysFrom(ss, from, uidsum)
    decreases |ss| - from
  {
    if i == from {
      KeysCons(ss[i], uidsum);
    } else {
      HeadIsKey(ss, from + 1, i, uidsum);
    }
  }

  lemma {:induction false} NoneLeft(ss: seq<seq<Tacct>>, from: nat, p: Pick, uidsum: bool)
    requires forall i :: from <= i < |ss| ==> ss[i] == []
    ensures SumsOf(ss, from, p, uidsum) == ZERO && KeysFrom(ss, from, uidsum) == {}
    decreases |ss| - from
  {
    hide Plus;
    hide KeysOf;
    if from < |ss| {
      NoneLeft(ss, from + 1, p, uidsum);
      PlusZero(ZERO);
      NoKeys(uidsum);
    }
  }

  lemma NoKeys(uidsum: bool)
    ensures KeysOf([], uidsum) == {}
  {
  }

  lemma {:induction false} SumSnoc(s: seq<Tacct>, t: Tacct, p: Pick, uidsum: bool)
    ensures SumOf(s + [t], p, uidsum) ==
            Plus(SumOf(s, p, uidsum), if Picks(p, KeyOf(t, uidsum)) then t.totals else ZERO)
    decreases |s|
  {
    hide Plus;
    var x := if Picks(p, KeyOf(t, uidsum)) then t.totals else ZERO;
    PlusZero(x);
    if s == [] {
      assert s + [t] == [t] && [t][1..] == [];
    } else {
      assert (s + [t])[1..] == s[1..] + [t];
      SumSnoc(s[1..], t, p, uidsum);
      PlusAssoc(s[0].totals, SumOf(s[1..], p, uidsum), x);
    }
  }

  lemma {:induction false} SumOfNone(s: seq<Tacct>, k: Key, uidsum: bool)
    requires k !in KeysOf(s, uidsum)
    ensures SumOf(s, Only(k), uidsum) == ZERO
    decreases |s|
  {
    if s != [] {
      KeysCons(s, uidsum);
      SumOfNone(s[1..], k, uidsum);
    }
  }

  lemma IncreasingTail(s: seq<Tacct>, uidsum: bool)
    requires Increasing(s, uidsum) && s != []
    ensures Increasing(s[1..], uidsum) && KeyOf(s[0], uidsum) !in KeysOf(s[1..], uidsum)
  {
    hide Less;
    var tail := s[1..];
    assert forall j :: 0 <= j < |tail| ==> tail[j] == s[j + 1];
    if KeyOf(s[0], uidsum) in KeysOf(tail, uidsum) {
      var j :| 0 <= j < |tail| && KeyOf(tail[j], uidsum) == KeyOf(s[0], uidsum);
      assert Less(KeyOf(s[0], uidsum), KeyOf(s[j + 1], uidsum));
      LessOrder(KeyOf(s[0], uidsum), KeyOf(s[j + 1], uidsum));
    }
  }

  /** With strictly increasing keys, the sum of a key is its one record. */
  lemma {:induction false} OneRecord(s: seq<Tacct>, i: nat, uidsum: bool)
    requires Increasing(s, uidsum) && i < |s|
    ensures SumOf(s, Only(KeyOf(s[i], uidsum)), uidsum) == s[i].totals
    decreases |s|
  {
    hide Plus;
    hide Less;
    hide KeysOf;
    hide Increasing;
    IncreasingTail(s, uidsum);
    if i == 0 {
      SumOfNone(s[1..], KeyOf(s[0], uidsum), uidsum);
      PlusZero(s[0].totals);
    } else {
      assert s[1..][i - 1] == s[i];
      IncreasingHead(s, i, uidsum);
      OneRecord(s[1..], i - 1, uidsum);
    }
  }

  lemma IncreasingHead(s: seq<Tacct>, i: nat, uidsum: bool)
    requires Increasing(s, uidsum) && 0 < i < |s|
    ensures KeyOf(s[0], uidsum) != KeyOf(s[i], uidsum)
  {
    LessOrder(KeyOf(s[0], uidsum), KeyOf(s[i], uidsum));
  }

  // ----- One round ------------------------------------------------------------------------------

  /** Stream i is the first of those whose head has the least key. */
  predicate FirstLeast(ss: seq<seq<Tacct>>, i: nat, uidsum: bool) {
    && i < |ss| && ss[i] != []
    && HeadsAtLeast(ss, KeyOf(ss[i][0], uidsum), uidsum)
    && forall j :: 0 <= j < i && ss[j] != [] ==> KeyOf(ss[j][0], uidsum) != KeyOf(ss[i][0], uidsum)
  }

  lemma NewLeast(ss: seq<seq<Tacct>>, least: int, tp: nat, uidsum: bool)
    requires -1 <= least < tp < |ss| && ss[tp] != []
    requires least == -1 ==> forall j :: 0 <= j < tp ==> ss[j] == []
    requires least >= 0 ==>
               FirstLeast(ss[..tp], least, uidsum) && Less(KeyOf(ss[tp][0], uidsum), KeyOf(ss[least][0], uidsum))
    ensures FirstLeast(ss[..tp + 1], tp, uidsum)
  {
    hide Less;
    var k := KeyOf(ss[tp][0], uidsum);
    forall j | 0 <= j < tp && ss[j] != []
      ensures !Less(KeyOf(ss[j][0], uidsum), k) && KeyOf(ss[j][0], uidsum) != k
    {
      var x := KeyOf(ss[j][0], uidsum);
      assert ss[..tp][j] == ss[j];
      if Less(x, k) {
        LessTransitive(x, k, KeyOf(ss[least][0], uidsum));
      }
    }
    LessOrder(k, k);
  }

  lemma SameLeast(ss: seq<seq<Tacct>>, least: nat, tp: nat, uidsum: bool)
    requires least < tp < |ss| && FirstLeast(ss[..tp], least, uidsum)
    requires ss[tp] != [] ==> !Less(KeyOf(ss[tp][0], uidsum), KeyOf(ss[least][0], uidsum))
    ensures FirstLeast(ss[..tp + 1], least, uidsum)
  {
    hide Less;
    var k := KeyOf(ss[least][0], uidsum);
    forall j | 0 <= j < tp + 1 && ss[j] != []
      ensures !Less(KeyOf(ss[j][0], uidsum), k) && (j < least ==> KeyOf(ss[j][0], uidsum) != k)
    {
      if j < tp {
        assert ss[..tp][j] == ss[j];
      }
    }
  }

  /** The record that a round makes. */
  function Summed(ss: seq<seq<Tacct>>, i: nat, uidsum: bool): Tacct
    requires i < |ss| && ss[i] != []
  {
    ss[i][0].(totals := RunsSum(ss, 0, KeyOf(ss[i][0], uidsum), uidsum))
  }

  lemma {:induction false} SkipStreams(ss: seq<seq<Tacct>>, from: nat, i: nat, k: Key, uidsum: bool)
    requires from <= i <= |ss| && forall j :: from <= j < i && ss[j] != [] ==> KeyOf(ss[j][0], uidsum) != k
    ensures RunsSum(ss, from, k, uidsum) == RunsSum(ss, i, k, uidsum)
    ensures forall j :: from <= j < i ==> DropRun(ss[j], k, uidsum) == ss[j]
    decreases i - from
  {
    hide Plus;
    if from < i {
      SkipStreams(ss, from + 1, i, k, uidsum);
      PlusZero(RunsSum(ss, from + 1, k, uidsum));
    }
  }

  lemma SkipOne(ss: seq<seq<Tacct>>, p: nat, k: Key, uidsum: bool)
    requires p < |ss| && (ss[p] != [] ==> KeyOf(ss[p][0], uidsum) != k)
    ensures RunsSum(ss, p, k, uidsum) == RunsSum(ss, p + 1, k, uidsum)
    ensures DropRun(ss[p], k, uidsum) == ss[p]
  {
    hide Plus;
    PlusZero(RunsSum(ss, p + 1, k, uidsum));
  }

  lemma NoRuns(ss: seq<seq<Tacct>>, p: nat, k: Key, uidsum: bool)
    requires p == |ss| && forall j :: 0 <= j < p ==> DropRun(ss[j], k, uidsum) == ss[j]
    ensures RunsSum(ss, p, k, uidsum) == ZERO && DropRuns(ss, k, uidsum) == ss
  {
  }

  lemma TakeOne(ss: seq<seq<Tacct>>, p: nat, k: Key, uidsum: bool)
    requires p < |ss| && ss[p] != [] && KeyOf(ss[p][0], uidsum) == k
    ensures RunsSum(ss, p, k, uidsum) == Plus(ss[p][0].totals, RunsSum(ss[p := ss[p][1..]], p, k, uidsum))
    ensures DropRuns(ss[p := ss[p][1..]], k, uidsum) == DropRuns(ss, k, uidsum)
  {
    hide Plus;
    var rest := ss[p := ss[p][1..]];
    RunsAgree(ss, rest, p + 1, k, uidsum);
    PlusAssoc(ss[p][0].totals, RunSum(rest[p], k, uidsum), RunsSum(ss, p + 1, k, uidsum));
    assert DropRun(ss[p], k, uidsum) == DropRun(rest[p], k, uidsum);
  }

  /** The forward scan of a round: streams before tp are done, and what tc and tt still lack of the
      sum leads the others. */
  ghost predicate Scanned(rest: seq<seq<Tacct>>, was: seq<seq<Tacct>>, tp: nat, k: Key, tc: Totals,
                          tt: Totals, tt0: Totals, sum: Totals, uidsum: bool) {
    && |rest| == |was| && tp <= |rest|
    && Plus(tc, RunsSum(rest, tp, k, uidsum)) == sum
    && Plus(tt, RunsSum(rest, tp, k, uidsum)) == Plus(tt0, sum)
    && DropRuns(rest, k, uidsum) == DropRuns(was, k, uidsum)
    && forall j :: 0 <= j < tp ==> DropRun(rest[j], k, uidsum) == rest[j]
  }

  lemma ScanStart(ss: seq<seq<Tacct>>, i: nat, k: Key, tt: Totals, uidsum: bool)
    requires FirstLeast(ss, i, uidsum) && k == KeyOf(ss[i][0], uidsum)
    ensures Scanned(ss[i := ss[i][1..]], ss, i, k, ss[i][0].totals, Plus(tt, ss[i][0].totals), tt,
                    Summed(ss, i, uidsum).totals, uidsum)
  {
    hide Plus;
    hide RunsSum;
    hide DropRun;
    hide HeadsAtLeast;
    SkipStreams(ss, 0, i, k, uidsum);
    TakeOne(ss, i, k, uidsum);
    PlusAssoc(tt, ss[i][0].totals, RunsSum(ss[i := ss[i][1..]], i, k, uidsum));
  }

  lemma ScanTake(rest: seq<seq<Tacct>>, was: seq<seq<Tacct>>, tp: nat, k: Key, tc: Totals,
                 tt: Totals, tt0: Totals, sum: Totals, uidsum: bool)
    requires Scanned(rest, was, tp, k, tc, tt, tt0, sum, uidsum)
    requires tp < |rest| && rest[tp] != [] && KeyOf(rest[tp][0], uidsum) == k
    ensures var t := rest[tp][0].totals;
      Scanned(rest[tp := rest[tp][1..]], was, tp, k, Plus(tc, t), Plus(tt, t), tt0, sum, uidsum)
  {
    hide Plus;
    hide RunsSum;
    hide DropRun;
    var left := RunsSum(rest[tp := rest[tp][1..]], tp, k, uidsum);
    TakeOne(rest, tp, k, uidsum);
    PlusAssoc(tc, rest[tp][0].totals, left);
    PlusAssoc(tt, rest[tp][0].totals, left);
  }

  lemma ScanSkip(rest: seq<seq<Tacct>>, was: seq<seq<Tacct>>, tp: nat, k: Key, tc: Totals,
                 tt: Totals, tt0: Totals, sum: Totals, uidsum: bool)
    requires Scanned(rest, was, tp, k, tc, tt, tt0, sum, uidsum)
    requires tp < |rest| && (rest[tp] != [] ==> KeyOf(rest[tp][0], uidsum) != k)
    ensures Scanned(rest, was, tp + 1, k, tc, tt, tt0, sum, uidsum)
  {
    hide Plus;
    SkipOne(rest, tp, k, uidsum);
  }

  lemma ScanEnd(rest: seq<seq<Tacct>>, was: seq<seq<Tacct>>, tp: nat, k: Key, tc: Totals,
                tt: Totals, tt0: Totals, sum: Totals, uidsum: bool)
    requires Scanned(rest, was, tp, k, tc, tt, tt0, sum, uidsum) && tp == |rest|
    ensures rest == DropRuns(was, k, uidsum) && tc == sum && tt == Plus(tt0, sum)
  {
    hide Plus;
    NoRuns(rest, tp, k, uidsum);
    PlusZero(tc);
    PlusZero(tt);
  }

  function Size(ss: seq<seq<Tacct>>, from: nat): nat
    decreases |ss| - from
  {
    if from >= |ss| then 0 else |ss[from]| + Size(ss, from + 1)
  }

  lemma {:induction false} SizeDrops(ss: seq<seq<Tacct>>, from: nat, k: Key, uidsum: bool)
    ensures Size(DropRuns(ss, k, uidsum), from) <= Size(ss, from)
    ensures (exists i :: from <= i < |ss| && ss[i] != [] && KeyOf(ss[i][0], uidsum) == k) ==>
              Size(DropRuns(ss, k, uidsum), from) < Size(ss, from)
    decreases |ss| - from
  {
    if from < |ss| {
      SizeDrops(ss, from + 1, k, uidsum);
    }
  }

  datatype Found = None | Some(t: Tacct)

  /** The first record with key k, looking through the streams in turn. */
  function FirstIn(s: seq<Tacct>, k: Key, uidsum: bool): Found
    decreases |s|
  {
    if s == [] then None else if KeyOf(s[0], uidsum) == k then Some(s[0]) else FirstIn(s[1..], k, uidsum)
  }

  function FirstOf(ss: seq<seq<Tacct>>, from: nat, k: Key, uidsum: bool): Found
    decreases |ss| - from
  {
    if from >= |ss| then None
    else if FirstIn(ss[from], k, uidsum).Some? then FirstIn(ss[from], k, uidsum)
    else FirstOf(ss, from + 1, k, uidsum)
  }

  lemma {:induction false} FirstInDropped(s: seq<Tacct>, k: Key, other: Key, uidsum: bool)
    requires other != k
    ensures FirstIn(DropRun(s, k, uidsum), other, uidsum) == FirstIn(s, other, uidsum)
    decreases |s|
  {
    if s != [] && KeyOf(s[0], uidsum) == k {
      FirstInDropped(s[1..], k, other, uidsum);
    }
  }

  lemma {:induction false} FirstOfDropped(ss: seq<seq<Tacct>>, from: nat, k: Key, other: Key, uidsum: bool)
    requires other != k
    ensures FirstOf(DropRuns(ss, k, uidsum), from, other, uidsum) == FirstOf(ss, from, other, uidsum)
    decreases |ss| - from
  {
    if from < |ss| {
      FirstInDropped(ss[from], k, other, uidsum);
      FirstOfDropped(ss, from + 1, k, other, uidsum);
    }
  }

  lemma {:induction false} NotAbove(s: seq<Tacct>, k: Key, uidsum: bool)
    requires Above(s, k, uidsum)
    ensures FirstIn(s, k, uidsum) == None
    decreases |s|
  {
    if s != [] {
      LessOrder(k, KeyOf(s[0], uidsum));
      assert Above(s[1..], k, uidsum);
      NotAbove(s[1..], k, uidsum);
    }
  }

  /** No stream before the first with the least key holds that key anywhere. */
  lemma {:induction false} FirstLeastIsFirst(ss: seq<seq<Tacct>>, from: nat, i: nat, uidsum: bool)
    requires AllSorted(ss, uidsum) && FirstLeast(ss, i, uidsum) && from <= i
    ensures FirstOf(ss, from, KeyOf(ss[i][0], uidsum), uidsum) == Some(ss[i][0])
    decreases i - from
  {
    hide Less;
    hide Sorted;
    hide Above;
    if from < i {
      var k := KeyOf(ss[i][0], uidsum);
      DropLeast(ss[from], k, uidsum);
      NotAbove(ss[from], k, uidsum);
      FirstLeastIsFirst(ss, from + 1, i, uidsum);
    }
  }

  /** The record is the sum of all input records with its key, under the uid and name of the first
      of them. */
  predicate IsMerged(r: Tacct, lives: seq<seq<Tacct>>, uidsum: bool) {
    var k := KeyOf(r, uidsum);
    var first := FirstOf(lives, 0, k, uidsum);
    first.Some? && r == first.t.(totals := SumsOf(lives, 0, Only(k), uidsum))
  }

  /** What every round keeps. */
  ghost predicate Conserved(lives: seq<seq<Tacct>>, rest: seq<seq<Tacct>>, made: seq<Tacct>, uidsum: bool) {
    forall p :: Plus(SumOf(made, p, uidsum), SumsOf(rest, 0, p, uidsum)) == SumsOf(lives, 0, p, uidsum)
  }

  predicate KeysKept(lives: seq<seq<Tacct>>, rest: seq<seq<Tacct>>, made: seq<Tacct>, uidsum: bool) {
    KeysOf(made, uidsum) + KeysFrom(rest, 0, uidsum) == KeysFrom(lives, 0, uidsum)
  }

  predicate InOrder(rest: seq<seq<Tacct>>, made: seq<Tacct>, uidsum: bool) {
    && AllSorted(rest, uidsum) && Increasing(made, uidsum)
    && (made != [] ==> AllAbove(rest, KeyOf(made[|made| - 1], uidsum), uidsum))
  }

  ghost predicate Labelled(lives: seq<seq<Tacct>>, rest: seq<seq<Tacct>>, made: seq<Tacct>, uidsum: bool) {
    && (forall k :: k !in KeysOf(made, uidsum) ==> FirstOf(rest, 0, k, uidsum) == FirstOf(lives, 0, k, uidsum))
    && (forall i :: 0 <= i < |made| ==> LabelOk(made[i], lives, uidsum))
  }

  predicate LabelOk(r: Tacct, lives: seq<seq<Tacct>>, uidsum: bool) {
    var first := FirstOf(lives, 0, KeyOf(r, uidsum), uidsum);
    first.Some? && r == first.t.(totals := r.totals)
  }

  ghost predicate Merging(lives: seq<seq<Tacct>>, rest: seq<seq<Tacct>>, made: seq<Tacct>, uidsum: bool) {
    && Conserved(lives, rest, made, uidsum)
    && KeysKept(lives, rest, made, uidsum)
    && (AllSorted(lives, uidsum) ==> InOrder(rest, made, uidsum) && Labelled(lives, rest, made, uidsum))
  }

  lemma RoundConserves(lives: seq<seq<Tacct>>, rest: seq<seq<Tacct>>, made: seq<Tacct>, i: nat, uidsum: bool)
    requires i < |rest| && rest[i] != [] && Conserved(lives, rest, made, uidsum)
    ensures Conserved(lives, DropRuns(rest, KeyOf(rest[i][0], uidsum), uidsum), made + [Summed(rest, i, uidsum)],
                      uidsum)
  {
    hide Plus;
    hide SumOf;
    hide SumsOf;
    hide DropRuns;
    var k := KeyOf(rest[i][0], uidsum);
    var r := Summed(rest, i, uidsum);
    forall p
      ensures Plus(SumOf(made + [r], p, uidsum), SumsOf(DropRuns(rest, k, uidsum), 0, p, uidsum))
              == SumsOf(lives, 0, p, uidsum)
    {
      SumSnoc(made, r, p, uidsum);
      RunsThenRest(rest, 0, k, p, uidsum);
      PlusAssoc(SumOf(made, p, uidsum), if Picks(p, k) then r.totals else ZERO,
                SumsOf(DropRuns(rest, k, uidsum), 0, p, uidsum));
    }
  }

  lemma RoundKeepsKeys(lives: seq<seq<Tacct>>, rest: seq<seq<Tacct>>, made: seq<Tacct>, i: nat, uidsum: bool)
    requires i < |rest| && rest[i] != [] && KeysKept(lives, rest, made, uidsum)
    ensures KeysKept(lives, DropRuns(rest, KeyOf(rest[i][0], uidsum), uidsum), made + [Summed(rest, i, uidsum)], uidsum)
  {
    hide KeysOf;
    hide KeysFrom;
    hide DropRuns;
    var k := KeyOf(rest[i][0], uidsum);
    KeysSnoc(made, Summed(rest, i, uidsum), uidsum);
    KeysAfterDrops(rest, 0, k, uidsum);
    HeadIsKey(rest, 0, i, uidsum);
  }

  lemma RoundInOrder(rest: seq<seq<Tacct>>, made: seq<Tacct>, i: nat, uidsum: bool)
    requires FirstLeast(rest, i, uidsum) && InOrder(rest, made, uidsum)
    ensures InOrder(DropRuns(rest, KeyOf(rest[i][0], uidsum), uidsum), made + [Summed(rest, i, uidsum)], uidsum)
  {
    hide Less;
    hide Sorted;
    hide DropRuns;
    var k := KeyOf(rest[i][0], uidsum);
    DropLeasts(rest, k, uidsum);
    forall j | 0 <= j < |made|
      ensures Less(KeyOf(made[j], uidsum), k)
    {
      var last := KeyOf(made[|made| - 1], uidsum);
      assert Above(rest[i], last, uidsum);
      if j < |made| - 1 {
        LessTransitive(KeyOf(made[j], uidsum), last, k);
      }
    }
  }

  lemma RoundLabels(lives: seq<seq<Tacct>>, rest: seq<seq<Tacct>>, made: seq<Tacct>, i: nat, uidsum: bool)
    requires FirstLeast(rest, i, uidsum) && InOrder(rest, made, uidsum) && Labelled(lives, rest, made, uidsum)
    ensures Labelled(lives, DropRuns(rest, KeyOf(rest[i][0], uidsum), uidsum), made + [Summed(rest, i, uidsum)], uidsum)
  {
    hide Less;
    hide KeysOf;
    hide FirstOf;
    hide DropRuns;
    hide AllSorted;
    hide HeadsAtLeast;
    hide Increasing;
    var k := KeyOf(rest[i][0], uidsum);
    var r := Summed(rest, i, uidsum);
    KeysSnoc(made, r, uidsum);
    FirstLeastIsFirst(rest, 0, i, uidsum);
    NotMade(rest, made, i, uidsum);
    forall other | other !in KeysOf(made + [r], uidsum)
      ensures FirstOf(DropRuns(rest, k, uidsum), 0, other, uidsum) == FirstOf(lives, 0, other, uidsum)
    {
      FirstOfDropped(rest, 0, k, other, uidsum);
    }
  }

  lemma NotMade(rest: seq<seq<Tacct>>, made: seq<Tacct>, i: nat, uidsum: bool)
    requires FirstLeast(rest, i, uidsum) && InOrder(rest, made, uidsum)
    ensures KeyOf(rest[i][0], uidsum) !in KeysOf(made, uidsum)
  {
    hide Less;
    hide Sorted;
    var k := KeyOf(rest[i][0], uidsum);
    if k in KeysOf(made, uidsum) {
      var j :| 0 <= j < |made| && KeyOf(made[j], uidsum) == k;
      var last := KeyOf(made[|made| - 1], uidsum);
      assert Above(rest[i], last, uidsum);
      LessOrder(last, k);
    }
  }

  lemma Round(lives: seq<seq<Tacct>>, rest: seq<seq<Tacct>>, made: seq<Tacct>, i: nat, uidsum: bool)
    requires FirstLeast(rest, i, uidsum) && Merging(lives, rest, made, uidsum)
    ensures i < |rest| && rest[i] != []
    ensures var k := KeyOf(rest[i][0], uidsum);
      Merging(lives, DropRuns(rest, k, uidsum), made + [Summed(rest, i, uidsum)], uidsum) &&
      Size(DropRuns(rest, k, uidsum), 0) < Size(rest, 0)
  {
    hide Conserved;
    hide KeysKept;
    hide InOrder;
    hide Labelled;
    hide AllSorted;
    hide DropRuns;
    hide HeadsAtLeast;
    hide Less;
    hide Size;
    hide Summed;
    RoundConserves(lives, rest, made, i, uidsum);
    RoundKeepsKeys(lives, rest, made, i, uidsum);
    if AllSorted(lives, uidsum) {
      RoundInOrder(rest, made, i, uidsum);
      RoundLabels(lives, rest, made, i, uidsum);
    }
    SizeDrops(rest, 0, KeyOf(rest[i][0], uidsum), uidsum);
  }

  lemma NothingMade(lives: seq<seq<Tacct>>, uidsum: bool)
    ensures Merging(lives, lives, [], uidsum) && SumOf([], All, uidsum) == ZERO
  {
    hide Plus;
    NoKeys(uidsum);
    forall p
      ensures Plus(SumOf([], p, uidsum), SumsOf(lives, 0, p, uidsum)) == SumsOf(lives, 0, p, uidsum)
    {
      PlusZero(SumsOf(lives, 0, p, uidsum));
    }
  }

  /** When nothing is left, the made records are the merge. */
  lemma AllMerged(lives: seq<seq<Tacct>>, rest: seq<seq<Tacct>>, made: seq<Tacct>, uidsum: bool)
    requires Merging(lives, rest, made, uidsum) && forall i :: 0 <= i < |rest| ==> rest[i] == []
    ensures forall p :: SumOf(made, p, uidsum) == SumsOf(lives, 0, p, uidsum)
    ensures KeysOf(made, uidsum) == KeysFrom(lives, 0, uidsum)
    ensures AllSorted(lives, uidsum) ==> Increasing(made, uidsum)
    ensures AllSorted(lives, uidsum) ==> forall i :: 0 <= i < |made| ==> IsMerged(made[i], lives, uidsum)
  {
    hide Plus;
    hide SumOf;
    hide SumsOf;
    hide KeysOf;
    hide KeysFrom;
    hide AllSorted;
    hide AllAbove;
    hide Increasing;
    hide FirstOf;
    forall p
      ensures SumOf(made, p, uidsum) == SumsOf(lives, 0, p, uidsum)
    {
      NoneLeft(rest, 0, p, uidsum);
      PlusZero(SumOf(made, p, uidsum));
    }
    NoneLeft(rest, 0, All, uidsum);
    if AllSorted(lives, uidsum) {
      forall i | 0 <= i < |made|
        ensures IsMerged(made[i], lives, uidsum)
      {
        OneRecord(made, i, uidsum);
      }
    }
  }

  // ----- The merge ------------------------------------------------------------------------------

  class Merger {
    const tb: array<Tacct>             // the current record of each stream
    const uidsum: bool
    const totalonly: bool
    var fl: seq<seq<Tacct>>            // what is still to be read of each stream
    var tt: Totals                     // the TOTAL record
    var out: seq<Tacct>
    ghost var rest: seq<seq<Tacct>>    // the records of each stream not yet summed
    ghost var made: seq<Tacct>         // the summed records

    ghost predicate StreamOk(i: nat)
      requires i < tb.Length && |fl| == |rest| == tb.Length
      reads tb, `fl, `rest
    {
      rest[i] == if tb[i].name == "" then [] else [tb[i]] + Live(fl[i])
    }

    ghost predicate Valid()
      reads tb, `fl, `rest
    {
      && |fl| == |rest| == tb.Length
      && forall i :: 0 <= i < tb.Length ==> StreamOk(i)
    }

    constructor (inputs: seq<seq<Tacct>>, uidsum: bool, totalonly: bool)
      ensures Valid() && fresh(tb) && tb.Length == |inputs| && fl == inputs
      ensures this.uidsum == uidsum && this.totalonly == totalonly
      ensures tt == ZERO && out == [] && made == [] && rest == seq(|inputs|, _ => [])
    {
      this.uidsum, this.totalonly := uidsum, totalonly;
      tb := new Tacct[|inputs|](_ => Tacct(0, "", ZERO));
      fl, tt, out, made := inputs, ZERO, [], [];
      rest := seq(|inputs|, _ => []);
    }

    /** Read the next record of stream i; false at its end. */
    method Getnext(i: nat) returns (more: bool)
      requires Valid() && i < tb.Length
      modifies tb, `fl, `rest
      ensures Valid() && rest == old(rest)[i := Live(old(fl[i]))]
      ensures forall j :: 0 <= j < tb.Length && j != i ==> tb[j] == old(tb[j]) && fl[j] == old(fl[j])
      ensures more <==> old(fl[i]) != []
    {
      tb[i] := tb[i].(name := "");
      more := fl[i] != [];
      rest := rest[i := Live(fl[i])];
      if more {
        tb[i] := fl[i][0];
        fl := fl[i := fl[i][1..]];
      }
      forall j | 0 <= j < tb.Length
        ensures StreamOk(j)
      {
        assert old(StreamOk(j));
      }
    }

    /** The first of the streams whose current record has the least key, or -1 when none is left. */
    method Getleast() returns (least: int)
      requires Valid()
      ensures -1 <= least < tb.Length
      ensures least == -1 ==> forall j :: 0 <= j < |rest| ==> rest[j] == []
      ensures least >= 0 ==> FirstLeast(rest, least, uidsum)
    {
      hide LexLess;
      hide Live;
      hide HeadsAtLeast;
      NoNames();
      least := -1;
      var tp := 0;
      assert rest[..0] == [];
      while tp < tb.Length
        invariant 0 <= tp <= tb.Length && -1 <= least < tp
        invariant least == -1 ==> forall j :: 0 <= j < tp ==> rest[j] == []
        invariant least >= 0 ==> FirstLeast(rest[..tp], least, uidsum)
      {
        assert StreamOk(tp) && (least >= 0 ==> StreamOk(least));
        if tb[tp].name != "" {
          if least == -1 || tb[tp].uid < tb[least].uid ||
             (tb[tp].uid == tb[least].uid && !uidsum && LexLess(tb[tp].name, tb[least].name)) {
            NewLeast(rest, least, tp, uidsum);
            least := tp;
          } else {
            SameLeast(rest, least, tp, uidsum);
          }
        } else if least >= 0 {
          SameLeast(rest, least, tp, uidsum);
        }
        tp := tp + 1;
      }
      assert rest[..tp] == rest;
    }

    /** Add the current record of stream tp to the sums and read the next. */
    method Take(tp: nat, tc: Tacct, ghost was: seq<seq<Tacct>>, ghost k: Key, ghost tt0: Totals, ghost sum: Totals)
      returns (r: Tacct)
      requires Valid() && tp < tb.Length && rest[tp] != [] && KeyOf(rest[tp][0], uidsum) == k
      requires Scanned(rest, was, tp, k, tc.totals, tt, tt0, sum, uidsum)
      modifies tb, `fl, `rest, `tt
      ensures Valid() && r == tc.(totals := r.totals) && |rest[tp]| < |old(rest[tp])|
      ensures Scanned(rest, was, tp, k, r.totals, tt, tt0, sum, uidsum)
    {
      hide Live;
      hide Plus;
      hide Scanned;
      assert StreamOk(tp);
      ScanTake(rest, was, tp, k, tc.totals, tt, tt0, sum, uidsum);
      r := tc.(totals := Plus(tc.totals, tb[tp].totals));
      tt := Plus(tt, tb[tp].totals);
      var more := Getnext(tp);
    }

    /** Look forward from stream i for records with the key of tc. */
    method Scan(i: nat, tc: Tacct, ghost was: seq<seq<Tacct>>, ghost k: Key, ghost tt0: Totals, ghost sum: Totals)
      returns (r: Tacct)
      requires Valid() && i < tb.Length && k == KeyOf(tc, uidsum)
      requires Scanned(rest, was, i, k, tc.totals, tt, tt0, sum, uidsum)
      modifies tb, `fl, `rest, `tt
      ensures Valid() && r == tc.(totals := sum)
      ensures rest == DropRuns(was, k, uidsum) && tt == Plus(tt0, sum)
    {
      hide Live;
      hide Plus;
      hide DropRuns;
      hide Scanned;
      r := tc;
      var tp := i;
      while tp < tb.Length
        invariant i <= tp <= tb.Length && Valid() && r == tc.(totals := r.totals)
        invariant Scanned(rest, was, tp, k, r.totals, tt, tt0, sum, uidsum)
        decreases tb.Length - tp, if tp < |rest| then |rest[tp]| else 0
      {
        assert StreamOk(tp);
        if tb[tp].name != "" && tb[tp].uid == r.uid && (uidsum || tb[tp].name == r.name) {
          r := Take(tp, r, was, k, tt0, sum);
        } else {
          ScanSkip(rest, was, tp, k, r.totals, tt, tt0, sum, uidsum);
          tp := tp + 1;
        }
      }
      ScanEnd(rest, was, tp, k, r.totals, tt, tt0, sum, uidsum);
    }

    /** Sum all records with the key of stream i, the first with the least key, and write the sum. */
    method Sumcurr(i: nat)
      requires Valid() && i < tb.Length && FirstLeast(rest, i, uidsum)
      modifies tb, `fl, `rest, `tt, `out, `made
      ensures Valid() && rest == DropRuns(old(rest), KeyOf(old(rest[i][0]), uidsum), uidsum)
      ensures made == old(made) + [Summed(old(rest), i, uidsum)]
      ensures tt == Plus(old(tt), Summed(old(rest), i, uidsum).totals)
      ensures out == if totalonly then old(out) else old(out) + [Summed(old(rest), i, uidsum)]
    {
      hide Live;
      hide Plus;
      hide RunsSum;
      hide DropRuns;
      hide Scanned;
      hide HeadsAtLeast;
      hide Less;
      ghost var k := KeyOf(rest[i][0], uidsum);
      ghost var sum := Summed(rest, i, uidsum);
      assert StreamOk(i);
      ScanStart(rest, i, k, tt, uidsum);
      var tc := tb[i];
      tt := Plus(tt, tb[i].totals);
      var more := Getnext(i);
      tc := Scan(i, tc, old(rest), k, old(tt), sum.totals);
      made := made + [tc];
      if !totalonly {
        out := out + [tc];
      }
    }

    /** The first record of every stream; 2 if some stream has none. */
    method LoadAll() returns (exitcode: int)
      requires Valid()
      modifies tb, `fl, `rest
      ensures Valid() && rest == Lives(old(fl))
      ensures exitcode == if [] in old(fl) then 2 else 0
    {
      hide Live;
      exitcode := 0;
      var i := 0;
      while i < tb.Length
        invariant 0 <= i <= tb.Length && Valid()
        invariant forall j :: 0 <= j < i ==> rest[j] == Live(old(fl)[j])
        invariant forall j :: i <= j < tb.Length ==> fl[j] == old(fl)[j]
        invariant exitcode == if [] in old(fl)[..i] then 2 else 0
      {
        var more := Getnext(i);
        if !more {
          exitcode := 2;
        }
        i := i + 1;
      }
      assert old(fl)[..i] == old(fl);
    }

    /** Merge all streams. */
    method Merge() returns (exitcode: int)
      requires Valid() && tt == ZERO && out == [] && made == [] && forall i :: 0 <= i < |rest| ==> rest[i] == []
      modifies this, tb
      ensures exitcode == if [] in old(fl) then 2 else 0
      ensures tt == SumsOf(Lives(old(fl)), 0, All, uidsum)
      ensures out == if totalonly then [Tacct(0, "TOTAL", tt)] else made
      ensures forall p :: SumOf(made, p, uidsum) == SumsOf(Lives(old(fl)), 0, p, uidsum)
      ensures KeysOf(made, uidsum) == KeysFrom(Lives(old(fl)), 0, uidsum)
      ensures AllSorted(Lives(old(fl)), uidsum) ==> Increasing(made, uidsum)
      ensures AllSorted(Lives(old(fl)), uidsum) ==>
                forall i :: 0 <= i < |made| ==> IsMerged(made[i], Lives(old(fl)), uidsum)
    {
      hide Live;
      hide Lives;
      hide Plus;
      hide SumOf;
      hide SumsOf;
      hide KeysOf;
      hide KeysFrom;
      hide AllSorted;
      hide Increasing;
      hide Merging;
      hide Size;
      hide DropRuns;
      hide Summed;
      hide FirstLeast;
      hide IsMerged;
      hide Less;
      ghost var lives := Lives(fl);
      exitcode := LoadAll();
      NothingMade(lives, uidsum);
      var least := Getleast();
      while least >= 0
        invariant -1 <= least < tb.Length && Valid()
        invariant least >= 0 ==> FirstLeast(rest, least, uidsum)
        invariant least == -1 ==> forall j :: 0 <= j < |rest| ==> rest[j] == []
        invariant Merging(lives, rest, made, uidsum)
        invariant tt == SumOf(made, All, uidsum)
        invariant out == if totalonly then [] else made
        decreases Size(rest, 0)
      {
        Round(lives, rest, made, least, uidsum);
        SumSnoc(made, Summed(rest, least, uidsum), All, uidsum);
        Sumcurr(least);
        least := Getleast();
      }
      AllMerged(lives, rest, made, uidsum);
      if totalonly {
        out := [Tacct(0, "TOTAL", tt)];
      }
    }
  }

  // ----- In terms of the fields -------------------------------------------------------------------

  /** The sum of the records for which f holds, of all streams from number `from` on. */
  function SumWhere(s: seq<Tacct>, f: Tacct -> bool): Totals {
    if s == [] then ZERO
    else if f(s[0]) then Plus(s[0].totals, SumWhere(s[1..], f))
    else SumWhere(s[1..], f)
  }

  function SumsWhere(ss: seq<seq<Tacct>>, from: nat, f: Tacct -> bool): Totals
    decreases |ss| - from
  {
    if from >= |ss| then ZERO else Plus(SumWhere(ss[from], f), SumsWhere(ss, from + 1, f))
  }

  /** One column of the records for which f holds. */
  function Reals(s: seq<Tacct>, f: Tacct -> bool, g: Totals -> real): real {
    if s == [] then 0.0 else (if f(s[0]) then g(s[0].totals) else 0.0) + Reals(s[1..], f, g)
  }

  function Counts(s: seq<Tacct>, f: Tacct -> bool, g: Totals -> int): int {
    if s == [] then 0 else (if f(s[0]) then g(s[0].totals) else 0) + Counts(s[1..], f, g)
  }

  /** Sums are sums in every column. */
  lemma {:induction false} SumColumns(s: seq<Tacct>, f: Tacct -> bool)
    ensures SumWhere(s, f).cpu0 == Reals(s, f, (t: Totals) => t.cpu0)
    ensures SumWhere(s, f).cpu1 == Reals(s, f, (t: Totals) => t.cpu1)
    ensures SumWhere(s, f).kcore0 == Reals(s, f, (t: Totals) => t.kcore0)
    ensures SumWhere(s, f).kcore1 == Reals(s, f, (t: Totals) => t.kcore1)
    ensures SumWhere(s, f).con0 == Reals(s, f, (t: Totals) => t.con0)
    ensures SumWhere(s, f).con1 == Reals(s, f, (t: Totals) => t.con1)
    ensures SumWhere(s, f).du == Reals(s, f, (t: Totals) => t.du)
    ensures SumWhere(s, f).pc == Counts(s, f, (t: Totals) => t.pc)
    ensures SumWhere(s, f).sc == Counts(s, f, (t: Totals) => t.sc)
    ensures SumWhere(s, f).dc == Counts(s, f, (t: Totals) => t.dc)
    ensures SumWhere(s, f).fee == Counts(s, f, (t: Totals) => t.fee)
  {
    if s != [] {
      SumColumns(s[1..], f);
    }
  }

  lemma {:induction false} SumIs(s: seq<Tacct>, k: Key, uidsum: bool, f: Tacct -> bool)
    requires forall t :: f(t) <==> KeyOf(t, uidsum) == k
    ensures SumOf(s, Only(k), uidsum) == SumWhere(s, f)
  {
    hide Plus;
    if s != [] {
      SumIs(s[1..], k, uidsum, f);
    }
  }

  lemma {:induction false} SumsAre(ss: seq<seq<Tacct>>, from: nat, k: Key, uidsum: bool, f: Tacct -> bool)
    requires forall t :: f(t) <==> KeyOf(t, uidsum) == k
    ensures SumsOf(ss, from, Only(k), uidsum) == SumsWhere(ss, from, f)
    decreases |ss| - from
  {
    hide Plus;
    hide KeyOf;
    if from < |ss| {
      SumIs(ss[from], k, uidsum, f);
      SumsAre(ss, from + 1, k, uidsum, f);
    }
  }

  lemma {:induction false} InOrderIs(s: seq<Tacct>, uidsum: bool)
    requires forall i, j :: 0 <= i < j < |s| ==> !Less(KeyOf(s[j], uidsum), KeyOf(s[i], uidsum))
    ensures Sorted(s, uidsum)
  {
    hide Less;
    hide KeyOf;
    if s != [] {
      var tail := s[1..];
      assert forall j :: 0 <= j < |tail| ==> tail[j] == s[j + 1];
      InOrderIs(tail, uidsum);
    }
  }

  lemma {:induction false} KeyFrom(ss: seq<seq<Tacct>>, from: nat, q: nat, j: nat, uidsum: bool)
    requires from <= q < |ss| && j < |ss[q]|
    ensures KeyOf(ss[q][j], uidsum) in KeysFrom(ss, from, uidsum)
    decreases q - from
  {
    if q > from {
      KeyFrom(ss, from + 1, q, j, uidsum);
    }
  }

  lemma {:induction false} FirstInAt(s: seq<Tacct>, k: Key, uidsum: bool) returns (j: nat)
    ensures FirstIn(s, k, uidsum).Some? ==> j < |s| && FirstIn(s, k, uidsum).t == s[j] && KeyOf(s[j], uidsum) == k
    ensures FirstIn(s, k, uidsum).Some? ==> forall i :: 0 <= i < j ==> KeyOf(s[i], uidsum) != k
    ensures FirstIn(s, k, uidsum).None? ==> forall i :: 0 <= i < |s| ==> KeyOf(s[i], uidsum) != k
  {
    j := 0;
    if s != [] && KeyOf(s[0], uidsum) != k {
      j := FirstInAt(s[1..], k, uidsum);
      j := j + 1;
    }
  }

  lemma {:induction false} FirstOfAt(ss: seq<seq<Tacct>>, from: nat, k: Key, uidsum: bool) returns (q: nat, j: nat)
    requires FirstOf(ss, from, k, uidsum).Some?
    ensures from <= q < |ss| && j < |ss[q]| && FirstOf(ss, from, k, uidsum).t == ss[q][j]
    ensures KeyOf(ss[q][j], uidsum) == k && forall i :: 0 <= i < j ==> KeyOf(ss[q][i], uidsum) != k
    ensures forall p, i :: from <= p < q && 0 <= i < |ss[p]| ==> KeyOf(ss[p][i], uidsum) != k
    decreases |ss| - from
  {
    hide FirstIn;
    j := FirstInAt(ss[from], k, uidsum);
    q := from;
    if FirstIn(ss[from], k, uidsum).None? {
      q, j := FirstOfAt(ss, from + 1, k, uidsum);
    }
  }

  /** What was merged with -u: from streams in order of uid comes one record for each uid, in order, with
      the sums of all records with that uid and the name of the first of them. */
  lemma MergedByUid(out: seq<Tacct>, ss: seq<seq<Tacct>>)
    requires MergeOf(out, ss, true)
    requires forall q, i, j :: 0 <= q < |ss| && 0 <= i < j < |ss[q]| ==> ss[q][i].uid <= ss[q][j].uid
    ensures forall i, j :: 0 <= i < j < |out| ==> out[i].uid < out[j].uid
    ensures forall q, j :: 0 <= q < |ss| && 0 <= j < |ss[q]| ==>
                             exists i :: 0 <= i < |out| && out[i].uid == ss[q][j].uid
    ensures forall i :: 0 <= i < |out| ==> out[i].totals == SumsWhere(ss, 0, (t: Tacct) => t.uid == out[i].uid)
    ensures forall i :: 0 <= i < |out| ==> LabelFits(out[i], ss, (t: Tacct) => t.uid == out[i].uid)
  {
    hide SumsOf;
    hide SumsWhere;
    hide KeysFrom;
    hide FirstOf;
    forall q | 0 <= q < |ss|
      ensures Sorted(ss[q], true)
    {
      InOrderIs(ss[q], true);
    }
    forall q, j | 0 <= q < |ss| && 0 <= j < |ss[q]|
      ensures exists i :: 0 <= i < |out| && out[i].uid == ss[q][j].uid
    {
      KeyFrom(ss, 0, q, j, true);
      var i :| 0 <= i < |out| && KeyOf(out[i], true) == KeyOf(ss[q][j], true);
    }
    forall i | 0 <= i < |out|
      ensures out[i].totals == SumsWhere(ss, 0, (t: Tacct) => t.uid == out[i].uid)
      ensures LabelFits(out[i], ss, (t: Tacct) => t.uid == out[i].uid)
    {
      OneMerged(out[i], ss, true, (t: Tacct) => t.uid == out[i].uid);
    }
  }

  /** The first record for which f holds, looking through the streams in turn, has this uid and name. */
  ghost predicate LabelFits(r: Tacct, ss: seq<seq<Tacct>>, f: Tacct -> bool) {
    exists q, j :: 0 <= q < |ss| && 0 <= j < |ss[q]| && ss[q][j].uid == r.uid && ss[q][j].name == r.name &&
                   f(ss[q][j]) && (forall i :: 0 <= i < j ==> !f(ss[q][i])) &&
                   forall p, i :: 0 <= p < q && 0 <= i < |ss[p]| ==> !f(ss[p][i])
  }

  lemma OneMerged(r: Tacct, ss: seq<seq<Tacct>>, uidsum: bool, f: Tacct -> bool)
    requires IsMerged(r, ss, uidsum) && forall t :: f(t) <==> KeyOf(t, uidsum) == KeyOf(r, uidsum)
    ensures r.totals == SumsWhere(ss, 0, f) && LabelFits(r, ss, f)
  {
    hide SumsOf;
    hide SumsWhere;
    hide FirstOf;
    SumsAre(ss, 0, KeyOf(r, uidsum), uidsum, f);
    var q, j := FirstOfAt(ss, 0, KeyOf(r, uidsum), uidsum);
    assert ss[q][j].name == r.name && f(ss[q][j]);
  }

  /** Without -u the same for uid and name, in order of uid and then of name. */
  lemma MergedByUser(out: seq<Tacct>, ss: seq<seq<Tacct>>)
    requires MergeOf(out, ss, false)
    requires forall q, i, j :: 0 <= q < |ss| && 0 <= i < j < |ss[q]| ==>
               ss[q][i].uid < ss[q][j].uid ||
               (ss[q][i].uid == ss[q][j].uid && !LexLess(ss[q][j].name, ss[q][i].name))
    ensures forall i, j :: 0 <= i < j < |out| ==>
              out[i].uid < out[j].uid || (out[i].uid == out[j].uid && LexLess(out[i].name, out[j].name))
    ensures forall q, j :: 0 <= q < |ss| && 0 <= j < |ss[q]| ==>
              exists i :: 0 <= i < |out| && out[i].uid == ss[q][j].uid && out[i].name == ss[q][j].name
    ensures forall i :: 0 <= i < |out| ==>
              out[i].totals == SumsWhere(ss, 0, (t: Tacct) => t.uid == out[i].uid && t.name == out[i].name)
  {
    hide SumsOf;
    hide SumsWhere;
    hide KeysFrom;
    hide FirstOf;
    forall q | 0 <= q < |ss|
      ensures Sorted(ss[q], false)
    {
      InOrderIs(ss[q], false);
    }
    forall q, j | 0 <= q < |ss| && 0 <= j < |ss[q]|
      ensures exists i :: 0 <= i < |out| && out[i].uid == ss[q][j].uid && out[i].name == ss[q][j].name
    {
      KeyFrom(ss, 0, q, j, false);
      var i :| 0 <= i < |out| && KeyOf(out[i], false) == KeyOf(ss[q][j], false);
    }
    forall i | 0 <= i < |out|
      ensures out[i].totals == SumsWhere(ss, 0, (t: Tacct) => t.uid == out[i].uid && t.name == out[i].name)
    {
      OneMerged(out[i], ss, false, (t: Tacct) => t.uid == out[i].uid && t.name == out[i].name);
    }
  }

  /** The streams give one record for each key, with the sums of that key; with -t only the sum of
      all.  Nothing is lost or counted twice, sorted or not; sorted streams give each key once. */
  predicate MergeOf(out: seq<Tacct>, lives: seq<seq<Tacct>>, uidsum: bool) {
    && KeysOf(out, uidsum) == KeysFrom(lives, 0, uidsum)
    && (AllSorted(lives, uidsum) ==>
          Increasing(out, uidsum) && forall i :: 0 <= i < |out| ==> IsMerged(out[i], lives, uidsum))
  }

  /** Every stream is in order of uid. */
  predicate ByUid(ss: seq<seq<Tacct>>) {
    forall q, i, j :: 0 <= q < |ss| && 0 <= i < j < |ss[q]| ==> ss[q][i].uid <= ss[q][j].uid
  }

  /** Every stream is in order of uid and, for equal uids, of name. */
  predicate ByUser(ss: seq<seq<Tacct>>) {
    forall q, i, j :: 0 <= q < |ss| && 0 <= i < j < |ss[q]| ==>
      ss[q][i].uid < ss[q][j].uid || (ss[q][i].uid == ss[q][j].uid && !LexLess(ss[q][j].name, ss[q][i].name))
  }

  lemma LivesInOrder(ss: seq<seq<Tacct>>)
    ensures ByUid(ss) ==> ByUid(Lives(ss))
    ensures ByUser(ss) ==> ByUser(Lives(ss))
  {
    hide Live;
    var ls := Lives(ss);
    forall q | 0 <= q < |ss|
      ensures ls[q] <= ss[q]
    {
      assert ls[q] == Live(ss[q]);
    }
  }

  /** The whole program: standard input and at most 99 files. */
  method Acctmerg(input: seq<Tacct>, files: seq<seq<Tacct>>, uidsum: bool, totalonly: bool)
    returns (out: seq<Tacct>, exitcode: int)
    ensures |files| >= 100 ==> out == [] && exitcode == 1
    ensures |files| < 100 ==> exitcode == if [] in [input] + files then 2 else 0
    ensures |files| < 100 && totalonly ==> out == [Tacct(0, "TOTAL", SumsOf(Lives([input] + files), 0, All, uidsum))]
    ensures |files| < 100 && !totalonly ==> MergeOf(out, Lives([input] + files), uidsum)
    ensures |files| < 100 && !totalonly ==>
              forall p :: SumOf(out, p, uidsum) == SumsOf(Lives([input] + files), 0, p, uidsum)
    ensures |files| < 100 && !totalonly && uidsum && ByUid([input] + files) ==>
              (forall i, j :: 0 <= i < j < |out| ==> out[i].uid < out[j].uid) &&
              forall i :: 0 <= i < |out| ==>
                out[i].totals == SumsWhere(Lives([input] + files), 0, (t: Tacct) => t.uid == out[i].uid)
    ensures |files| < 100 && !totalonly && !uidsum && ByUser([input] + files) ==>
              (forall i, j :: 0 <= i < j < |out| ==>
                 out[i].uid < out[j].uid || (out[i].uid == out[j].uid && LexLess(out[i].name, out[j].name))) &&
              forall i :: 0 <= i < |out| ==>
                out[i].totals ==
                SumsWhere(Lives([input] + files), 0, (t: Tacct) => t.uid == out[i].uid && t.name == out[i].name)
  {
    hide KeysOf;
    hide KeysFrom;
    hide AllSorted;
    hide Increasing;
    hide IsMerged;
    hide SumOf;
    hide SumsOf;
    hide Lives;
    if |files| >= NFILE {
      return [], 1;
    }
    var m := new Merger([input] + files, uidsum, totalonly);
    exitcode := m.Merge();
    out := m.out;
    LivesInOrder([input] + files);
    if !totalonly && uidsum && ByUid([input] + files) {
      MergedByUid(out, Lives([input] + files));
    }
    if !totalonly && !uidsum && ByUser([input] + files) {
      MergedByUser(out, Lives([input] + files));
    }
  }
}
