/** wtmpfix (usr/src/common/cmd/acct/wtmpfix.c): make the times of a login log consistent across
    changes of the clock, in two passes: the first lists the changes, the second moves the records
    before each of them. */
module WtmpFix {
  const NSZ := 8

  datatype Type = RunLvl | BootTime | OldTime | NewTime | Other

  datatype Utmp = Utmp(type_: Type, line: string, user: string, time: int)

  // ----- Names ------------------------------------------------------------------------------------

  predicate NameChar(c: char) {
    'a' <= c <= 'z' || 'A' <= c <= 'Z' || '0' <= c <= '9' || c == '$' || c == ' ' || c == '.'
  }

  /** The first NSZ characters of a login name are proper ones. */
  predicate ValidName(name: string) {
    forall i :: 0 <= i < |name| && i < NSZ ==> NameChar(name[i])
  }

  method Invalid(name: string) returns (bad: bool)
    ensures bad <==> !ValidName(name)
  {
    var i := 0;
    while i < NSZ
      invariant 0 <= i <= NSZ && i <= |name| && forall k :: 0 <= k < i ==> NameChar(name[k])
    {
      if i == |name| {
        return false;
      }
      if !NameChar(name[i]) {
        return true;
      }
      i := i + 1;
    }
    bad := false;
  }

  function FixName(w: Utmp): Utmp {
    if ValidName(w.user) then w else w.(user := "INVALID")
  }

  /** What goes to the temporary file for record k: the name is looked at, but not in a NEW_TIME record
      read together with its OLD_TIME record. */
  function Written(log: seq<Utmp>, k: nat): (w: Utmp)
    requires k < |log|
    ensures w.time == log[k].time && w.type_ == log[k].type_
  {
    if k > 0 && log[k - 1].type_.OldTime? then log[k] else FixName(log[k])
  }

  // ----- What the log says ------------------------------------------------------------------------

  /** The count of multi-user mode after n records. */
  function Multi(log: seq<Utmp>, n: nat): nat
    requires n <= |log|
  {
    if n == 0 then 0
    else
      var w := log[n - 1];
      if w.type_.RunLvl? && "run-level S" <= w.line then 0
      else if w.type_.RunLvl? && "run-level 2" <= w.line then Multi(log, n - 1) + 1
      else Multi(log, n - 1)
  }

  /** A change of the clock that is recorded: seen in multi-user mode. */
  predicate Recorded(log: seq<Utmp>, q: nat) {
    q + 1 < |log| && log[q].type_.OldTime? && Multi(log, q) > 0
  }

  function Jump(log: seq<Utmp>, q: nat): int {
    if Recorded(log, q) then log[q + 1].time - log[q].time else 0
  }

  /** The sum of the recorded changes from record q up to record n or the next boot. */
  function After(log: seq<Utmp>, q: nat, n: nat): int
    requires n <= |log|
    decreases n - q
  {
    if q >= n || log[q].type_.BootTime? then 0 else Jump(log, q) + After(log, q + 1, n)
  }

  /** Where the epoch of record k starts: at the last boot record, or at the beginning. */
  function Boot(log: seq<Utmp>, k: nat): (b: nat)
    requires k < |log|
    ensures b <= k
  {
    if k == 0 || log[k].type_.BootTime? then k else Boot(log, k - 1)
  }

  /** Every OLD_TIME record from k to n is followed at once by a NEW_TIME record. */
  predicate Paired(log: seq<Utmp>, k: nat, n: nat)
    requires n <= |log|
    decreases n - k
  {
    if k >= n then true
    else if log[k].type_.OldTime? then k + 1 < n && log[k + 1].type_.NewTime? && Paired(log, k + 2, n)
    else Paired(log, k + 1, n)
  }

  /** The count is above zero exactly when run level 2 was entered and run level S not since. */
  lemma {:induction false} MultiIs(log: seq<Utmp>, n: nat)
    requires n <= |log|
    ensures Multi(log, n) > 0 <==>
              exists i :: 0 <= i < n && log[i].type_ == RunLvl && "run-level 2" <= log[i].line &&
                          forall j :: i < j < n && log[j].type_ == RunLvl ==> !("run-level S" <= log[j].line)
  {
    if n > 0 {
      MultiIs(log, n - 1);
      var w := log[n - 1];
      NotBothLevels(w.line);
      if i :| 0 <= i < n && log[i].type_ == RunLvl && "run-level 2" <= log[i].line &&
              forall j :: i < j < n && log[j].type_ == RunLvl ==> !("run-level S" <= log[j].line) {
        assert i < n - 1 || i == n - 1;
      }
    }
  }

  lemma NotBothLevels(line: string)
    ensures !("run-level S" <= line && "run-level 2" <= line)
  {
    assert "run-level S"[10] == 'S' && "run-level 2"[10] == '2';
  }

  /** Letters, digits, and the dollar sign, the blank and the full stop. */
  lemma NameCharIs(c: char)
    ensures NameChar(c) <==>
              (exists i :: 0 <= i < 26 && c == "abcdefghijklmnopqrstuvwxyz"[i]) ||
              (exists i :: 0 <= i < 26 && c == "ABCDEFGHIJKLMNOPQRSTUVWXYZ"[i]) ||
              (exists i :: 0 <= i < 10 && c == "0123456789"[i]) || c == '$' || c == ' ' || c == '.'
  {
    forall i | 0 <= i < 26
      ensures "abcdefghijklmnopqrstuvwxyz"[i] == 'a' + i as char && "ABCDEFGHIJKLMNOPQRSTUVWXYZ"[i] == 'A' + i as char
    {
      Alphabet(i);
    }
    if 'a' <= c <= 'z' {
      assert c == "abcdefghijklmnopqrstuvwxyz"[c as int - 'a' as int];
    } else if 'A' <= c <= 'Z' {
      assert c == "ABCDEFGHIJKLMNOPQRSTUVWXYZ"[c as int - 'A' as int];
    } else if '0' <= c <= '9' {
      assert c == "0123456789"[c as int - '0' as int];
    }
  }

  lemma Alphabet(i: nat)
    requires i < 26
    ensures "abcdefghijklmnopqrstuvwxyz"[i] == 'a' + i as char && "ABCDEFGHIJKLMNOPQRSTUVWXYZ"[i] == 'A' + i as char
  {
  }

  // ----- The list of changes ----------------------------------------------------------------------

  /** Records from off1 up to off2 are to be moved by adj. */
  datatype Interval = Interval(off1: nat, off2: nat, adj: int)

  function Intervals(log: seq<Utmp>, n: nat): (r: seq<Interval>)
    requires n <= |log|
    ensures |r| <= n
  {
    if n == 0 then []
    else if Recorded(log, n - 1) then
      Intervals(log, n - 1) + [Interval(Boot(log, n - 1), n - 1, Jump(log, n - 1))]
    else Intervals(log, n - 1)
  }

  /** What the intervals add to the record at p. */
  function AdjSum(ds: seq<Interval>, p: nat): int {
    if ds == [] then 0
    else
      var d := ds[|ds| - 1];
      AdjSum(ds[..|ds| - 1], p) + if d.off1 <= p < d.off2 then d.adj else 0
  }

  lemma AdjSnoc(ds: seq<Interval>, d: Interval, p: nat)
    ensures AdjSum(ds + [d], p) == AdjSum(ds, p) + if d.off1 <= p < d.off2 then d.adj else 0
  {
    assert (ds + [d])[..|ds|] == ds;
  }

  lemma {:induction false} BootBetween(log: seq<Utmp>, p: nat, k: nat)
    requires p <= k < |log|
    ensures Boot(log, k) <= p <==> forall i :: p < i <= k ==> !log[i].type_.BootTime?
  {
    if k > p {
      BootBetween(log, p, k - 1);
    }
  }

  lemma {:induction false} AfterSnoc(log: seq<Utmp>, q: nat, n: nat)
    requires q <= n < |log|
    ensures After(log, q, n + 1) ==
            After(log, q, n) + if forall i :: q <= i <= n ==> !log[i].type_.BootTime? then Jump(log, n) else 0
    decreases n - q
  {
    if q < n {
      AfterSnoc(log, q + 1, n);
    } else {
      assert After(log, n + 1, n + 1) == 0;
    }
  }

  /** The list of intervals says of every record what the log says. */
  lemma {:induction false} IntervalsAre(log: seq<Utmp>, n: nat, p: nat)
    requires n <= |log|
    ensures AdjSum(Intervals(log, n), p) == After(log, p + 1, n)
  {
    if n > 0 {
      IntervalsAre(log, n - 1, p);
      var q := n - 1;
      if Recorded(log, q) {
        AdjSnoc(Intervals(log, q), Interval(Boot(log, q), q, Jump(log, q)), p);
      }
      if p < q {
        BootBetween(log, p, q);
        AfterSnoc(log, p + 1, q);
      }
    }
  }

  // ----- The times fit ----------------------------------------------------------------------------

  /** Records k and k + 1 are in one epoch. */
  predicate SameEpoch(log: seq<Utmp>, k: nat) {
    k + 1 < |log| && !log[k + 1].type_.BootTime?
  }

  /** The clock only goes forward, but for the changes; and all changes were recorded. */
  ghost predicate Steady(log: seq<Utmp>) {
    && Paired(log, 0, |log|)
    && (forall k: nat {:trigger SameEpoch(log, k)} :: SameEpoch(log, k) && !log[k].type_.OldTime? ==>
          log[k].time <= log[k + 1].time)
    && (forall k :: 0 <= k < |log| && log[k].type_.OldTime? ==> Multi(log, k) > 0)
  }

  /** The time of record k after the second pass. */
  function Adjusted(log: seq<Utmp>, k: nat): int
    requires k < |log|
  {
    log[k].time + After(log, k + 1, |log|)
  }

  lemma {:induction false} PairedAt(log: seq<Utmp>, k: nat, n: nat, q: nat)
    requires n <= |log| && Paired(log, k, n) && k <= q < n && log[q].type_.OldTime?
    ensures q + 1 < n && log[q + 1].type_.NewTime?
    decreases n - k
  {
    if k < q {
      if log[k].type_.OldTime? {
        PairedAt(log, k + 2, n, q);
      } else {
        PairedAt(log, k + 1, n, q);
      }
    }
  }

  /** A record that is no change: the next one that is none either is not earlier. */
  lemma NextNotEarlier(log: seq<Utmp>, k: nat)
    requires Steady(log) && SameEpoch(log, k) && !log[k].type_.OldTime?
    ensures !log[k + 1].type_.OldTime? ==> Adjusted(log, k) <= Adjusted(log, k + 1)
    ensures log[k + 1].type_.OldTime? ==>
              k + 2 < |log| && !log[k + 2].type_.OldTime? && Adjusted(log, k) <= Adjusted(log, k + 2)
  {
    hide Multi;
    hide Paired;
    var n := |log|;
    assert After(log, k + 1, n) == Jump(log, k + 1) + After(log, k + 2, n);
    if log[k + 1].type_.OldTime? {
      PairedAt(log, 0, n, k + 1);
      assert After(log, k + 2, n) == Jump(log, k + 2) + After(log, k + 3, n);
    }
  }

  /** Within an epoch the adjusted times are in order, but for those of the OLD_TIME records
      themselves, which are not moved by their own change. */
  lemma {:induction false} TimesInOrder(log: seq<Utmp>, i: nat, j: nat)
    requires Steady(log) && i <= j < |log| && Boot(log, j) <= i
    requires !log[i].type_.OldTime? && !log[j].type_.OldTime?
    ensures Adjusted(log, i) <= Adjusted(log, j)
    decreases j - i
  {
    hide Multi;
    hide Paired;
    hide Adjusted;
    if i < j {
      BootBetween(log, i, j);
      assert SameEpoch(log, i);
      NextNotEarlier(log, i);
      var next := if log[i + 1].type_.OldTime? then i + 2 else i + 1;
      TimesInOrder(log, next, j);
    }
  }

  /** An OLD_TIME record is not moved by its own change.  So it is in order with the NEW_TIME record
      behind it exactly when the clock was put forward, and with the record k before it, exactly when
      that record, moved by the change, is not later than it. */
  lemma OldTimeNotMoved(log: seq<Utmp>, k: nat, q: nat)
    requires Recorded(log, q) && log[q + 1].type_.NewTime? && k + 1 == q
    ensures Adjusted(log, q) <= Adjusted(log, q + 1) <==> log[q].time <= log[q + 1].time
    ensures Adjusted(log, k) <= Adjusted(log, q) <==> log[k].time + (log[q + 1].time - log[q].time) <= log[q].time
  {
    hide Multi;
    var n := |log|;
    assert After(log, q + 1, n) == Jump(log, q + 1) + After(log, q + 2, n);
    assert After(log, q, n) == Jump(log, q) + After(log, q + 1, n);
  }

  lemma {:induction false} QuietUpTo(log: seq<Utmp>, p: nat, b: nat)
    requires p <= b <= |log| && (b < |log| ==> log[b].type_ == BootTime)
    requires forall q :: p <= q < b ==> log[q].type_ != OldTime
    ensures After(log, p, |log|) == 0
    decreases b - p
  {
    hide Multi;
    if p < b && log[p].type_ != BootTime {
      QuietUpTo(log, p + 1, b);
    }
  }

  /** Without a change of the clock before the next boot, or before the end, a record is not moved. */
  lemma NoChange(log: seq<Utmp>, k: nat, b: nat)
    requires k < b <= |log| && (b < |log| ==> log[b].type_ == BootTime)
    requires forall q :: k < q < b ==> log[q].type_ != OldTime
    ensures Adjusted(log, k) == log[k].time
  {
    QuietUpTo(log, k + 1, b);
  }

  /** With one change in multi-user mode before the next boot, or before the end, a record before it is
      moved by that change. */
  lemma {:induction false} OneChange(log: seq<Utmp>, k: nat, q: nat, b: nat)
    requires k < q && q + 1 < b <= |log| && (b < |log| ==> log[b].type_ == BootTime)
    requires log[q].type_ == OldTime && Multi(log, q) > 0
    requires forall p :: k < p < b && p != q ==> log[p].type_ != OldTime && log[p].type_ != BootTime
    ensures Adjusted(log, k) == log[k].time + (log[q + 1].time - log[q].time)
    decreases q - k
  {
    hide Multi;
    if k + 1 < q {
      OneChange(log, k + 1, q, b);
    } else {
      QuietUpTo(log, q + 1, b);
    }
  }

  /** A name with another character among its first eight is replaced, but not in a record read together
      with the OLD_TIME record before it. */
  lemma WrittenIs(log: seq<Utmp>, k: nat)
    requires k < |log|
    ensures Written(log, k).line == log[k].line
    ensures Written(log, k).user ==
            if !(k > 0 && log[k - 1].type_ == OldTime) &&
               exists i :: 0 <= i < 8 && i < |log[k].user| && !NameChar(log[k].user[i])
            then "INVALID" else log[k].user
  {
    hide NameChar;
  }

  /** With the clock put back by five the OLD_TIME record is later than both its neighbours in the end. */
  lemma PutBack()
    ensures var log := [Utmp(RunLvl, "run-level 2", "", 9), Utmp(OldTime, "", "", 9), Utmp(NewTime, "", "", 4)];
      Steady(log) && Adjusted(log, 0) == 4 && Adjusted(log, 1) == 9 && Adjusted(log, 2) == 4
  {
    var log := [Utmp(RunLvl, "run-level 2", "", 9), Utmp(OldTime, "", "", 9), Utmp(NewTime, "", "", 4)];
    assert "run-level S"[10] == 'S' && log[0].line[10] == '2';
    assert Multi(log, 1) == 1 + Multi(log, 0);
    assert Paired(log, 3, 3) && Paired(log, 1, 3);
    assert Jump(log, 1) == -5 && Jump(log, 2) == 0;
    assert After(log, 3, 3) == 0 && After(log, 2, 3) == 0;
  }

  /** A change is broken off exactly when some OLD_TIME record has no NEW_TIME record right behind it. */
  lemma {:induction false} PairedIs(log: seq<Utmp>, k: nat, n: nat)
    requires k <= n <= |log|
    ensures Paired(log, k, n) <==>
              forall q :: k <= q < n && log[q].type_ == OldTime ==> q + 1 < n && log[q + 1].type_ == NewTime
    decreases n - k
  {
    if k < n {
      if log[k].type_ == OldTime && k + 1 < n && log[k + 1].type_ == NewTime {
        PairedIs(log, k + 2, n);
      } else if log[k].type_ != OldTime {
        PairedIs(log, k + 1, n);
      }
    }
  }

  // ----- The program ------------------------------------------------------------------------------

  /** An element of the list of changes. */
  class Dtab {
    var off1: nat
    var off2: nat
    var adj: int
    var ndp: Dtab?

    constructor ()
      ensures off1 == 0 && off2 == 0 && adj == 0 && ndp == null
    {
      off1, off2, adj, ndp := 0, 0, 0, null;
    }

    function Value(): Interval
      reads this
    {
      Interval(off1, off2, adj)
    }
  }

  /** The state of wtmpfix.  Offsets are counted in records, so the offset of the next record is also
      the number of records read so far, from all files. */
  class Fixer {
    const log: seq<Utmp>              // all input files, one after the other
    var Fdp: Dtab?                    // list header
    var Ldp: Dtab?                    // list trailer: the element being filled
    var recno: nat
    var multimode: int
    var temp: seq<Utmp>               // the temporary file
    ghost var cells: seq<Dtab>        // the list
    ghost var repr: set<Dtab>

    ghost predicate Linked()
      reads `Fdp, `Ldp, `cells, `repr, repr
    {
      && (forall i :: 0 <= i < |cells| ==> cells[i] in repr)
      && (cells == [] <==> Ldp == null) && (cells == [] <==> Fdp == null)
      && (cells != [] ==> Fdp == cells[0] && Ldp == cells[|cells| - 1] && cells[|cells| - 1].ndp == null)
      && (forall i, j :: 0 <= i < j < |cells| ==> cells[i] != cells[j])
      && (forall i :: 0 <= i < |cells| - 1 ==> cells[i].ndp == cells[i + 1])
    }

    /** The elements are those of `done`, and a last one for the next change in the epoch from off1. */
    ghost predicate Shape(done: seq<Interval>, off1: nat)
      reads `Fdp, `Ldp, `cells, `repr, repr
    {
      && Linked() && |cells| == |done| + 1
      && (forall i :: 0 <= i < |done| ==> cells[i].Value() == done[i])
      && Ldp != null && Ldp.Value() == Interval(off1, 0, 0)
    }

    /** The list holds the recorded changes so far. */
    ghost predicate Listed()
      reads `Fdp, `Ldp, `cells, `repr, repr, `recno
      requires recno <= |log|
    {
      if recno == 0 then Linked() && cells == []
      else Shape(Intervals(log, recno), Boot(log, recno - 1))
    }

    ghost predicate Valid()
      reads this, repr
      ensures Valid() ==> recno <= |log|
    {
      && recno <= |log| && Listed() && multimode == Multi(log, recno)
      && |temp| == recno && (forall k :: 0 <= k < recno ==> temp[k] == Written(log, k))
      && (recno > 0 ==> !log[recno - 1].type_.OldTime?)
    }

    constructor (log: seq<Utmp>)
      ensures Valid() && this.log == log && recno == 0 && repr == {}
    {
      this.log := log;
      Fdp, Ldp, recno, multimode, temp, cells, repr := null, null, 0, 0, [], [], {};
    }

    /** The epoch starts at p. */
    method Mkdtab(p: nat, ghost done: seq<Interval>, ghost off1: nat)
      requires (Linked() && cells == [] && done == []) || Shape(done, off1)
      modifies `Fdp, `Ldp, `cells, `repr, repr
      ensures Shape(done, p) && fresh(repr - old(repr))
    {
      if Ldp == null {
        var dp := new Dtab();
        Fdp, Ldp := dp, dp;
        cells, repr := [dp], repr + {dp};
      }
      Ldp.off1 := p;
    }

    /** Record a change seen at p, and start the next element in the same epoch. */
    method Setdtab(p: nat, w1: Utmp, w2: Utmp, ghost done: seq<Interval>, ghost off1: nat)
      requires Shape(done, off1)
      modifies `Fdp, `Ldp, `cells, `repr, repr
      ensures Shape(done + [Interval(off1, p, w2.time - w1.time)], off1) && fresh(repr - old(repr))
    {
      var dp := Ldp;
      dp.off2, dp.adj := p, w2.time - w1.time;
      var next := new Dtab();
      next.off1 := dp.off1;
      Ldp := next;
      dp.ndp := next;
      cells, repr := cells + [next], repr + {next};
    }

    /** A record that is not part of a change. */
    method Plain()
      requires Valid() && recno < |log| && !log[recno].type_.OldTime?
      modifies this, repr
      ensures Valid() && recno == old(recno) + 1 && fresh(repr - old(repr))
    {
      hide FixName;
      hide Shape;
      hide Linked;
      hide Intervals;
      var Ut := log[recno];
      PlainSteps(log, recno);
      if recno == 0 || Ut.type_.BootTime? {
        Mkdtab(recno, Intervals(log, recno), if recno == 0 then 0 else Boot(log, recno - 1));
      }
      if Ut.type_.RunLvl? {
        NotBoth(Ut.line);
        if "run-level S" <= Ut.line {
          multimode := 0;
        }
        if "run-level 2" <= Ut.line {
          multimode := multimode + 1;
        }
      }
      var bad := Invalid(Ut.user);
      FixNameIs(Ut);
      if bad {
        Ut := Ut.(user := "INVALID");
      }
      temp := temp + [Ut];
      recno := recno + 1;
    }

    lemma FixNameIs(w: Utmp)
      ensures FixName(w) == if ValidName(w.user) then w else w.(user := "INVALID")
    {
    }

    /** A change of the clock: an OLD_TIME record and the NEW_TIME record behind it. */
    method Change()
      requires Valid() && recno + 1 < |log| && log[recno].type_.OldTime? && log[recno + 1].type_.NewTime?
      modifies this, repr
      ensures Valid() && recno == old(recno) + 2 && fresh(repr - old(repr))
    {
      hide FixName;
      hide Shape;
      hide Linked;
      hide Intervals;
      hide Multi;
      var Ut, Ut2 := log[recno], log[recno + 1];
      ChangeSteps(log, recno);
      if recno == 0 {
        Mkdtab(recno, [], 0);
      }
      if multimode != 0 {
        Setdtab(recno, Ut, Ut2, Intervals(log, recno), Boot(log, recno));
      }
      var bad := Invalid(Ut.user);
      FixNameIs(Ut);
      if bad {
        Ut := Ut.(user := "INVALID");
      }
      temp := temp + [Ut, Ut2];
      recno := recno + 2;
    }

    /** The first pass over one file, which ends at record `to`; false when a change is broken off. */
    method Scanfile(to: nat) returns (ok: bool)
      requires Valid() && recno <= to <= |log|
      modifies this, repr
      ensures ok <==> Paired(log, old(recno), to)
      ensures ok ==> Valid() && recno == to && fresh(repr - old(repr))
    {
      hide Multi;
      hide Linked;
      hide Listed;
      hide Written;
      ok := true;
      while recno < to
        invariant Valid() && old(recno) <= recno <= to && ok
        invariant Paired(log, recno, to) == Paired(log, old(recno), to)
        invariant fresh(repr - old(repr))
        decreases |log| - recno
      {
        if log[recno].type_.OldTime? {
          if recno + 1 == to || !log[recno + 1].type_.NewTime? {
            return false;
          }
          Change();
        } else {
          Plain();
        }
      }
    }

    /** Move the time of the record at p by all changes that cover it, going along the list. */
    method Adjust(p: nat, w: Utmp, ghost done: seq<Interval>, ghost off1: nat) returns (r: Utmp)
      requires Shape(done, off1)
      ensures r == w.(time := w.time + AdjSum(done, p))
    {
      var dp, time := Fdp, w.time;
      ghost var i := 0;
      assert done[..0] == [];
      while dp != null
        invariant 0 <= i <= |cells| && dp == (if i == |cells| then null else cells[i])
        invariant i <= |done| ==> time == w.time + AdjSum(done[..i], p)
        invariant i == |cells| ==> time == w.time + AdjSum(done, p)
        decreases |cells| - i
      {
        assert i < |done| ==> done[..i + 1][..i] == done[..i] && cells[i].Value() == done[i];
        assert done[..|done|] == done;
        if dp.adj != 0 && p >= dp.off1 && p < dp.off2 {
          time := time + dp.adj;
        }
        dp := dp.ndp;
        i := i + 1;
      }
      r := w.(time := time);
    }

    /** The second pass. */
    method SecondPass() returns (out: seq<Utmp>)
      requires Valid() && recno == |log|
      ensures |out| == |log|
      ensures forall k :: 0 <= k < |log| ==> out[k] == Written(log, k).(time := Adjusted(log, k))
    {
      hide Shape;
      hide AdjSum;
      hide Written;
      hide Intervals;
      out := [];
      var k := 0;
      while k < |temp|
        invariant 0 <= k == |out| <= |temp|
        invariant forall j :: 0 <= j < k ==> out[j] == Written(log, j).(time := Adjusted(log, j))
      {
        IntervalsAre(log, |log|, k);
        var w := Adjust(k, temp[k], Intervals(log, |log|), Boot(log, |log| - 1));
        out := out + [w];
        k := k + 1;
      }
    }
  }

  /** All files, one after the other. */
  function Concat(files: seq<seq<Utmp>>): seq<Utmp> {
    if files == [] then [] else Concat(files[..|files| - 1]) + files[|files| - 1]
  }

  predicate AllPaired(files: seq<seq<Utmp>>) {
    forall i :: 0 <= i < |files| ==> Paired(files[i], 0, |files[i]|)
  }

  /** Whether a stretch is paired does not depend on what surrounds it. */
  lemma {:induction false} PairedWithin(a: seq<Utmp>, f: seq<Utmp>, b: seq<Utmp>, k: nat)
    requires k <= |f|
    ensures Paired(a + f + b, |a| + k, |a| + |f|) == Paired(f, k, |f|)
    decreases |f| - k
  {
    if k < |f| {
      var all := a + f + b;
      assert all[|a| + k] == f[k] && (k + 1 < |f| ==> all[|a| + k + 1] == f[k + 1]);
      if f[k].type_.OldTime? {
        if k + 2 <= |f| {
          PairedWithin(a, f, b, k + 2);
        }
      } else {
        PairedWithin(a, f, b, k + 1);
      }
    }
  }

  lemma {:induction false} ConcatFrom(files: seq<seq<Utmp>>, i: nat)
    requires i < |files|
    ensures exists b :: Concat(files) == Concat(files[..i]) + files[i] + b
    decreases |files|
  {
    var init, last := files[..|files| - 1], files[|files| - 1];
    if i < |init| {
      ConcatFrom(init, i);
      var b :| Concat(init) == Concat(init[..i]) + init[i] + b;
      assert init[..i] == files[..i];
      assert Concat(files) == Concat(files[..i]) + files[i] + (b + last);
    } else {
      assert Concat(files) == Concat(files[..i]) + files[i] + [];
    }
  }

  /** The program: if no change is broken off, every record comes out in its place, moved by exactly
      the recorded changes behind it in its epoch. */
  method Wtmpfix(files: seq<seq<Utmp>>) returns (out: seq<Utmp>, ok: bool)
    ensures ok <==> AllPaired(files)
    ensures ok ==> |out| == |Concat(files)|
    ensures ok ==> forall k :: 0 <= k < |out| ==>
                     out[k] == Written(Concat(files), k).(time := Adjusted(Concat(files), k))
  {
    hide Written;
    hide Adjusted;
    hide Concat;
    var fixer := new Fixer(Concat(files));
    out, ok := [], true;
    var i := 0;
    NoFiles();
    assert files[..0] == [];
    while i < |files|
      invariant 0 <= i <= |files| && ok && fixer.Valid() && fixer.log == Concat(files)
      invariant fixer.recno == |Concat(files[..i])|
      invariant forall j :: 0 <= j < i ==> Paired(files[j], 0, |files[j]|)
      invariant fresh(fixer) && fresh(fixer.repr)
    {
      ConcatNext(files, i);
      ok := fixer.Scanfile(fixer.recno + |files[i]|);
      if !ok {
        return;
      }
      i := i + 1;
    }
    assert files[..i] == files;
    out := fixer.SecondPass();
  }

  lemma NoFiles()
    ensures Concat([]) == []
  {
  }

  lemma ConcatNext(files: seq<seq<Utmp>>, i: nat)
    requires i < |files|
    ensures |Concat(files[..i + 1])| == |Concat(files[..i])| + |files[i]| <= |Concat(files)|
    ensures Paired(Concat(files), |Concat(files[..i])|, |Concat(files[..i])| + |files[i]|) ==
            Paired(files[i], 0, |files[i]|)
  {
    assert files[..i + 1][..i] == files[..i];
    ConcatFrom(files, i);
    var b :| Concat(files) == Concat(files[..i]) + files[i] + b;
    PairedWithin(Concat(files[..i]), files[i], b, 0);
  }

  lemma NotBoth(line: string)
    ensures !("run-level S" <= line && "run-level 2" <= line)
  {
    assert "run-level S" <= line ==> line[10] == 'S';
  }

  lemma PlainSteps(log: seq<Utmp>, k: nat)
    requires k < |log| && !log[k].type_.OldTime?
    ensures Intervals(log, k + 1) == Intervals(log, k) && (k == 0 ==> Intervals(log, k) == [])
    ensures Boot(log, k) == if k == 0 || log[k].type_.BootTime? then k else Boot(log, k - 1)
  {
  }

  lemma ChangeSteps(log: seq<Utmp>, k: nat)
    requires k + 1 < |log| && log[k].type_.OldTime? && log[k + 1].type_.NewTime?
    ensures Multi(log, k + 2) == Multi(log, k)
    ensures Intervals(log, k + 2) ==
            if Multi(log, k) > 0 then
              Intervals(log, k) + [Interval(Boot(log, k), k, log[k + 1].time - log[k].time)]
            else Intervals(log, k)
    ensures Boot(log, k + 1) == Boot(log, k) == if k == 0 then 0 else Boot(log, k - 1)
    ensures k == 0 ==> Intervals(log, k) == []
    ensures Multi(log, k) >= 0
  {
    assert Multi(log, k + 1) == Multi(log, k);
    assert !Recorded(log, k + 1);
  }
}
