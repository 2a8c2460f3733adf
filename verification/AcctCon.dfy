/** Connect-time accounting (usr/src/common/cmd/acct/acctcon.c): sessions on lines, from a login log in
    which the clock may have been changed. */
module AcctCon {
  import opened AcctUsers

  datatype Type = Empty | RunLvl | BootTime | OldTime | NewTime | InitProcess | LoginProcess
                | UserProcess | DeadProcess | Accounting

  datatype Utmp = Utmp(type_: Type, line: string, name: string, time: int)

  /** A line: who is on it (or nobody), since when, and what was counted. */
  datatype Tbuf = Tbuf(tline: string, tname: string, ttime: int, tlsess: int, tlon: int, tloff: int, ttotal: int)

  /** A finished session. */
  datatype Session = Session(line: nat, name: string, start: int, secs: int)

  datatype State = State(
    lines: seq<Tbuf>,
    datetime: int,            // old time if the date is being changed, otherwise 0
    ndates: int,
    lastime: int,
    ses: seq<Session>,        // the sessions put out
    bad: seq<nat>,            // the lines on which times went backward
    stopped: bool)            // more lines than fit

  const START := State([], 0, 0, 0, [], [], false)

  // ----- Specification ----------------------------------------------------------------------------

  function Fresh(line: string): Tbuf {
    Tbuf(line, "", 0, 0, 0, 0, 0)
  }

  /** The line after a record of it. */
  function Updated(t: Tbuf, ty: Type, name: string, time: int): Tbuf {
    if t.ttime > time then t.(ttime := time)
    else
      var secs := if t.tname != "" then time - t.ttime else 0;
      match ty
      case UserProcess =>
        t.(ttime := time, tlsess := t.tlsess + 1, ttotal := t.ttotal + secs,
           tlon := t.tlon + if t.tname == "" then 1 else 0, tname := name)
      case DeadProcess =>
        t.(ttime := time, tloff := t.tloff + 1, ttotal := t.ttotal + secs, tname := "")
      case _ => t.(ttime := time)
  }

  /** The session that the record ends, if any. */
  function Ended(t: Tbuf, i: nat, ty: Type, time: int): seq<Session> {
    if t.ttime <= time && t.tname != "" && (ty.UserProcess? || ty.DeadProcess?)
    then [Session(i, t.tname, t.ttime, time - t.ttime)] else []
  }

  function Verdict(t: Tbuf, i: nat, time: int): seq<nat> {
    if t.ttime > time then [i] else []
  }

  function Update(s: State, i: nat, ty: Type, name: string, time: int): State
    requires i < |s.lines|
  {
    var t := s.lines[i];
    s.(lines := s.lines[i := Updated(t, ty, name, time)], ses := s.ses + Ended(t, i, ty, time),
       bad := s.bad + Verdict(t, i, time))
  }

  /** The number of a line, or of the next free entry. */
  function Iline(lines: seq<Tbuf>, line: string): (i: nat)
    ensures i <= |lines| && (i < |lines| ==> lines[i].tline == line)
    ensures forall k :: 0 <= k < i ==> lines[k].tline != line
  {
    if lines == [] then 0
    else if Iline(lines[..|lines| - 1], line) < |lines| - 1 then Iline(lines[..|lines| - 1], line)
    else if lines[|lines| - 1].tline == line then |lines| - 1
    else |lines|
  }

  /** A reboot ends all sessions on the first n lines. */
  function Upall(s: State, n: nat, time: int): (r: State)
    requires n <= |s.lines|
    ensures |r.lines| == |s.lines|
  {
    if n == 0 then s else Update(Upall(s, n - 1, time), n - 1, DeadProcess, "", time)
  }

  function Shifted(lines: seq<Tbuf>, d: int): (r: seq<Tbuf>)
    ensures |r| == |lines| && forall i :: 0 <= i < |r| ==> r[i] == lines[i].(ttime := lines[i].ttime + d)
  {
    if lines == [] then []
    else
      var t := lines[|lines| - 1];
      Shifted(lines[..|lines| - 1], d) + [t.(ttime := t.ttime + d)]
  }

  /** A record of a process on a line. */
  function Process(s: State, r: Utmp): State {
    var i := Iline(s.lines, r.line);
    if i < |s.lines| then Update(s, i, r.type_, r.name, r.time)
    else if i >= A_TSIZE then s.(stopped := true)
    else Update(s.(lines := s.lines + [Fresh(r.line)]), i, r.type_, r.name, r.time)
  }

  function Step(s: State, r: Utmp): State {
    if s.stopped || r.line == "" then s
    else
      match r.type_
      case OldTime => s.(datetime := r.time)
      case NewTime =>
        if s.datetime == 0 then s
        else s.(lines := Shifted(s.lines, r.time - s.datetime), datetime := 0, ndates := s.ndates + 1)
      case BootTime => Upall(s, |s.lines|, r.time).(lastime := r.time)
      case RunLvl => s.(lastime := r.time)
      case Accounting => s.(lastime := r.time)
      case Empty => s
      case _ => Process(s, r)
  }

  function Run(s: State, log: seq<Utmp>): State
    decreases |log|
  {
    if log == [] then s else Run(Step(s, log[0]), log[1..])
  }

  // ----- Conservation -----------------------------------------------------------------------------

  /** The time of the sessions on line i, and their number. */
  function Secs(ses: seq<Session>, i: nat): int {
    if ses == [] then 0
    else Secs(ses[..|ses| - 1], i) + if ses[|ses| - 1].line == i then ses[|ses| - 1].secs else 0
  }

  function Count(ses: seq<Session>, i: nat): nat {
    if ses == [] then 0
    else Count(ses[..|ses| - 1], i) + if ses[|ses| - 1].line == i then 1 else 0
  }

  function AllSecs(ses: seq<Session>): int {
    if ses == [] then 0 else AllSecs(ses[..|ses| - 1]) + ses[|ses| - 1].secs
  }

  function Ttotals(lines: seq<Tbuf>): int {
    if lines == [] then 0 else Ttotals(lines[..|lines| - 1]) + lines[|lines| - 1].ttotal
  }

  lemma SecsSnoc(ses: seq<Session>, x: Session, i: nat)
    ensures Secs(ses + [x], i) == Secs(ses, i) + if x.line == i then x.secs else 0
    ensures Count(ses + [x], i) == Count(ses, i) + if x.line == i then 1 else 0
    ensures AllSecs(ses + [x]) == AllSecs(ses) + x.secs
  {
    assert (ses + [x])[..|ses|] == ses;
  }

  /** The counts of a line fit its sessions: its total is their time, and (if every log-on has a name)
      there is one session less than log-ons while somebody is on. */
  predicate LineFits(t: Tbuf, ses: seq<Session>, i: nat, named: bool) {
    && t.ttotal == Secs(ses, i)
    && (named ==> t.tlsess == Count(ses, i) + if t.tname != "" then 1 else 0)
  }

  predicate Fits(s: State, named: bool) {
    && (forall i :: 0 <= i < |s.lines| ==> LineFits(s.lines[i], s.ses, i, named))
    && (forall k :: 0 <= k < |s.ses| ==> s.ses[k].line < |s.lines| && s.ses[k].secs >= 0)
  }

  lemma {:induction false} NoSessions(ses: seq<Session>, i: nat)
    requires forall k :: 0 <= k < |ses| ==> ses[k].line != i
    ensures Secs(ses, i) == 0 && Count(ses, i) == 0
  {
    if ses != [] {
      NoSessions(ses[..|ses| - 1], i);
    }
  }

  lemma UpdateFits(s: State, i: nat, ty: Type, name: string, time: int, named: bool)
    requires i < |s.lines| && Fits(s, named) && (named && ty.UserProcess? ==> name != "")
    ensures Fits(Update(s, i, ty, name, time), named)
  {
    hide Secs;
    hide Count;
    var t, u := s.lines[i], Update(s, i, ty, name, time);
    var end := Ended(t, i, ty, time);
    if end == [] {
      assert s.ses + [] == s.ses;
    }
    forall k | 0 <= k < |u.lines|
      ensures LineFits(u.lines[k], u.ses, k, named)
    {
      assert LineFits(s.lines[k], s.ses, k, named);
      if end != [] {
        SecsSnoc(s.ses, end[0], k);
      }
    }
  }

  lemma {:induction false} UpallFits(s: State, n: nat, time: int, named: bool)
    requires n <= |s.lines| && Fits(s, named)
    ensures Fits(Upall(s, n, time), named)
  {
    hide Fits;
    if n > 0 {
      UpallFits(s, n - 1, time, named);
      UpdateFits(Upall(s, n - 1, time), n - 1, DeadProcess, "", time, named);
    }
  }

  lemma ShiftFits(s: State, d: int, named: bool)
    requires Fits(s, named)
    ensures Fits(s.(lines := Shifted(s.lines, d), datetime := 0, ndates := s.ndates + 1), named)
  {
    hide Secs;
    hide Count;
    hide Shifted;
    forall i | 0 <= i < |s.lines|
      ensures LineFits(Shifted(s.lines, d)[i], s.ses, i, named)
    {
      assert LineFits(s.lines[i], s.ses, i, named);
    }
  }

  lemma FreshFits(s: State, line: string, named: bool)
    requires Fits(s, named)
    ensures Fits(s.(lines := s.lines + [Fresh(line)]), named)
  {
    hide Secs;
    hide Count;
    var lines := s.lines + [Fresh(line)];
    NoSessions(s.ses, |s.lines|);
    forall i | 0 <= i < |lines|
      ensures LineFits(lines[i], s.ses, i, named)
    {
      if i < |s.lines| {
        assert LineFits(s.lines[i], s.ses, i, named);
      }
    }
  }

  lemma ProcessFits(s: State, r: Utmp, named: bool)
    requires Fits(s, named) && (named && r.type_.UserProcess? ==> r.name != "")
    ensures Fits(Process(s, r), named)
  {
    hide Fits;
    hide Update;
    FitsOnly(s, r, named);
    var i := Iline(s.lines, r.line);
    if i < |s.lines| {
      UpdateFits(s, i, r.type_, r.name, r.time, named);
    } else if i < A_TSIZE {
      FreshFits(s, r.line, named);
      UpdateFits(s.(lines := s.lines + [Fresh(r.line)]), i, r.type_, r.name, r.time, named);
    }
  }

  lemma StepFits(s: State, r: Utmp, named: bool)
    requires Fits(s, named) && (named && r.type_.UserProcess? ==> r.name != "")
    ensures Fits(Step(s, r), named)
  {
    hide Fits;
    hide Process;
    hide Upall;
    hide Shifted;
    if !s.stopped && r.line != "" {
      if r.type_.NewTime? {
        ShiftFits(s, r.time - s.datetime, named);
      } else if r.type_.BootTime? {
        UpallFits(s, |s.lines|, r.time, named);
      } else if r.type_ in {InitProcess, LoginProcess, UserProcess, DeadProcess} {
        ProcessFits(s, r, named);
      }
      FitsOnly(s, r, named);
    }
  }

  lemma FitsOnly(s: State, r: Utmp, named: bool)
    requires Fits(s, named)
    ensures Fits(s.(datetime := r.time), named) && Fits(s.(lastime := r.time), named)
    ensures Fits(s.(stopped := true), named)
    ensures Fits(Upall(s, |s.lines|, r.time), named) ==> Fits(Upall(s, |s.lines|, r.time).(lastime := r.time), named)
  {
  }

  lemma {:induction false} RunFits(s: State, log: seq<Utmp>, named: bool)
    requires Fits(s, named)
    requires named ==> forall k :: 0 <= k < |log| && log[k].type_.UserProcess? ==> log[k].name != ""
    ensures Fits(Run(s, log), named)
    decreases |log|
  {
    hide Fits;
    hide Step;
    if log != [] {
      StepFits(s, log[0], named);
      RunFits(Step(s, log[0]), log[1..], named);
    }
  }

  function SecsTo(ses: seq<Session>, n: nat): int {
    if n == 0 then 0 else SecsTo(ses, n - 1) + Secs(ses, n - 1)
  }

  lemma {:induction false} SecsToSnoc(ses: seq<Session>, x: Session, n: nat)
    ensures SecsTo(ses + [x], n) == SecsTo(ses, n) + if x.line < n then x.secs else 0
  {
    if n > 0 {
      SecsToSnoc(ses, x, n - 1);
      SecsSnoc(ses, x, n - 1);
    }
  }

  lemma {:induction false} AllLines(ses: seq<Session>, n: nat)
    requires forall k :: 0 <= k < |ses| ==> ses[k].line < n
    ensures SecsTo(ses, n) == AllSecs(ses)
  {
    if ses == [] {
      NoLines(n);
    } else {
      var init, x := ses[..|ses| - 1], ses[|ses| - 1];
      AllLines(init, n);
      SecsToSnoc(init, x, n);
      assert ses == init + [x];
    }
  }

  lemma {:induction false} NoLines(n: nat)
    ensures SecsTo([], n) == 0
  {
    if n > 0 {
      NoLines(n - 1);
    }
  }

  lemma {:induction false} TtotalsAre(lines: seq<Tbuf>, ses: seq<Session>, n: nat)
    requires n <= |lines| && forall i :: 0 <= i < |lines| ==> lines[i].ttotal == Secs(ses, i)
    ensures Ttotals(lines[..n]) == SecsTo(ses, n)
  {
    if n > 0 {
      TtotalsAre(lines, ses, n - 1);
      assert lines[..n][..n - 1] == lines[..n - 1];
    }
  }

  /** Whatever the log: on every line the sessions put out add up to its total time, over all lines
      too, and no session has a negative length. */
  lemma TimeConserved(log: seq<Utmp>)
    ensures var s := Run(START, log);
      && (forall i :: 0 <= i < |s.lines| ==> s.lines[i].ttotal == Secs(s.ses, i))
      && (forall k :: 0 <= k < |s.ses| ==> s.ses[k].line < |s.lines| && s.ses[k].secs >= 0)
      && AllSecs(s.ses) == Ttotals(s.lines)
  {
    RunFits(START, log, false);
    var s := Run(START, log);
    forall i | 0 <= i < |s.lines|
      ensures s.lines[i].ttotal == Secs(s.ses, i)
    {
      assert LineFits(s.lines[i], s.ses, i, false);
    }
    AllLines(s.ses, |s.lines|);
    TtotalsAre(s.lines, s.ses, |s.lines|);
    assert s.lines[..|s.lines|] == s.lines;
  }

  /** If every log-on has a name, a line has as many finished sessions as log-ons, less one while
      somebody is on. */
  lemma SessionsCounted(log: seq<Utmp>)
    requires forall k :: 0 <= k < |log| && log[k].type_.UserProcess? ==> log[k].name != ""
    ensures var s := Run(START, log);
      forall i :: 0 <= i < |s.lines| ==>
        Count(s.ses, i) == s.lines[i].tlsess - if s.lines[i].tname != "" then 1 else 0
  {
    RunFits(START, log, true);
    var s := Run(START, log);
    forall i | 0 <= i < |s.lines|
      ensures Count(s.ses, i) == s.lines[i].tlsess - if s.lines[i].tname != "" then 1 else 0
    {
      assert LineFits(s.lines[i], s.ses, i, true);
    }
  }

  // ----- What each record does --------------------------------------------------------------------

  lemma {:induction false} RunSnoc(s: State, log: seq<Utmp>, r: Utmp)
    ensures Run(s, log + [r]) == Step(Run(s, log), r)
    decreases |log|
  {
    hide Step;
    if log == [] {
      assert [r][1..] == [] && log + [r] == [r];
    } else {
      assert (log + [r])[1..] == log[1..] + [r];
      RunSnoc(Step(s, log[0]), log[1..], r);
    }
  }

  /** Somebody is on the line, and the record is not older than what the line has seen. */
  predicate EndsAt(t: Tbuf, time: int) {
    t.tname != "" && t.ttime <= time
  }

  lemma {:induction false} UpallLines(s: State, n: nat, time: int)
    requires n <= |s.lines|
    ensures forall i :: 0 <= i < |s.lines| ==>
              var t := s.lines[i];
              Upall(s, n, time).lines[i] ==
              if i >= n then t
              else if t.ttime > time then t.(ttime := time)
              else t.(ttime := time, tloff := t.tloff + 1,
                      ttotal := t.ttotal + (if t.tname != "" then time - t.ttime else 0), tname := "")
    ensures var u := Upall(s, n, time);
      u == s.(lines := u.lines, ses := u.ses, bad := u.bad)
  {
    if n > 0 {
      UpallLines(s, n - 1, time);
    }
  }

  /** From the sessions before to those after, one is put out for each of the first n lines with somebody
      on it, in order. */
  ghost predicate LogOffs(lines: seq<Tbuf>, before: seq<Session>, after: seq<Session>, n: nat, time: int) {
    && n <= |lines| && before <= after
    && (forall k :: |before| <= k < |after| ==>
          var x := after[k];
          x.line < n && EndsAt(lines[x.line], time) &&
          x == Session(x.line, lines[x.line].tname, lines[x.line].ttime, time - lines[x.line].ttime))
    && (forall k, l :: |before| <= k < l < |after| ==> after[k].line < after[l].line)
    && (forall i :: 0 <= i < n && EndsAt(lines[i], time) ==>
          exists k :: |before| <= k < |after| && after[k].line == i)
  }

  lemma LogOffNext(lines: seq<Tbuf>, before: seq<Session>, after: seq<Session>, n: nat, time: int)
    requires n < |lines| && LogOffs(lines, before, after, n, time) && EndsAt(lines[n], time)
    ensures LogOffs(lines, before, after + [Session(n, lines[n].tname, lines[n].ttime, time - lines[n].ttime)],
                    n + 1, time)
  {
    hide EndsAt;
    var more := after + [Session(n, lines[n].tname, lines[n].ttime, time - lines[n].ttime)];
    forall i | 0 <= i < n + 1 && EndsAt(lines[i], time)
      ensures exists k :: |before| <= k < |more| && more[k].line == i
    {
      if i < n {
        var k :| |before| <= k < |after| && after[k].line == i;
        assert more[k].line == i;
      } else {
        assert more[|after|].line == i;
      }
    }
  }

  lemma NoLogOff(lines: seq<Tbuf>, before: seq<Session>, after: seq<Session>, n: nat, time: int)
    requires n < |lines| && LogOffs(lines, before, after, n, time) && !EndsAt(lines[n], time)
    ensures LogOffs(lines, before, after + [], n + 1, time)
  {
    hide EndsAt;
    assert after + [] == after;
  }

  lemma {:induction false} UpallSessions(s: State, n: nat, time: int)
    requires n <= |s.lines|
    ensures LogOffs(s.lines, s.ses, Upall(s, n, time).ses, n, time)
  {
    hide *;
    if n == 0 {
      NobodyYet(s, time);
    } else {
      UpallSessions(s, n - 1, time);
      UpallAt(s, n, time);
      UpallStep(s, n, time);
      if EndsAt(s.lines[n - 1], time) {
        LogOffNext(s.lines, s.ses, Upall(s, n - 1, time).ses, n - 1, time);
      } else {
        NoLogOff(s.lines, s.ses, Upall(s, n - 1, time).ses, n - 1, time);
      }
    }
  }

  lemma NobodyYet(s: State, time: int)
    ensures LogOffs(s.lines, s.ses, Upall(s, 0, time).ses, 0, time)
  {
  }

  lemma UpallAt(s: State, n: nat, time: int)
    requires 0 < n <= |s.lines|
    ensures Upall(s, n - 1, time).lines[n - 1] == s.lines[n - 1]
  {
    UpallLines(s, n - 1, time);
  }

  lemma UpallStep(s: State, n: nat, time: int)
    requires 0 < n <= |s.lines|
    ensures var v := Upall(s, n - 1, time);
      var t := v.lines[n - 1];
      Upall(s, n, time).ses ==
      v.ses + if EndsAt(t, time) then [Session(n - 1, t.tname, t.ttime, time - t.ttime)] else []
  {
  }

  /** A reboot logs everybody off whose line has seen nothing later, and puts out one session for each
      of them, in order of the lines; the times of all lines are that of the reboot. */
  lemma RebootEndsSessions(log: seq<Utmp>, r: Utmp)
    requires r.type_.BootTime? && r.line != "" && !Run(START, log).stopped
    ensures var s, u := Run(START, log), Run(START, log + [r]);
      && |u.lines| == |s.lines|
      && (forall i :: 0 <= i < |s.lines| ==>
            var t := s.lines[i];
            u.lines[i] == if t.ttime > r.time then t.(ttime := r.time)
                          else t.(ttime := r.time, tloff := t.tloff + 1, tname := "",
                                  ttotal := t.ttotal + if t.tname != "" then r.time - t.ttime else 0))
      && s.ses <= u.ses
      && (forall k :: |s.ses| <= k < |u.ses| ==>
            var x := u.ses[k];
            x.line < |s.lines| && s.lines[x.line].tname != "" && s.lines[x.line].ttime <= r.time &&
            x == Session(x.line, s.lines[x.line].tname, s.lines[x.line].ttime, r.time - s.lines[x.line].ttime))
      && (forall k, l :: |s.ses| <= k < l < |u.ses| ==> u.ses[k].line < u.ses[l].line)
      && (forall i :: 0 <= i < |s.lines| && s.lines[i].tname != "" && s.lines[i].ttime <= r.time ==>
            exists k :: |s.ses| <= k < |u.ses| && u.ses[k].line == i)
      && u.lastime == r.time && u.datetime == s.datetime && !u.stopped
  {
    RunSnoc(START, log, r);
    var s := Run(START, log);
    UpallLines(s, |s.lines|, r.time);
    UpallSessions(s, |s.lines|, r.time);
    hide Upall;
    hide Run;
    forall i | 0 <= i < |s.lines| && s.lines[i].tname != "" && s.lines[i].ttime <= r.time
      ensures exists k :: |s.ses| <= k < |Run(START, log + [r]).ses| && Run(START, log + [r]).ses[k].line == i
    {
      assert EndsAt(s.lines[i], r.time);
    }
  }

  /** A log-on or log-off on a known line ends the session of whoever is on it, unless the line has seen
      a later time; a log-on puts the new name there. */
  lemma ProcessEndsSession(log: seq<Utmp>, r: Utmp, i: nat)
    requires (r.type_.UserProcess? || r.type_.DeadProcess?) && r.line != "" && !Run(START, log).stopped
    requires i < |Run(START, log).lines| && Run(START, log).lines[i].tline == r.line
    requires forall k :: 0 <= k < i ==> Run(START, log).lines[k].tline != r.line
    ensures var s, u := Run(START, log), Run(START, log + [r]);
      && |u.lines| == |s.lines| && (forall k :: 0 <= k < |s.lines| && k != i ==> u.lines[k] == s.lines[k])
      && var t, v := s.lines[i], u.lines[i];
      && v.ttime == r.time && v.tline == t.tline
      && (t.ttime > r.time ==> v == t.(ttime := r.time) && u.ses == s.ses && u.bad == s.bad + [i])
      && (t.ttime <= r.time ==>
            && v.tname == (if r.type_.UserProcess? then r.name else "") && u.bad == s.bad
            && u.ses == s.ses + (if t.tname != "" then [Session(i, t.tname, t.ttime, r.time - t.ttime)] else [])
            && v.ttotal == t.ttotal + (if t.tname != "" then r.time - t.ttime else 0)
            && v.tlsess == t.tlsess + (if r.type_.UserProcess? then 1 else 0)
            && v.tlon == t.tlon + (if r.type_.UserProcess? && t.tname == "" then 1 else 0)
            && v.tloff == t.tloff + (if r.type_.DeadProcess? then 1 else 0))
      && !u.stopped && u.datetime == s.datetime && u.lastime == s.lastime
  {
    RunSnoc(START, log, r);
    var s := Run(START, log);
    assert Iline(s.lines, r.line) == i;
    hide Iline;
    hide Run;
  }

  /** Other records of a process on a known line only say that the line was seen. */
  lemma NobodyMoves(log: seq<Utmp>, r: Utmp, i: nat)
    requires (r.type_.InitProcess? || r.type_.LoginProcess?) && r.line != "" && !Run(START, log).stopped
    requires i < |Run(START, log).lines| && Run(START, log).lines[i].tline == r.line
    requires forall k :: 0 <= k < i ==> Run(START, log).lines[k].tline != r.line
    ensures var s, u := Run(START, log), Run(START, log + [r]);
      u == s.(lines := s.lines[i := s.lines[i].(ttime := r.time)],
              bad := if s.lines[i].ttime > r.time then s.bad + [i] else s.bad)
  {
    RunSnoc(START, log, r);
    var s := Run(START, log);
    assert Iline(s.lines, r.line) == i;
    hide Iline;
    hide Run;
    assert s.ses + [] == s.ses && s.bad + [] == s.bad;
  }

  /** On a line not yet known a log-on puts the name there, if there are fewer than 1001 lines; with more
      the program stops.  Other records of a process make the line known. */
  lemma FirstOnLine(log: seq<Utmp>, r: Utmp)
    requires r.type_ in {UserProcess, DeadProcess, InitProcess, LoginProcess} && r.line != "" && r.time >= 0
    requires !Run(START, log).stopped
    requires forall k :: 0 <= k < |Run(START, log).lines| ==> Run(START, log).lines[k].tline != r.line
    ensures var s, u := Run(START, log), Run(START, log + [r]);
      var on, off := if r.type_.UserProcess? then 1 else 0, if r.type_.DeadProcess? then 1 else 0;
      if |s.lines| >= 1001 then u == s.(stopped := true)
      else u == s.(lines := s.lines + [Tbuf(r.line, if on == 1 then r.name else "", r.time, on, on, off, 0)])
  {
    RunSnoc(START, log, r);
    var s := Run(START, log);
    assert Iline(s.lines, r.line) == |s.lines|;
    hide Iline;
    hide Run;
    var f := Fresh(r.line);
    assert (s.lines + [f])[|s.lines| := Updated(f, r.type_, r.name, r.time)] ==
           s.lines + [Updated(f, r.type_, r.name, r.time)];
    assert s.ses + [] == s.ses && s.bad + [] == s.bad;
  }

  /** A change of the clock moves what all lines have seen by its length and ends no session; other
      records without a process touch no line. */
  lemma OtherRecords(log: seq<Utmp>, r: Utmp)
    requires !Run(START, log).stopped
    ensures var s, u := Run(START, log), Run(START, log + [r]);
      && (r.line == "" || r.type_.Empty? ==> u == s)
      && (r.line != "" && r.type_.OldTime? ==> u == s.(datetime := r.time))
      && (r.line != "" && r.type_.NewTime? && s.datetime == 0 ==> u == s)
      && (r.line != "" && r.type_.NewTime? && s.datetime != 0 ==>
            && |u.lines| == |s.lines| && u == s.(lines := u.lines, datetime := 0, ndates := s.ndates + 1)
            && forall i :: 0 <= i < |s.lines| ==>
                 u.lines[i] == s.lines[i].(ttime := s.lines[i].ttime + (r.time - s.datetime)))
      && (r.line != "" && (r.type_.RunLvl? || r.type_.Accounting?) ==> u == s.(lastime := r.time))
  {
    RunSnoc(START, log, r);
    hide Run;
    hide Shifted;
    hide Upall;
    hide Process;
  }

  // ----- Changes of the clock ---------------------------------------------------------------------

  /** The record starts a change of the clock. */
  predicate Old(r: Utmp) {
    r.type_.OldTime? && r.line != ""
  }

  predicate New(r: Utmp) {
    r.type_.NewTime? && r.line != ""
  }

  /** Changes come as adjacent pairs, and not at time zero. */
  predicate PairsOk(log: seq<Utmp>)
    decreases |log|
  {
    log == [] ||
    if Old(log[0]) then |log| > 1 && New(log[1]) && log[0].time != 0 && PairsOk(log[2..])
    else PairsOk(log[1..])
  }

  /** The log in one clock, with the changes taken out: off is how far the clock of the log is ahead. */
  function Rebase(log: seq<Utmp>, off: int): seq<Utmp>
    decreases |log|
  {
    if log == [] then []
    else if Old(log[0]) && |log| > 1 then Rebase(log[2..], off + log[1].time - log[0].time)
    else [log[0].(time := log[0].time - off)] + Rebase(log[1..], off)
  }

  predicate SameSession(x: Session, y: Session) {
    x.line == y.line && x.name == y.name && x.secs == y.secs
  }

  predicate SameSessions(a: seq<Session>, b: seq<Session>) {
    |a| == |b| && forall k :: 0 <= k < |a| ==> SameSession(a[k], b[k])
  }

  predicate SameLines(a: seq<Tbuf>, b: seq<Tbuf>, off: int) {
    |a| == |b| && forall i :: 0 <= i < |a| ==> a[i] == b[i].(ttime := b[i].ttime + off)
  }

  /** State a, in the clock of the log, and state b, in one clock, differ by the offset alone. */
  predicate Sim(a: State, b: State, off: int) {
    && SameLines(a.lines, b.lines, off) && SameSessions(a.ses, b.ses)
    && a.bad == b.bad && a.stopped == b.stopped && a.datetime == 0 && b.datetime == 0
  }

  lemma SimUpdate(a: State, b: State, off: int, i: nat, ty: Type, name: string, time: int)
    requires Sim(a, b, off) && i < |a.lines|
    ensures Sim(Update(a, i, ty, name, time), Update(b, i, ty, name, time - off), off)
  {
  }

  lemma SimFresh(a: State, b: State, off: int, line: string, ty: Type, name: string, time: int)
    requires Sim(a, b, off) && time >= 0 && time - off >= 0
    ensures Sim(Update(a.(lines := a.lines + [Fresh(line)]), |a.lines|, ty, name, time),
                Update(b.(lines := b.lines + [Fresh(line)]), |b.lines|, ty, name, time - off), off)
  {
    assert a.ses + [] == a.ses && b.ses + [] == b.ses;
  }

  lemma {:induction false} SimUpall(a: State, b: State, off: int, n: nat, time: int)
    requires Sim(a, b, off) && n <= |a.lines|
    ensures Sim(Upall(a, n, time), Upall(b, n, time - off), off)
  {
    hide Update;
    if n > 0 {
      SimUpall(a, b, off, n - 1, time);
      SimUpdate(Upall(a, n - 1, time), Upall(b, n - 1, time - off), off, n - 1, DeadProcess, "", time);
    }
  }

  lemma {:induction false} SimIline(a: seq<Tbuf>, b: seq<Tbuf>, off: int, line: string)
    requires SameLines(a, b, off)
    ensures Iline(a, line) == Iline(b, line)
  {
    if a != [] {
      SimIline(a[..|a| - 1], b[..|b| - 1], off, line);
    }
  }

  lemma SimProcess(a: State, b: State, off: int, r: Utmp)
    requires Sim(a, b, off) && r.time >= 0 && r.time - off >= 0
    ensures Sim(Process(a, r), Process(b, r.(time := r.time - off)), off)
  {
    hide Sim;
    hide Update;
    hide Iline;
    hide Fresh;
    SimIlines(a, b, off, r.line);
    var i := Iline(a.lines, r.line);
    if i < |a.lines| {
      SimUpdate(a, b, off, i, r.type_, r.name, r.time);
    } else if i >= A_TSIZE {
      SimStopped(a, b, off);
    } else {
      SimFresh(a, b, off, r.line, r.type_, r.name, r.time);
    }
  }

  lemma SimIlines(a: State, b: State, off: int, line: string)
    requires Sim(a, b, off)
    ensures Iline(a.lines, line) == Iline(b.lines, line) && |a.lines| == |b.lines|
  {
    SimIline(a.lines, b.lines, off, line);
  }

  lemma SimStopped(a: State, b: State, off: int)
    requires Sim(a, b, off)
    ensures Sim(a.(stopped := true), b.(stopped := true), off)
  {
  }

  lemma SimStep(a: State, b: State, off: int, r: Utmp)
    requires Sim(a, b, off) && !Old(r) && r.time >= 0 && r.time - off >= 0
    ensures Sim(Step(a, r), Step(b, r.(time := r.time - off)), off)
  {
    assert |a.lines| == |b.lines|;
    hide Process;
    hide Upall;
    hide SameLines;
    hide SameSessions;
    SimProcess(a, b, off, r);
    SimUpall(a, b, off, |a.lines|, r.time);
  }

  lemma SimPair(a: State, b: State, off: int, x: Utmp, y: Utmp)
    requires Sim(a, b, off) && Old(x) && New(y) && x.time != 0
    ensures a.stopped ==> Sim(Step(Step(a, x), y), b, off)
    ensures !a.stopped ==> Sim(Step(Step(a, x), y), b, off + y.time - x.time)
  {
  }

  /** Same sessions but for their starting times, same counters, totals and verdicts. */
  predicate Alike(a: State, b: State) {
    && |a.lines| == |b.lines| && SameSessions(a.ses, b.ses) && a.bad == b.bad && a.stopped == b.stopped
    && forall i :: 0 <= i < |a.lines| ==> a.lines[i] == b.lines[i].(ttime := a.lines[i].ttime)
  }

  lemma {:induction false} RunStopped(s: State, log: seq<Utmp>)
    requires s.stopped
    ensures Run(s, log) == s
    decreases |log|
  {
    if log != [] {
      RunStopped(s, log[1..]);
    }
  }

  predicate NoNegative(log: seq<Utmp>) {
    forall k :: 0 <= k < |log| ==> log[k].time >= 0
  }

  lemma {:induction false} SimRun(a: State, b: State, off: int, log: seq<Utmp>)
    requires Sim(a, b, off) && PairsOk(log) && NoNegative(log) && NoNegative(Rebase(log, off))
    ensures Alike(Run(a, log), Run(b, Rebase(log, off)))
    decreases |log|
  {
    hide Sim;
    hide Step;
    SimAlike(a, b, off);
    StoppedAlike(a, b, off);
    if a.stopped {
      RunStopped(a, log);
      RunStopped(b, Rebase(log, off));
    } else if log != [] {
      if Old(log[0]) {
        SimPair(a, b, off, log[0], log[1]);
        SimRun(Step(Step(a, log[0]), log[1]), b, off + log[1].time - log[0].time, log[2..]);
        assert log[1..][1..] == log[2..] && log[1..][0] == log[1];
      } else {
        var r, rest := log[0].(time := log[0].time - off), Rebase(log[1..], off);
        assert Rebase(log, off) == [r] + rest && ([r] + rest)[0] == r && ([r] + rest)[1..] == rest;
        assert forall k :: 0 <= k < |rest| ==> rest[k] == Rebase(log, off)[k + 1];
        SimStep(a, b, off, log[0]);
        SimRun(Step(a, log[0]), Step(b, r), off, log[1..]);
      }
    }
  }

  lemma SimAlike(a: State, b: State, off: int)
    requires Sim(a, b, off)
    ensures Alike(a, b)
  {
  }

  lemma StoppedAlike(a: State, b: State, off: int)
    requires Sim(a, b, off)
    ensures a.stopped == b.stopped
  {
  }

  /** Changes of the clock make no difference to connect time: the sessions, their lengths, the counts
      and totals of the lines and the complaints about times are those of the same log in one clock. */
  lemma ClockChangesCancel(log: seq<Utmp>)
    requires PairsOk(log) && NoNegative(log) && NoNegative(Rebase(log, 0))
    ensures Alike(Run(START, log), Run(START, Rebase(log, 0)))
  {
    SimRun(START, START, 0, log);
  }

  // ----- The program ------------------------------------------------------------------------------

  /** How a stretch of time divides into prime and nonprime time. */
  type Split = (int, int) -> (int, int)

  ghost predicate SplitOk(split: Split) {
    forall start, secs {:trigger split(start, secs)} ::
      secs >= 0 ==> split(start, secs).0 + split(start, secs).1 == secs
  }

  /** The charge for a session. */
  function ChargeFor(x: Session, uidOf: string -> int, split: Split): Charge {
    Charge(uidOf(x.name), x.name, split(x.start, x.secs).0, split(x.start, x.secs).1)
  }

  function ChargesFor(ses: seq<Session>, uidOf: string -> int, split: Split): (r: seq<Charge>)
    ensures |r| == |ses|
  {
    if ses == [] then []
    else ChargesFor(ses[..|ses| - 1], uidOf, split) + [ChargeFor(ses[|ses| - 1], uidOf, split)]
  }

  lemma ChargesSnoc(ses: seq<Session>, x: Session, uidOf: string -> int, split: Split)
    ensures ChargesFor(ses + [x], uidOf, split) == ChargesFor(ses, uidOf, split) + [ChargeFor(x, uidOf, split)]
  {
    assert (ses + [x])[..|ses|] == ses;
  }

  /** The sum of g over the sessions of a user. */
  function SumBy(ses: seq<Session>, f: Session -> bool, g: Session -> int): int {
    if ses == [] then 0
    else SumBy(ses[..|ses| - 1], f, g) + if f(ses[|ses| - 1]) then g(ses[|ses| - 1]) else 0
  }

  /** What a user is charged with: the prime time and the nonprime time of the sessions under names with
      that uid, and their number. */
  lemma {:induction false} ChargedIs(ses: seq<Session>, uidOf: string -> int, split: Split, u: int)
    ensures Charged(ChargesFor(ses, uidOf, split), u) ==
            (SumBy(ses, (x: Session) => uidOf(x.name) == u, (x: Session) => split(x.start, x.secs).0),
             SumBy(ses, (x: Session) => uidOf(x.name) == u, (x: Session) => split(x.start, x.secs).1),
             SumBy(ses, (x: Session) => uidOf(x.name) == u, (x: Session) => 1))
  {
    if ses != [] {
      var init, x := ses[..|ses| - 1], ses[|ses| - 1];
      ChargedIs(init, uidOf, split, u);
      ChargedSnoc(ChargesFor(init, uidOf, split), ChargeFor(x, uidOf, split), u);
    }
  }

  class Acct {
    const tbuf: array<Tbuf>
    const users: Users
    const uidOf: string -> int
    const split: Split
    var tsize: int                 // number of the last line, or -1
    var datetime: int
    var ndates: int
    var lastime: int
    var stopped: bool
    ghost var ses: seq<Session>
    ghost var bad: seq<nat>
    ghost var lost: bool           // a user found the table full

    /** The user table holds all connect time, and exactly that of every user unless there were more
        users than it has room for. */
    ghost predicate UsersOk()
      reads `ses, `lost, users.ctab, users`m, users`at
    {
      && users.Valid() && Total(users.ctab[..], A_TSIZE) == AllSecs(ses)
      && (!lost ==> Exact(users.m, ChargesFor(ses, uidOf, split)))
      && (lost ==> |Uids(ChargesFor(ses, uidOf, split))| > A_TSIZE)
      && users.m.Keys <= Uids(ChargesFor(ses, uidOf, split))
    }

    ghost predicate Valid()
      reads this, tbuf, users.ctab, users`m, users`at
      ensures Valid() ==> tbuf.Length == A_TSIZE && -1 <= tsize < A_TSIZE
    {
      tbuf.Length == A_TSIZE && -1 <= tsize < A_TSIZE && SplitOk(split) && UsersOk()
    }

    ghost function View(): State
      requires tbuf.Length == A_TSIZE && -1 <= tsize < A_TSIZE
      reads this, tbuf
    {
      State(tbuf[..tsize + 1], datetime, ndates, lastime, ses, bad, stopped)
    }

    constructor (uidOf: string -> int, split: Split)
      requires SplitOk(split)
      ensures Valid() && View() == START && this.uidOf == uidOf && this.split == split
      ensures fresh(tbuf) && fresh(users) && fresh(users.ctab) && !lost
    {
      this.uidOf, this.split := uidOf, split;
      tbuf := new Tbuf[A_TSIZE](_ => Fresh(""));
      users := new Users();
      tsize, datetime, ndates, lastime, stopped, ses, bad, lost := -1, 0, 0, 0, false, [], [], false;
      new;
      TotalZero(users.ctab[..], A_TSIZE);
    }

    /** Put out a session. */
    method Emit(x: Session)
      requires UsersOk() && SplitOk(split) && x.secs >= 0
      modifies `ses, `lost, users.ctab, users`m, users`at
      ensures UsersOk() && ses == old(ses) + [x]
    {
      hide Charged;
      hide Exact;
      hide Home;
      hide Users.Valid;
      hide Users.Full;
      hide Users.Reached;
      hide Users.UidOk;
      hide Users.SlotOk;
      hide Add;
      hide Known;
      hide AllSecs;
      hide Total;
      hide ChargesFor;
      var c := ChargeFor(x, uidOf, split);
      ghost var cs := ChargesFor(ses, uidOf, split);
      ChargesSnoc(ses, x, uidOf, split);
      SecsSnoc(ses, x, x.line);
      UidsSnoc(cs, c);
      hide Uids;
      Subset(Uids(cs), Uids(cs) + {c.uid});
      if users.Full(c.uid) {
        users.FullIsMany(c.uid, Uids(cs) + {c.uid});
      }
      if !lost {
        ExactNext(users.m, cs, c);
      }
      lost := lost || users.Full(c.uid);
      var full;
      ghost var slot;
      full, slot := users.Enter(c);
      ses := ses + [x];
    }

    /** A log-on at `time`, behind the time `told` of the line so far. */
    method LogOn(i: nat, was: Tbuf, told: int, name: string, time: int) returns (t: Tbuf)
      requires UsersOk() && SplitOk(split) && told <= time
      modifies `ses, `lost, users.ctab, users`m, users`at
      ensures UsersOk() && ses == old(ses) + Ended(was.(ttime := told), i, UserProcess, time)
      ensures t == Updated(was.(ttime := told), UserProcess, name, time).(ttime := was.ttime)
    {
      hide UsersOk;
      hide SplitOk;
      t := was.(tlsess := was.tlsess + 1);
      if t.tname != "" {
        Emit(Session(i, t.tname, told, time - told));
        t := t.(ttotal := t.ttotal + (time - told));
      } else {
        t := t.(tlon := t.tlon + 1);
      }
      t := t.(tname := name);
    }

    /** A log-off. */
    method LogOff(i: nat, was: Tbuf, told: int, time: int) returns (t: Tbuf)
      requires UsersOk() && SplitOk(split) && told <= time
      modifies `ses, `lost, users.ctab, users`m, users`at
      ensures UsersOk() && ses == old(ses) + Ended(was.(ttime := told), i, DeadProcess, time)
      ensures t == Updated(was.(ttime := told), DeadProcess, "", time).(ttime := was.ttime)
    {
      hide UsersOk;
      hide SplitOk;
      t := was.(tloff := was.tloff + 1);
      if t.tname != "" {
        Emit(Session(i, t.tname, told, time - told));
        t := t.(ttotal := t.ttotal + (time - told), tname := "");
      }
    }

    /** Update a line, putting out the session that ends. */
    method UpdateLine(i: nat, ty: Type, name: string, time: int)
      requires Valid() && i <= tsize
      modifies tbuf, `ses, `bad, `lost, users.ctab, users`m, users`at
      ensures Valid() && View() == Update(old(View()), i, ty, name, time)
    {
      hide UsersOk;
      hide SplitOk;
      ghost var lines, sessions := tbuf[..tsize + 1], ses;
      var t := tbuf[i];
      var told := t.ttime;
      t := t.(ttime := time);
      assert lines[i] == t.(ttime := told);
      if told > time {
        bad := bad + [i];
      } else {
        match ty {
          case UserProcess =>
            t := LogOn(i, t, told, name, time);
          case DeadProcess =>
            t := LogOff(i, t, told, time);
          case _ =>
        }
      }
      assert t == Updated(lines[i], ty, name, time);
      assert ses == sessions + Ended(lines[i], i, ty, time);
      hide Updated;
      hide Ended;
      tbuf[i] := t;
      assert tbuf[..tsize + 1] == lines[i := t];
    }

    /** The number of the line of a record, entering the line if it is new; too many lines end the
        program. */
    method FindLine(line: string) returns (i: nat)
      requires Valid() && !stopped
      modifies tbuf, `tsize, `stopped
      ensures Valid() && i == Iline(old(View()).lines, line)
      ensures i < |old(View()).lines| ==> View() == old(View())
      ensures |old(View()).lines| <= i < A_TSIZE ==> View() == old(View()).(lines := old(View()).lines + [Fresh(line)])
      ensures i >= A_TSIZE ==> View() == old(View()).(stopped := true)
      ensures !stopped ==> i <= tsize
    {
      hide UsersOk;
      hide SplitOk;
      i := 0;
      while i <= tsize
        invariant 0 <= i <= tsize + 1 && forall k :: 0 <= k < i ==> tbuf[k].tline != line
      {
        if tbuf[i].tline == line {
          IlineIs(tbuf[..tsize + 1], line, i);
          return;
        }
        i := i + 1;
      }
      IlineIs(tbuf[..tsize + 1], line, i);
      if tsize + 1 >= A_TSIZE {
        stopped := true;
        return;
      }
      tsize := tsize + 1;
      tbuf[tsize] := Fresh(line);
    }

    /** A reboot: everybody is logged off. */
    method LogOffAll(time: int)
      requires Valid()
      modifies tbuf, `ses, `bad, `lost, users.ctab, users`m, users`at
      ensures Valid() && View() == Upall(old(View()), |old(View()).lines|, time)
    {
      hide UsersOk;
      hide SplitOk;
      hide Update;
      var i := 0;
      while i <= tsize
        invariant 0 <= i <= tsize + 1 && Valid() && tsize == old(tsize)
        invariant View() == Upall(old(View()), i, time)
      {
        UpdateLine(i, DeadProcess, "", time);
        i := i + 1;
      }
    }

    /** The clock was changed: move the times of all lines. */
    method ShiftAll(d: int)
      requires Valid()
      modifies tbuf
      ensures Valid() && View() == old(View()).(lines := Shifted(old(View()).lines, d))
    {
      hide UsersOk;
      hide SplitOk;
      var i := 0;
      while i <= tsize
        invariant 0 <= i <= tsize + 1 && UsersOk() && SplitOk(split)
        invariant forall k :: 0 <= k < i ==> tbuf[k] == old(tbuf[k]).(ttime := old(tbuf[k]).ttime + d)
        invariant forall k :: i <= k < A_TSIZE ==> tbuf[k] == old(tbuf[k])
      {
        tbuf[i] := tbuf[i].(ttime := tbuf[i].ttime + d);
        i := i + 1;
      }
    }

    /** One record of the log. */
    method Loop(wb: Utmp)
      requires Valid()
      modifies this, tbuf, users.ctab, users`m, users`at
      ensures Valid() && View() == Step(old(View()), wb)
    {
      hide UsersOk;
      hide SplitOk;
      hide Update;
      hide Upall;
      hide Iline;
      hide Shifted;
      if stopped || wb.line == "" {
        return;
      }
      match wb.type_ {
        case OldTime =>
          datetime := wb.time;
        case NewTime =>
          if datetime != 0 {
            ShiftAll(wb.time - datetime);
            datetime := 0;
            ndates := ndates + 1;
          }
        case BootTime =>
          LogOffAll(wb.time);
          lastime := wb.time;
        case RunLvl =>
          lastime := wb.time;
        case Accounting =>
          lastime := wb.time;
        case Empty =>
        case _ =>
          var i := FindLine(wb.line);
          if !stopped {
            UpdateLine(i, wb.type_, wb.name, wb.time);
          }
      }
    }
  }

  lemma {:induction false} IlineIs(lines: seq<Tbuf>, line: string, i: nat)
    requires i <= |lines| && (i < |lines| ==> lines[i].tline == line)
    requires forall k :: 0 <= k < i ==> lines[k].tline != line
    ensures Iline(lines, line) == i
  {
    if lines != [] && i < |lines| {
      IlineIs(lines[..|lines| - 1], line, i);
    } else if lines != [] {
      IlineIs(lines[..|lines| - 1], line, i - 1);
    }
  }

  /** The program.  Unless it stops for too many lines, the times of both kinds over the table of users
      add up to the times of all lines, and each user is charged with exactly the sessions of that
      user, if the users do not exceed the table. */
  method Acctcon(log: seq<Utmp>, uidOf: string -> int, split: Split)
    returns (lines: seq<Tbuf>, table: seq<Ctab>, ok: bool)
    requires SplitOk(split)
    ensures ok <==> !Run(START, log).stopped
    ensures lines == Run(START, log).lines && |table| == A_TSIZE
    ensures Total(table, A_TSIZE) == Ttotals(lines)
    ensures var cs := ChargesFor(Run(START, log).ses, uidOf, split);
      |Uids(cs)| <= 1001 ==>
        && (forall i :: 0 <= i < A_TSIZE && table[i].sess > 0 ==>
              (table[i].con0, table[i].con1, table[i].sess) == Charged(cs, table[i].uid))
        && (forall u :: u in Uids(cs) ==> exists i :: 0 <= i < A_TSIZE && table[i].sess > 0 && table[i].uid == u)
  {
    hide Step;
    hide Total;
    hide Ttotals;
    hide Uids;
    hide Charged;
    hide Exact;
    hide Users.UidOk;
    hide Users.SlotOk;
    var acct := new Acct(uidOf, split);
    var i := 0;
    assert log[..0] == [];
    while i < |log|
      invariant 0 <= i <= |log| && acct.Valid() && acct.View() == Run(START, log[..i])
      invariant fresh(acct) && fresh(acct.tbuf) && fresh(acct.users) && fresh(acct.users.ctab)
      invariant acct.uidOf == uidOf && acct.split == split
    {
      RunSnoc(START, log[..i], log[i]);
      assert log[..i + 1] == log[..i] + [log[i]];
      acct.Loop(log[i]);
      i := i + 1;
    }
    assert log[..i] == log;
    TimeConserved(log);
    ok := !acct.stopped;
    lines := acct.tbuf[..acct.tsize + 1];
    table := acct.users.ctab[..];
    TableExact(acct.users, ChargesFor(acct.ses, uidOf, split));
  }

  lemma TableExact(t: Users, cs: seq<Charge>)
    requires t.Valid()
    ensures Exact(t.m, cs) ==>
              forall i :: 0 <= i < A_TSIZE && t.ctab[i].sess > 0 ==>
                (t.ctab[i].con0, t.ctab[i].con1, t.ctab[i].sess) == Charged(cs, t.ctab[i].uid)
    ensures Exact(t.m, cs) ==>
              forall u :: u in Uids(cs) ==> exists i :: 0 <= i < A_TSIZE && t.ctab[i].sess > 0 && t.ctab[i].uid == u
  {
    hide Charged;
    hide Uids;
    if Exact(t.m, cs) {
      forall i | 0 <= i < A_TSIZE && t.ctab[i].sess > 0
        ensures (t.ctab[i].con0, t.ctab[i].con1, t.ctab[i].sess) == Charged(cs, t.ctab[i].uid)
      {
        assert t.SlotOk(i);
        assert t.UidOk(t.ctab[i].uid);
      }
      forall u | u in Uids(cs)
        ensures exists i :: 0 <= i < A_TSIZE && t.ctab[i].sess > 0 && t.ctab[i].uid == u
      {
        assert t.UidOk(u);
      }
    }
  }
}
