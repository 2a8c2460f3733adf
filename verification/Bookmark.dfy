/** Reading a work file with a persisted progress count (usr/src/common/cmd/bnu/anlwrk.c): uucico can
    be stopped at any moment and started again. */
module Bookmark {
  import opened Decimal

  /** What getargs makes of a line, as far as it matters: the number of arguments. */
  type Args = string -> int

  /** Lines that ask for work: R needs six arguments, S seven. */
  predicate LineOk(line: string, nargs: Args) {
    line != "" && ((line[0] == 'R' && nargs(line) >= 6) || (line[0] == 'S' && nargs(line) >= 7))
  }

  /** Other first characters, and fewer arguments, are not accepted. */
  lemma LineOkIs(line: string, nargs: Args)
    ensures LineOk(line, nargs) <==>
              exists rest :: (line == "R" + rest && nargs(line) > 5) || (line == "S" + rest && nargs(line) > 6)
  {
    if line != "" {
      var rest := line[1..];
      assert line == [line[0]] + rest;
      assert line[0] == 'R' ==> line == "R" + rest;
      assert line[0] == 'S' ==> line == "S" + rest;
    }
  }

  datatype Mark = NoMark | Mark(text: string)

  /** fscanf("%hd") of a bookmark, zero if there is none or no number in it. */
  function ReadMark(mark: Mark): int {
    if mark.NoMark? || mark.text == "" then 0
    else if AllDigits(mark.text) then Val(mark.text)
    else if mark.text[0] == '-' && AllDigits(mark.text[1..]) then 0 - Val(mark.text[1..])
    else 0
  }

  /** A count kept in a short. */
  function Short(n: int): int {
    if n > 0x7fff then n - 0x1_0000 else n
  }

  /** The files, the variables of the running uucico, and the lines handed out since the work file
      appeared, by number. */
  datatype State = State(
    present: bool,            // the work file is there
    corrupt: bool,            // it was put aside as malformed
    mark: Mark,               // the bookmark file
    reading: bool, pos: nat, acount: int,
    handed: seq<nat>)

  /** One call of anlwrk, or the end of the process.  Tear is the end of the process in the middle of
      a call: while the bookmark is written, after `k` characters of it, or between the removal of
      the two files. */
  datatype Event = Call(marked: bool) | Crash | Tear(k: nat)

  const START := State(true, false, NoMark, false, 0, 0, [])

  function Skipped(n: int, lines: seq<string>): (r: nat)
    ensures r <= |lines|
  {
    if n < 0 then 0 else if n > |lines| then |lines| else n
  }

  function Reopened(s: State, lines: seq<string>): State {
    if s.reading then s
    else s.(reading := true, pos := Skipped(ReadMark(s.mark), lines), acount := ReadMark(s.mark))
  }

  function Crashed(s: State): State {
    s.(reading := false, pos := 0, acount := 0)
  }

  function Gone(s: State): State {
    Crashed(s).(present := false, mark := NoMark)
  }

  function Step(s: State, ev: Event, lines: seq<string>, nargs: Args): State {
    if ev.Crash? then Crashed(s)
    else if !s.present then s
    else
      var o := Reopened(s, lines);
      if o.pos >= |lines| then
        if ev.Call? then Gone(o) else Crashed(o).(present := false)
      else if !LineOk(lines[o.pos], nargs) then
        if ev.Call? then Gone(o).(corrupt := true) else Crashed(o).(present := false, corrupt := true)
      else if ev.Call? then
        o.(mark := if ev.marked then Mark(LongText(o.acount)) else o.mark, pos := o.pos + 1,
           acount := Short(o.acount + 1), handed := o.handed + [o.pos])
      else
        var text := LongText(o.acount);
        Crashed(o).(mark := Mark(if ev.k <= |text| then text[..ev.k] else text))
  }

  function Run(s: State, evs: seq<Event>, lines: seq<string>, nargs: Args): State
    decreases |evs|
  {
    if evs == [] then s else Run(Step(s, evs[0], lines, nargs), evs[1..], lines, nargs)
  }

  // ----- Nothing is lost --------------------------------------------------------------------------

  /** The first n lines were all handed out. */
  predicate Covered(handed: seq<nat>, n: int) {
    forall i {:trigger i in handed} :: 0 <= i < n ==> i in handed
  }

  /** Lines come in order: each at most one beyond the one before it. */
  predicate Ordered(handed: seq<nat>) {
    && (handed != [] ==> handed[0] == 0)
    && forall i, j {:trigger handed[i], handed[j]} :: 0 <= i < j == i + 1 < |handed| ==> handed[j] <= handed[i] + 1
  }

  /** One more than the number of the last line handed out. */
  function Next(handed: seq<nat>): nat {
    if handed == [] then 0 else handed[|handed| - 1] + 1
  }

  /** What every step keeps, whatever happens. */
  predicate Safe(s: State, lines: seq<string>, nargs: Args) {
    && (s.corrupt ==> !s.present)
    && Ordered(s.handed)
    && ReadMark(s.mark) <= Next(s.handed) <= |lines|
    && Covered(s.handed, ReadMark(s.mark))
    && (s.reading ==> s.present && s.acount <= s.pos && ReadMark(s.mark) <= s.pos <= Next(s.handed) &&
                      Covered(s.handed, s.pos))
    && (!s.present && !s.corrupt ==> Covered(s.handed, |lines|))
    && (!s.present && s.corrupt ==> BadAfter(s.handed, lines, nargs))
  }

  /** Some line is malformed and all before it were handed out. */
  predicate BadAfter(handed: seq<nat>, lines: seq<string>, nargs: Args) {
    exists i :: 0 <= i < |lines| && !LineOk(lines[i], nargs) && Covered(handed, i)
  }

  lemma WholeMark(n: int)
    ensures ReadMark(Mark(LongText(n))) == n
  {
    var text := LongText(n);
    if n < 0 {
      assert text[1..] == Dec(-n);
      ValDec(-n);
    } else {
      ValDec(n);
    }
  }

  /** A torn bookmark never says more than the whole one. */
  lemma TornMark(n: int, k: nat)
    requires k <= |LongText(n)|
    ensures ReadMark(Mark(LongText(n)[..k])) <= if n < 0 then 0 else n
  {
    var text := LongText(n)[..k];
    if n >= 0 {
      ValPrefix(Dec(n), k);
      ValDec(n);
      if k > 0 {
        assert IsDigit(text[0]);
      }
    } else if k > 0 {
      assert text[0] == '-' && !AllDigits(text);
    }
  }

  lemma CoverLess(handed: seq<nat>, n: int, m: int)
    requires Covered(handed, n) && m <= n
    ensures Covered(handed, m)
  {
  }

  lemma CoverNext(handed: seq<nat>, p: nat)
    requires Covered(handed, p) && Ordered(handed) && p <= Next(handed)
    ensures Covered(handed + [p], p + 1) && Ordered(handed + [p])
    ensures forall n :: Covered(handed, n) ==> Covered(handed + [p], n)
  {
    var more := handed + [p];
    assert more[|handed|] == p;
    forall i | 0 <= i < p
      ensures i in more
    {
      assert i in handed;
    }
  }

  lemma ReopenedSafe(s: State, lines: seq<string>, nargs: Args)
    requires Safe(s, lines, nargs) && s.present
    ensures Safe(Reopened(s, lines), lines, nargs) && Reopened(s, lines).reading
  {
    hide Ordered;
    hide ReadMark;
  }

  lemma StepSafe(s: State, ev: Event, lines: seq<string>, nargs: Args)
    requires Safe(s, lines, nargs)
    ensures Safe(Step(s, ev, lines, nargs), lines, nargs)
  {
    hide Ordered;
    hide LongText;
    hide LineOk;
    hide Covered;
    if s.present && !ev.Crash? {
      ReopenedSafe(s, lines, nargs);
      var o := Reopened(s, lines);
      var t := Step(s, ev, lines, nargs);
      if o.pos >= |lines| {
        EndSafe(o, t, lines, nargs);
      } else if !LineOk(lines[o.pos], nargs) {
        BadSafe(o, t, lines, nargs);
      } else if ev.Call? {
        CallSafe(o, ev.marked, lines, nargs);
      } else {
        TearSafe(o, ev.k, lines, nargs);
      }
    }
  }

  lemma EndSafe(o: State, t: State, lines: seq<string>, nargs: Args)
    requires Safe(o, lines, nargs) && o.reading && o.pos >= |lines|
    requires t == Gone(o) || t == Crashed(o).(present := false)
    ensures Safe(t, lines, nargs)
  {
    hide Ordered;
    NoMarkIsZero();
    CoverLess(o.handed, o.pos, |lines|);
  }

  lemma NoMarkIsZero()
    ensures ReadMark(NoMark) == 0
  {
  }

  lemma BadSafe(o: State, t: State, lines: seq<string>, nargs: Args)
    requires Safe(o, lines, nargs) && o.reading && o.pos < |lines| && !LineOk(lines[o.pos], nargs)
    requires t == Gone(o).(corrupt := true) || t == Crashed(o).(present := false, corrupt := true)
    ensures Safe(t, lines, nargs)
  {
    hide Ordered;
    NoMarkIsZero();
    assert Covered(t.handed, o.pos);
  }

  lemma CallSafe(o: State, marked: bool, lines: seq<string>, nargs: Args)
    requires Safe(o, lines, nargs) && o.reading && o.pos < |lines|
    ensures Safe(o.(mark := if marked then Mark(LongText(o.acount)) else o.mark, pos := o.pos + 1,
                    acount := Short(o.acount + 1), handed := o.handed + [o.pos]), lines, nargs)
  {
    hide Ordered;
    hide ReadMark;
    WholeMark(o.acount);
    CoverNext(o.handed, o.pos);
    hide Covered;
    CoverLess(o.handed, o.pos, o.acount);
  }

  lemma TearSafe(o: State, k: nat, lines: seq<string>, nargs: Args)
    requires Safe(o, lines, nargs) && o.reading
    ensures var text := LongText(o.acount);
      Safe(Crashed(o).(mark := Mark(if k <= |text| then text[..k] else text)), lines, nargs)
  {
    hide Ordered;
    hide ReadMark;
    var text := LongText(o.acount);
    WholeMark(o.acount);
    if k <= |text| {
      TornMark(o.acount, k);
    }
    CoverLess(o.handed, o.pos, if o.acount < 0 then 0 else o.acount);
  }

  lemma {:induction false} RunSafe(s: State, evs: seq<Event>, lines: seq<string>, nargs: Args)
    requires Safe(s, lines, nargs)
    ensures Safe(Run(s, evs, lines, nargs), lines, nargs)
    decreases |evs|
  {
    hide Safe;
    hide Step;
    if evs != [] {
      StepSafe(s, evs[0], lines, nargs);
      RunSafe(Step(s, evs[0], lines, nargs), evs[1..], lines, nargs);
    }
  }

  /** Whenever and however often uucico is stopped, even while it writes the bookmark, and whatever
      the length of the file: lines are handed out in order, and the file is not removed before every
      line of it was, nor put aside as malformed before every line ahead of a malformed one was. */
  lemma NothingLost(evs: seq<Event>, lines: seq<string>, nargs: Args)
    ensures var s := Run(START, evs, lines, nargs);
      && Ordered(s.handed)
      && (!s.present && !s.corrupt ==> forall i {:trigger i in s.handed} :: 0 <= i < |lines| ==> i in s.handed)
      && (!s.present && s.corrupt ==> BadAfter(s.handed, lines, nargs))
  {
    assert Safe(START, lines, nargs);
    RunSafe(START, evs, lines, nargs);
  }

  /** When the file is removed without complaint, all its lines were handed out. */
  predicate Kept(s: State, lines: seq<string>) {
    !s.present && !s.corrupt ==> Covered(s.handed, |lines|)
  }

  function Calls(n: nat): seq<Event> {
    if n == 0 then [] else [Call(true)] + Calls(n - 1)
  }

  /** From a later line on, calls to the end of the file never come back to the first line. */
  lemma {:induction false} CallsToEnd(s: State, n: nat, lines: seq<string>, nargs: Args)
    requires s.present && s.reading && !s.corrupt && 1 <= s.pos && s.pos + n == |lines| && 0 !in s.handed
    requires forall i :: 0 <= i < |lines| ==> LineOk(lines[i], nargs)
    ensures var t := Run(s, Calls(n + 1), lines, nargs); !t.present && !t.corrupt && 0 !in t.handed
    decreases n
  {
    hide LineOk;
    hide LongText;
    var t := Step(s, Call(true), lines, nargs);
    assert Calls(n + 1)[0] == Call(true) && Calls(n + 1)[1..] == Calls(n);
    if n > 0 {
      CallsToEnd(t, n - 1, lines, nargs);
    }
  }

  /** A file that appears under a bookmark left from an earlier one: nothing can be lost exactly when
      that bookmark counts no line. */
  lemma NothingLostWhen(mark: Mark, lines: seq<string>, nargs: Args)
    requires lines != [] && forall i :: 0 <= i < |lines| ==> LineOk(lines[i], nargs)
    ensures (forall evs :: Kept(Run(START.(mark := mark), evs, lines, nargs), lines)) <==> ReadMark(mark) <= 0
  {
    hide LineOk;
    var start := START.(mark := mark);
    if ReadMark(mark) <= 0 {
      forall evs
        ensures Kept(Run(start, evs, lines, nargs), lines)
      {
        hide ReadMark;
        assert Safe(start, lines, nargs);
        RunSafe(start, evs, lines, nargs);
      }
    } else {
      var o := Reopened(start, lines);
      CallsToEnd(o, |lines| - o.pos, lines, nargs);
      var evs := Calls(|lines| - o.pos + 1);
      SameRun(start, o, |lines| - o.pos, lines, nargs);
      assert !Kept(Run(start, evs, lines, nargs), lines);
    }
  }

  lemma SameRun(s: State, o: State, n: nat, lines: seq<string>, nargs: Args)
    requires o == Reopened(s, lines) && s.present
    ensures Run(s, Calls(n + 1), lines, nargs) == Run(o, Calls(n + 1), lines, nargs)
  {
    hide LineOk;
    hide LongText;
    hide ReadMark;
    assert Calls(n + 1)[0] == Call(true) && Calls(n + 1)[1..] == Calls(n);
    assert Reopened(o, lines) == o;
  }

  /** Such a bookmark is left by a stop between the removals of the two files. */
  lemma BookmarkLeft()
    ensures var nargs: Args := _ => 7;
      var left := Run(START, [Call(true), Call(true), Tear(0)], ["S a", "S b"], nargs);
      !left.present && left.mark == Mark("1") && ReadMark(left.mark) == 1
  {
    WholeMark(1);
    var nargs: Args := _ => 7;
    var two := ["S a", "S b"];
    var s1 := Step(START, Call(true), two, nargs);
    var s2 := Step(s1, Call(true), two, nargs);
    assert s2.acount == 2 && s2.mark == Mark(LongText(1)) && LongText(1) == "1";
    assert Step(s2, Tear(0), two, nargs).mark == Mark("1");
    assert [Call(true), Call(true), Tear(0)][1..] == [Call(true), Tear(0)];
    assert [Call(true), Tear(0)][1..] == [Tear(0)] && [Tear(0)][1..] == [];
  }

  // ----- Little is repeated -----------------------------------------------------------------------

  /** The bookmark is always written, and at once: when the process ends behind the write, all
      characters of it are there, of which a short has at most six. */
  predicate Atomic(ev: Event) {
    ev == Call(true) || ev == Crash || (ev.Tear? && ev.k >= 6)
  }

  function Crashes(evs: seq<Event>): nat {
    if evs == [] then 0 else (if evs[0].Crash? then 1 else 0) + Crashes(evs[1..])
  }

  /** The line to come is the last one again. */
  predicate Pending(s: State) {
    s.present && (if s.reading then s.pos else ReadMark(s.mark)) < Next(s.handed)
  }

  /** The bookmark names the last line handed out or the one to come, and only the last one is ever
      repeated. */
  predicate Exact(s: State, crashes: nat) {
    && (s.present ==> 0 <= ReadMark(s.mark) <= 0x7fff && Next(s.handed) - 1 <= ReadMark(s.mark))
    && (s.reading && s.present ==>
          s.acount == Short(s.pos) && Next(s.handed) - 1 <= s.pos <= Next(s.handed))
    && (forall i, j {:trigger s.handed[i], s.handed[j]} :: 0 <= i < j == i + 1 < |s.handed| ==>
          s.handed[i] <= s.handed[j])
    && |s.handed| + (if Pending(s) then 1 else 0) <= Next(s.handed) + crashes
  }

  lemma ShortText(n: nat)
    requires n <= 0x7fff
    ensures |LongText(n)| <= 6
  {
    assert Pow10(5) == 100000 by {
      assert Pow10(5) == 10 * Pow10(4) && Pow10(4) == 10 * Pow10(3) && Pow10(3) == 10 * Pow10(2) &&
             Pow10(2) == 10 * Pow10(1) && Pow10(1) == 10 * Pow10(0);
    }
    DecLength(n, 5);
  }

  lemma ReopenedExact(s: State, crashes: nat, lines: seq<string>, nargs: Args)
    requires Safe(s, lines, nargs) && Exact(s, crashes) && s.present && |lines| <= 0x8000
    ensures Exact(Reopened(s, lines), crashes)
  {
    hide ReadMark;
    hide Ordered;
    hide Covered;
  }

  lemma CallExact(o: State, crashes: nat, lines: seq<string>, nargs: Args)
    requires Safe(o, lines, nargs) && Exact(o, crashes) && o.present && o.reading
    requires o.pos < |lines| <= 0x8000
    ensures Exact(o.(mark := Mark(LongText(o.acount)), pos := o.pos + 1, acount := Short(o.acount + 1),
                     handed := o.handed + [o.pos]), crashes)
  {
    hide LongText;
    hide ReadMark;
    hide Covered;
    hide Ordered;
    WholeMark(o.acount);
  }

  lemma TearExact(o: State, k: nat, crashes: nat, lines: seq<string>, nargs: Args)
    requires Safe(o, lines, nargs) && Exact(o, crashes) && o.present && o.reading
    requires o.pos < |lines| <= 0x8000 && k >= 6
    ensures var text := LongText(o.acount);
      Exact(Crashed(o).(mark := Mark(if k <= |text| then text[..k] else text)), crashes)
  {
    hide LongText;
    hide ReadMark;
    hide Covered;
    hide Ordered;
    WholeMark(o.acount);
    ShortText(o.acount);
    var text := LongText(o.acount);
    assert |text| == k ==> text[..k] == text;
  }

  lemma StopExact(s: State, crashes: nat)
    requires Exact(s, crashes)
    ensures Exact(Crashed(s), crashes + 1)
  {
    hide ReadMark;
  }

  lemma GoneExact(o: State, t: State, crashes: nat)
    requires Exact(o, crashes) && t.handed == o.handed && !t.present
    ensures Exact(t, crashes)
  {
    hide ReadMark;
  }

  lemma StepExact(s: State, ev: Event, crashes: nat, lines: seq<string>, nargs: Args)
    requires Safe(s, lines, nargs) && Exact(s, crashes) && Atomic(ev) && |lines| <= 0x8000
    ensures Exact(Step(s, ev, lines, nargs), crashes + if ev.Crash? then 1 else 0)
  {
    hide LongText;
    hide LineOk;
    hide Exact;
    hide Safe;
    if ev.Crash? {
      StopExact(s, crashes);
    } else if s.present {
      var o := Reopened(s, lines);
      ReopenedSafe(s, lines, nargs);
      ReopenedExact(s, crashes, lines, nargs);
      if o.pos >= |lines| || !LineOk(lines[o.pos], nargs) {
        GoneExact(o, Step(s, ev, lines, nargs), crashes);
      } else if ev.Call? {
        CallExact(o, crashes, lines, nargs);
      } else {
        TearExact(o, ev.k, crashes, lines, nargs);
      }
    }
  }

  lemma {:induction false} RunExact(s: State, evs: seq<Event>, crashes: nat, lines: seq<string>, nargs: Args)
    requires Safe(s, lines, nargs) && Exact(s, crashes) && |lines| <= 0x8000
    requires AllAtomic(evs)
    ensures Exact(Run(s, evs, lines, nargs), crashes + Crashes(evs))
    decreases |evs|
  {
    hide Safe;
    hide Step;
    hide Exact;
    if evs != [] {
      StepSafe(s, evs[0], lines, nargs);
      StepExact(s, evs[0], crashes, lines, nargs);
      RunExact(Step(s, evs[0], lines, nargs), evs[1..], crashes + if evs[0].Crash? then 1 else 0, lines, nargs);
    }
  }

  predicate AllAtomic(evs: seq<Event>) {
    forall i :: 0 <= i < |evs| ==> Atomic(evs[i])
  }

  /** Each line is the one before it again or the next. */
  predicate InStep(handed: seq<nat>) {
    forall i, j {:trigger handed[i], handed[j]} :: 0 <= i < j == i + 1 < |handed| ==>
      handed[i] <= handed[j] <= handed[i] + 1
  }

  /** With the bookmark written at once and no more lines than a short can count, a restart repeats
      at most the line handed out last: no line comes before an earlier one again, and there are at
      most as many repetitions as restarts that find the bookmark of an earlier line. */
  lemma LittleRepeated(evs: seq<Event>, lines: seq<string>, nargs: Args)
    requires |lines| <= 0x8000 && AllAtomic(evs)
    ensures var s := Run(START, evs, lines, nargs);
      InStep(s.handed) && |s.handed| <= Next(s.handed) + Crashes(evs)
  {
    assert Safe(START, lines, nargs) && Exact(START, 0);
    RunExact(START, evs, 0, lines, nargs);
    RunSafe(START, evs, lines, nargs);
    hide Run;
    hide ReadMark;
  }

  lemma {:induction false} RunBoth(s: State, a: seq<Event>, b: seq<Event>, lines: seq<string>, nargs: Args)
    ensures Run(s, a + b, lines, nargs) == Run(Run(s, a, lines, nargs), b, lines, nargs)
    decreases |a|
  {
    hide Step;
    if a == [] {
      assert a + b == b;
    } else {
      assert (a + b)[0] == a[0] && (a + b)[1..] == a[1..] + b;
      RunBoth(Step(s, a[0], lines, nargs), a[1..], b, lines, nargs);
    }
  }

  /** n calls hand out the next n lines. */
  lemma {:induction false} CallsHand(s: State, n: nat, lines: seq<string>, nargs: Args)
    requires s.present && s.reading && s.pos + n <= |lines| && s.pos + n <= 0x8000
    requires s.acount == Short(s.pos) && s.pos == Next(s.handed)
    requires forall i :: 0 <= i < |lines| ==> LineOk(lines[i], nargs)
    ensures var t := Run(s, Calls(n), lines, nargs);
      t.present && t.reading && t.pos == s.pos + n == Next(t.handed) && t.acount == Short(t.pos)
    ensures AllAtomic(Calls(n))
    decreases n
  {
    hide LineOk;
    hide LongText;
    if n > 0 {
      var t := Step(s, Call(true), lines, nargs);
      assert Calls(n)[0] == Call(true) && Calls(n)[1..] == Calls(n - 1);
      CallsHand(t, n - 1, lines, nargs);
      hide Step;
      hide Next;
      assert forall i :: 0 < i < |Calls(n)| ==> Calls(n)[i] == Calls(n - 1)[i - 1];
    }
  }

  /** Behind 32768 lines the bookmark is written as a negative number, and a restart begins with the
      first line again. */
  lemma FromTheStart(s: State, lines: seq<string>, nargs: Args) returns (t: State)
    requires s.present && s.reading && s.pos == Next(s.handed) == 0x8000 < |lines| && s.acount == Short(s.pos)
    requires forall i :: 0 <= i < |lines| ==> LineOk(lines[i], nargs)
    ensures t == Run(s, [Call(true), Crash, Call(true)], lines, nargs) && !InStep(t.handed)
  {
    hide LineOk;
    hide LongText;
    hide ReadMark;
    WholeMark(-0x8000);
    var a := Step(s, Call(true), lines, nargs);
    var b := Step(a, Crash, lines, nargs);
    t := Step(b, Call(true), lines, nargs);
    assert [Call(true), Crash, Call(true)][1..] == [Crash, Call(true)];
    assert [Crash, Call(true)][1..] == [Call(true)] && [Call(true)][1..] == [];
    assert t.handed == s.handed + [0x8000] + [0];
    var k := |s.handed|;
    assert t.handed[k] == 0x8000 && t.handed[k + 1] == 0;
  }

  /** Of well-formed files it is exactly those of at most 32768 lines that are handed out in step. */
  lemma LittleRepeatedWhen(lines: seq<string>, nargs: Args)
    requires forall i :: 0 <= i < |lines| ==> LineOk(lines[i], nargs)
    ensures (forall evs :: AllAtomic(evs) ==> InStep(Run(START, evs, lines, nargs).handed)) <==> |lines| <= 0x8000
  {
    hide LineOk;
    hide InStep;
    hide Run;
    hide AllAtomic;
    if |lines| <= 0x8000 {
      forall evs | AllAtomic(evs)
        ensures InStep(Run(START, evs, lines, nargs).handed)
      {
        LittleRepeated(evs, lines, nargs);
      }
    } else {
      var evs := OutOfStep(0x8000, lines, nargs);
    }
  }

  lemma OutOfStep(n: nat, lines: seq<string>, nargs: Args) returns (evs: seq<Event>)
    requires n == 0x8000 < |lines| && forall i :: 0 <= i < |lines| ==> LineOk(lines[i], nargs)
    ensures AllAtomic(evs) && !InStep(Run(START, evs, lines, nargs).handed)
  {
    hide LineOk;
    hide InStep;
    hide Calls;
    NoMarkIsZero();
    var first := Reopened(START, lines);
    assert first == START.(reading := true);
    CallsHand(first, n, lines, nargs);
    SameRun(START, first, n - 1, lines, nargs);
    var t := FromTheStart(Run(START, Calls(n), lines, nargs), lines, nargs);
    RunBoth(START, Calls(n), [Call(true), Crash, Call(true)], lines, nargs);
    evs := Calls(n) + [Call(true), Crash, Call(true)];
  }

  // ----- The program ------------------------------------------------------------------------------

  class Reader {
    const lines: seq<string>
    const nargs: Args
    var present: bool
    var corrupt: bool
    var mark: Mark
    var reading: bool
    var pos: nat
    var acount: int
    ghost var handed: seq<nat>

    ghost function View(): State
      reads this
    {
      State(present, corrupt, mark, reading, pos, acount, handed)
    }

    constructor (lines: seq<string>, nargs: Args)
      ensures View() == START && this.lines == lines && this.nargs == nargs
    {
      this.lines, this.nargs := lines, nargs;
      present, corrupt, mark, reading, pos, acount, handed := true, false, NoMark, false, 0, 0, [];
    }

    /** Open the work file and skip the lines the bookmark counts. */
    method Open()
      requires present
      modifies this
      ensures View() == Reopened(old(View()), lines)
    {
      hide ReadMark;
      if reading {
        return;
      }
      reading, pos, acount := true, 0, ReadMark(mark);
      var i := 0;
      while i < acount && pos < |lines|
        invariant 0 <= i == pos <= |lines| && (acount >= 0 ==> i <= acount) && (acount < 0 ==> i == 0)
        invariant View() == Reopened(old(View()), lines).(pos := pos)
        decreases |lines| - pos
      {
        pos := pos + 1;
        i := i + 1;
      }
    }

    /** The next line, or None when the file is finished or malformed. */
    method Anlwrk(marked: bool) returns (line: Found)
      requires present
      modifies this
      ensures View() == Step(old(View()), Call(marked), lines, nargs)
      ensures line == if |handed| > |old(handed)| then Line(lines[handed[|old(handed)|]]) else None
    {
      hide ReadMark;
      Open();
      if pos >= |lines| {
        present, mark, reading, pos, acount := false, NoMark, false, 0, 0;
        return None;
      }
      if !LineOk(lines[pos], nargs) {
        present, corrupt, mark, reading, pos, acount := false, true, NoMark, false, 0, 0;
        return None;
      }
      if marked {
        mark := Mark(LongText(acount));
      }
      acount := Short(acount + 1);
      line := Line(lines[pos]);
      handed := handed + [pos];
      pos := pos + 1;
    }
  }

  datatype Found = None | Line(text: string)
}
