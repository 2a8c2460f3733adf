/** The reader of the audit map file (usr/src/common/cmd/auditrpt/v4/adt_loadmap.c): it goes from header
    to header by the sizes, but takes each map apart up to the NUL behind its data. */
module LoadMap {
  import opened Decimal
  import opened AuditMap

  const A_FILEID := 101

  // ----- Strings ----------------------------------------------------------------------------------

  predicate IsNul(c: char) {
    c == '\0'
  }

  predicate IsColon(c: char) {
    c == ':'
  }

  predicate IsSpace(c: char) {
    c == ' ' || 9 as char <= c <= 13 as char
  }

  lemma SpacesAre(c: char)
    requires c as int < 256
    ensures IsSpace(c) <==> c == ' ' || c == '\t' || c == '\n' || c as int == 11 || c as int == 12 || c == '\r'
  {
  }

  predicate NotSpace(c: char) {
    !IsSpace(c)
  }

  /** How many characters stand before the first that stops. */
  function Span(s: string, stop: char -> bool): (k: nat)
    ensures k <= |s| && (k < |s| ==> stop(s[k])) && (s != "" && !stop(s[0]) ==> k > 0)
  {
    if s == "" || stop(s[0]) then 0 else 1 + Span(s[1..], stop)
  }

  predicate Free(s: string, stop: char -> bool) {
    forall i :: 0 <= i < |s| ==> !stop(s[i])
  }

  lemma {:induction false} SpanFree(s: string, stop: char -> bool)
    ensures Free(s[..Span(s, stop)], stop)
  {
    if s != "" && !stop(s[0]) {
      SpanFree(s[1..], stop);
      var k := Span(s[1..], stop);
      assert s[..k + 1] == [s[0]] + s[1..][..k];
    }
  }

  lemma {:induction false} SpanOf(a: string, t: string, stop: char -> bool)
    requires Free(a, stop) && (t == "" || stop(t[0]))
    ensures Span(a + t, stop) == |a| && (a + t)[..|a|] == a && (a + t)[|a|..] == t
  {
    if a == "" {
      assert a + t == t;
    } else {
      assert (a + t)[1..] == a[1..] + t;
      SpanOf(a[1..], t, stop);
    }
  }

  /** A string up to its NUL. */
  function CString(s: string): (r: string)
    ensures |r| <= |s| && (Ends(s) ==> |r| < |s|)
  {
    s[..Span(s, IsNul)]
  }

  predicate Ends(s: string) {
    Span(s, IsNul) < |s|
  }

  lemma NulEnds(a: string, rest: string)
    requires Free(a, IsNul)
    ensures var s := a + (NUL + rest); Ends(s) && CString(s) == a && s[|a| + 1..] == rest
  {
    SpanOf(a, NUL + rest, IsNul);
  }

  /** What strtok finds between colons. */
  function Tokens(s: string): (toks: seq<string>)
    decreases |s|
  {
    if s == "" then []
    else if IsColon(s[0]) then Tokens(s[1..])
    else [s[..Span(s, IsColon)]] + Tokens(s[Span(s, IsColon)..])
  }

  lemma TokensCons(x: string, t: string)
    requires x != "" && Free(x, IsColon)
    ensures Tokens(x + (":" + t)) == [x] + Tokens(t)
  {
    var s := x + (":" + t);
    SpanOf(x, ":" + t, IsColon);
    hide Span;
    assert s[0] == x[0];
    ColonSkipped(t);
  }

  lemma ColonSkipped(t: string)
    ensures Tokens(":" + t) == Tokens(t)
  {
    assert (":" + t)[1..] == t;
  }

  lemma {:induction false} TokensFree(s: string, i: nat)
    requires i < |Tokens(s)|
    ensures Free(Tokens(s)[i], IsColon)
    decreases |s|
  {
    hide Free;
    hide Span;
    if IsColon(s[0]) {
      TokensFree(s[1..], i);
    } else {
      SpanFree(s, IsColon);
      if i > 0 {
        TokensFree(s[Span(s, IsColon)..], i - 1);
      }
    }
  }

  /** sscanf %s: the first word, "" if there is none. */
  function Scan(s: string): (w: string)
    ensures |w| <= |s|
  {
    var t := s[Span(s, NotSpace)..];
    t[..Span(t, IsSpace)]
  }

  lemma ScanOf(w: string, rest: string)
    requires Free(w, IsSpace) && w != "" && (rest == "" || IsSpace(rest[0]))
    ensures Scan(w + rest) == w && Span(w + rest, NotSpace) == 0
  {
    var s := w + rest;
    SpanOf(w, rest, IsSpace);
    assert s[0] == w[0] && Span(s, NotSpace) == 0 && s[0..] == s;
  }

  lemma ScanFree(s: string, stop: char -> bool)
    requires Free(s, stop)
    ensures Free(Scan(s), stop) && Free(Scan(s), IsSpace)
  {
    var k := Span(s, NotSpace);
    SpanFree(s[k..], IsSpace);
    var w := Scan(s);
    assert forall i :: 0 <= i < |w| ==> w[i] == s[k + i];
  }

  /** A name that can be told from what is around it. */
  predicate Proper(name: string) {
    name != "" && Free(name, IsSpace) && Free(name, IsColon)
  }

  // ----- Names with numbers -------------------------------------------------------------------------

  /** What sscanf %s%d makes of a token; Unset if it leaves something as it was. */
  datatype Item = Item(name: string, id: int) | Unset

  datatype Read = Read(n: int) | NoNumber

  /** Digits, perhaps behind a sign. */
  function ScanSigned(t: string): Read {
    var signed := t != "" && (t[0] == '-' || t[0] == '+');
    var d := if signed then t[1..] else t;
    var k := DigitRun(d);
    if k == 0 then NoNumber
    else if signed && t[0] == '-' then Read(0 - Val(d[..k]))
    else Read(Val(d[..k]))
  }

  /** A number behind blanks: sscanf %d, atoi and atol. */
  function ScanNumber(s: string): Read {
    ScanSigned(s[Span(s, NotSpace)..])
  }

  function ScanItem(tok: string): Item {
    var w := Scan(tok);
    var n := ScanNumber(tok[Span(tok, NotSpace) + |w|..]);
    if w == "" || n.NoNumber? then Unset else Item(w, n.n)
  }

  function Items(toks: seq<string>): (r: seq<Item>)
    ensures |r| == |toks| && forall i :: 0 <= i < |r| ==> r[i] == ScanItem(toks[i])
  {
    seq(|toks|, i requires 0 <= i < |toks| => ScanItem(toks[i]))
  }

  function ItemsOf(entries: seq<Entry>): (r: seq<Item>)
    ensures |r| == |entries| && forall i :: 0 <= i < |r| ==> r[i] == Item(entries[i].name, entries[i].id)
  {
    seq(|entries|, i requires 0 <= i < |entries| => Item(entries[i].name, entries[i].id))
  }

  lemma DigitsBack(n: nat)
    ensures var d := Dec(n); DigitRun(d) == |d| > 0 && AllDigits(d[..|d|]) && Val(d[..|d|]) == n
    ensures IsDigit(Dec(n)[0])
  {
    var d := Dec(n);
    ValDec(n);
    DigitRunOf(d, "");
    hide Dec;
    assert d + "" == d && d[..|d|] == d;
  }

  lemma SignedBack(n: int)
    ensures ScanSigned(LongText(n)) == Read(n)
    ensures LongText(n) != "" && NotSpace(LongText(n)[0])
  {
    DigitsBack(if n < 0 then 0 - n else n);
    hide Dec;
    hide Val;
    hide DigitRun;
    if n < 0 {
      assert LongText(n)[1..] == Dec(0 - n);
    }
  }

  lemma NoSpaces(t: string)
    requires t != "" && NotSpace(t[0])
    ensures Span(t, NotSpace) == 0 && t[0..] == t
    ensures Span(" " + t, NotSpace) == 1 && (" " + t)[1..] == t
  {
    assert (" " + t)[1..] == t;
  }

  lemma NumberBack(n: int)
    ensures ScanNumber(" " + LongText(n)) == ScanNumber(LongText(n)) == Read(n)
  {
    SignedBack(n);
    NoSpaces(LongText(n));
    hide LongText;
    hide Span;
    hide ScanSigned;
  }

  lemma ItemParts(w: string, rest: string, n: int)
    requires w != "" && Scan(w + rest) == w && Span(w + rest, NotSpace) == 0 && ScanNumber(rest) == Read(n)
    ensures ScanItem(w + rest) == Item(w, n)
  {
    hide Scan;
    hide Span;
    hide ScanNumber;
    assert (w + rest)[|w|..] == rest;
  }

  lemma ItemBack(e: Entry)
    requires Proper(e.name)
    ensures ScanItem(e.name + " " + LongText(e.id)) == Item(e.name, e.id)
  {
    hide LongText;
    var rest := " " + LongText(e.id);
    Join3(e.name, " ", LongText(e.id));
    ScanOf(e.name, rest);
    NumberBack(e.id);
    ItemParts(e.name, rest, e.id);
  }

  lemma LongFree(n: int)
    ensures Free(LongText(n), IsColon) && Free(LongText(n), IsNul)
  {
    ValDec(if n < 0 then 0 - n else n);
  }

  lemma IdsSnoc(entries: seq<Entry>)
    requires entries != []
    ensures IdsText(entries) == IdsText(entries[..|entries| - 1]) + EntryText(entries[|entries| - 1])
  {
  }

  lemma {:induction false} IdsFront(entries: seq<Entry>)
    requires entries != []
    ensures IdsText(entries) == EntryText(entries[0]) + IdsText(entries[1..])
    decreases |entries|
  {
    var init, tail := entries[..|entries| - 1], entries[1..];
    IdsSnoc(entries);
    if init == [] {
      assert IdsText(init) == "" && IdsText(tail) == "";
    } else {
      hide *;
      IdsFront(init);
      IdsSnoc(tail);
      assert init[1..] == tail[..|tail| - 1];
      Join3(EntryText(entries[0]), IdsText(init[1..]), EntryText(entries[|entries| - 1]));
    }
  }

  lemma ItemsCons(tok: string, toks: seq<string>, e: Entry, entries: seq<Entry>)
    requires ScanItem(tok) == Item(e.name, e.id) && Items(toks) == ItemsOf(entries)
    ensures Items([tok] + toks) == ItemsOf([e] + entries)
  {
    hide ScanItem;
    var a, b := Items([tok] + toks), ItemsOf([e] + entries);
    assert |Items(toks)| == |ItemsOf(entries)|;
    forall i | 0 <= i < |a|
      ensures a[i] == b[i]
    {
      if i > 0 {
        assert a[i] == Items(toks)[i - 1] && b[i] == ItemsOf(entries)[i - 1];
      }
    }
  }

  predicate ProperNames(entries: seq<Entry>) {
    forall i :: 0 <= i < |entries| ==> Proper(entries[i].name)
  }

  lemma ProperSplit(entries: seq<Entry>)
    requires ProperNames(entries) && entries != []
    ensures Proper(entries[0].name) && ProperNames(entries[1..])
  {
  }

  lemma ItemsStep(e: Entry, tail: seq<Entry>)
    requires Proper(e.name) && Items(Tokens(IdsText(tail))) == ItemsOf(tail)
    ensures Items(Tokens(EntryText(e) + IdsText(tail))) == ItemsOf([e] + tail)
  {
    hide *;
    var x := e.name + " " + LongText(e.id);
    TextOfEntry(e, IdsText(tail));
    EntryFree(e);
    ItemBack(e);
    NotNothing(e.name, LongText(e.id));
    TokensCons(x, IdsText(tail));
    ItemsCons(x, Tokens(IdsText(tail)), e, tail);
  }

  lemma NotNothing(a: string, b: string)
    ensures a + " " + b != ""
  {
  }

  lemma {:induction false} ItemsBack(entries: seq<Entry>)
    requires ProperNames(entries)
    ensures Items(Tokens(IdsText(entries))) == ItemsOf(entries)
  {
    if entries == [] {
      NoTokens();
    } else {
      hide *;
      ProperSplit(entries);
      ItemsBack(entries[1..]);
      IdsFront(entries);
      ItemsStep(entries[0], entries[1..]);
      assert [entries[0]] + entries[1..] == entries;
    }
  }

  lemma TextOfEntry(e: Entry, t: string)
    ensures EntryText(e) + t == e.name + " " + LongText(e.id) + (":" + t)
  {
    hide LongText;
    Join3(e.name + " " + LongText(e.id), ":", t);
  }

  lemma EntryFree(e: Entry)
    requires Proper(e.name)
    ensures Free(e.name + " " + LongText(e.id), IsColon)
  {
    hide LongText;
    LongFree(e.id);
  }

  lemma NoTokens()
    ensures Tokens("") == []
  {
  }

  /** Names and numbers are read back exactly when no name holds a blank or colon, or is empty. */
  lemma IdsLoad(entries: seq<Entry>)
    ensures Items(Tokens(IdsText(entries))) == ItemsOf(entries) <==>
            ProperNames(entries)
  {
    hide Tokens;
    hide Scan;
    hide IdsText;
    var toks := Tokens(IdsText(entries));
    if Items(toks) == ItemsOf(entries) {
      forall i | 0 <= i < |entries|
        ensures Proper(entries[i].name)
      {
        assert Items(toks)[i] == ItemsOf(entries)[i];
        assert ScanItem(toks[i]).Item? && entries[i].name == Scan(toks[i]) != "";
        TokensFree(IdsText(entries), i);
        ScanFree(toks[i], IsColon);
      }
    } else if ProperNames(entries) {
      ItemsBack(entries);
    }
  }

  // ----- Classes ------------------------------------------------------------------------------------

  /** Classes with their events, in a row; Stray if the reader goes on behind the end of a token, or
      finds no class in it. */
  datatype Words = Words(words: seq<Word>) | Stray

  function Ahead(w: Word, r: Words): Words {
    if r.Words? then Words([w] + r.words) else Stray
  }

  function Both(a: Words, b: Words): Words {
    if a.Words? && b.Words? then Words(a.words + b.words) else Stray
  }

  /** The words of a token from sp on. */
  function Events(sp: string): Words
    decreases |sp|
  {
    var w := Scan(sp);
    if w == "" then Words([])
    else if |w| + 1 > |sp| then Stray
    else Ahead(Event(w), Events(sp[|w| + 1..]))
  }

  function ClassOf(tok: string): Words {
    var w := Scan(tok);
    if w == "" || |w| + 1 > |tok| then Stray else Ahead(Class(w), Events(tok[|w| + 1..]))
  }

  function ClassesOf(toks: seq<string>): Words {
    if toks == [] then Words([]) else Both(ClassOf(toks[0]), ClassesOf(toks[1..]))
  }

  predicate AllProper(words: seq<Word>) {
    forall i :: 0 <= i < |words| ==> Proper(words[i].name)
  }

  lemma {:induction false} EventsProper(sp: string)
    requires Free(sp, IsColon)
    ensures Events(sp).Words? ==> AllProper(Events(sp).words)
    decreases |sp|
  {
    hide Scan;
    var w := Scan(sp);
    ScanFree(sp, IsColon);
    if w != "" && |w| + 1 <= |sp| {
      EventsProper(sp[|w| + 1..]);
    }
  }

  lemma ClassProper(tok: string)
    requires Free(tok, IsColon)
    ensures ClassOf(tok).Words? ==> AllProper(ClassOf(tok).words) && ClassOf(tok).words != []
    ensures ClassOf(tok).Words? ==> ClassOf(tok).words[0].Class?
  {
    hide Scan;
    var w := Scan(tok);
    ScanFree(tok, IsColon);
    if w != "" && |w| + 1 <= |tok| {
      EventsProper(tok[|w| + 1..]);
    }
  }

  lemma {:induction false} ClassesProper(toks: seq<string>)
    requires forall i :: 0 <= i < |toks| ==> Free(toks[i], IsColon)
    ensures var r := ClassesOf(toks);
      r.Words? ==> AllProper(r.words) && (r.words != [] ==> r.words[0].Class?)
  {
    hide ClassOf;
    if toks != [] {
      ClassProper(toks[0]);
      ClassesProper(toks[1..]);
    }
  }

  /** The words behind the first, to the end of the map. */
  function Tail(words: seq<Word>): string {
    if words == [] then ":" else (if words[0].Event? then "" else ":") + words[0].name + " " + Tail(words[1..])
  }

  /** The same from the end. */
  function TailFront(words: seq<Word>): string {
    if words == [] then "" else TailFront(words[..|words| - 1]) + WordText(words[|words| - 1], false)
  }

  lemma {:induction false} TailCons(words: seq<Word>)
    requires words != []
    ensures TailFront(words) == WordText(words[0], false) + TailFront(words[1..])
    decreases |words|
  {
    var init, tail := words[..|words| - 1], words[1..];
    FrontSnoc(words);
    if init == [] {
      assert TailFront(init) == "" && TailFront(tail) == "";
    } else {
      hide *;
      TailCons(init);
      FrontSnoc(tail);
      assert init[1..] == tail[..|tail| - 1];
      Join3(WordText(words[0], false), TailFront(init[1..]), WordText(words[|words| - 1], false));
    }
  }

  lemma TailStep(words: seq<Word>)
    requires words != []
    ensures Tail(words) == WordText(words[0], false) + Tail(words[1..])
  {
    hide Tail;
    var w, t := words[0], Tail(words[1..]);
    assert WordText(w, false) + t == (if w.Event? then "" else ":") + w.name + " " + t;
    TailUnfolds(words);
  }

  lemma TailUnfolds(words: seq<Word>)
    requires words != []
    ensures Tail(words) == (if words[0].Event? then "" else ":") + words[0].name + " " + Tail(words[1..])
  {
  }

  lemma {:induction false} TailIs(words: seq<Word>)
    ensures TailFront(words) + ":" == Tail(words)
  {
    if words != [] {
      TailCons(words);
      TailIs(words[1..]);
      TailStep(words);
      hide *;
      var w, t := WordText(words[0], false), TailFront(words[1..]);
      assert w + t + ":" == w + (t + ":");
    }
  }

  lemma FrontSnoc(words: seq<Word>)
    requires words != []
    ensures TailFront(words) == TailFront(words[..|words| - 1]) + WordText(words[|words| - 1], false)
  {
  }

  lemma TextSnoc(words: seq<Word>)
    requires |words| > 1 && words[0].Class?
    ensures WordsText(words) == WordsText(words[..|words| - 1]) + WordText(words[|words| - 1], false)
  {
    var init := words[..|words| - 1];
    assert init[0].Class? && !NoClass(init);
  }

  lemma OneWordText(w: Word)
    requires w.Class?
    ensures WordsText([w]) == w.name + " " && TailFront([]) == ""
  {
    assert [w][..0] == [] && NoClass([]) && WordsText([]) == "";
    assert WordText(w, true) == "" + w.name + " ";
  }

  lemma {:induction false} WordsFront(words: seq<Word>)
    requires words != [] && words[0].Class?
    ensures WordsText(words) == words[0].name + " " + TailFront(words[1..])
    decreases |words|
  {
    hide *;
    OneWordText(words[0]);
    if |words| == 1 {
      assert words == [words[0]] && words[1..] == [];
      NothingBehind(words[0].name + " ");
    } else {
      var init, tail := words[..|words| - 1], words[1..];
      WordsFront(init);
      TextSnoc(words);
      FrontSnoc(tail);
      assert init[1..] == tail[..|tail| - 1];
      Join3(words[0].name + " ", TailFront(init[1..]), WordText(words[|words| - 1], false));
    }
  }

  lemma NothingBehind(s: string)
    ensures s + "" == s
  {
  }

  /** How many events lead. */
  function EventSpan(words: seq<Word>): (k: nat)
    ensures k <= |words| && (k < |words| ==> words[k].Class?)
  {
    if words == [] || words[0].Class? then 0 else 1 + EventSpan(words[1..])
  }

  predicate AllEvents(words: seq<Word>) {
    forall i :: 0 <= i < |words| ==> words[i].Event?
  }

  lemma {:induction false} SpanEvents(words: seq<Word>)
    ensures AllEvents(words[..EventSpan(words)])
  {
    if words != [] && words[0].Event? {
      SpanEvents(words[1..]);
      var k := EventSpan(words[1..]);
      assert words[..k + 1] == [words[0]] + words[1..][..k];
    }
  }

  lemma ProperParts(words: seq<Word>, i: nat, j: nat)
    requires i <= j <= |words| && AllProper(words)
    ensures AllProper(words[i..j])
  {
  }

  function EventsText(evs: seq<Word>): string {
    if evs == [] then "" else evs[0].name + " " + EventsText(evs[1..])
  }

  /** From a class on, to the end of the map. */
  function FromClass(words: seq<Word>): string {
    if words == [] then "" else words[0].name + " " + Tail(words[1..])
  }

  lemma EventsUnfold(evs: seq<Word>)
    requires evs != []
    ensures EventsText(evs) == evs[0].name + " " + EventsText(evs[1..])
  {
  }

  lemma OneMoreEvent(words: seq<Word>)
    requires words != [] && words[0].Event?
    ensures EventSpan(words) == EventSpan(words[1..]) + 1
  {
  }

  lemma EventsCons(words: seq<Word>)
    requires words != [] && words[0].Event?
    ensures var k := EventSpan(words[1..]);
      EventSpan(words) == k + 1 && words[k + 1..] == words[1..][k..] &&
      EventsText(words[..k + 1]) == words[0].name + " " + EventsText(words[1..][..k])
  {
    hide *;
    OneMoreEvent(words);
    var k := EventSpan(words[1..]);
    EventsUnfold(words[..k + 1]);
    assert words[..k + 1][1..] == words[1..][..k];
  }

  lemma NoEvents(words: seq<Word>)
    requires words == [] || words[0].Class?
    ensures EventSpan(words) == 0 && EventsText(words[..0]) == "" && Tail(words) == ":" + FromClass(words)
  {
    if words != [] {
      TailUnfolds(words);
      hide Tail;
      Join3(":", words[0].name + " ", Tail(words[1..]));
      assert ":" + words[0].name + " " == ":" + (words[0].name + " ");
    }
  }

  lemma {:induction false} TailAt(words: seq<Word>)
    ensures Tail(words) == EventsText(words[..EventSpan(words)]) + (":" + FromClass(words[EventSpan(words)..]))
  {
    hide *;
    if words != [] && words[0].Event? {
      TailAt(words[1..]);
      EventsCons(words);
      TailUnfolds(words);
      var k := EventSpan(words[1..]);
      Join3(words[0].name + " ", EventsText(words[1..][..k]), ":" + FromClass(words[k + 1..]));
      assert "" + words[0].name == words[0].name;
    } else {
      NoEvents(words);
      assert words[0..] == words;
      assert "" + (":" + FromClass(words)) == ":" + FromClass(words);
    }
  }

  lemma EventsHead(e: string, rest: string)
    requires Proper(e)
    ensures Events(e + " " + rest) == Ahead(Event(e), Events(rest))
  {
    assert e + " " + rest == e + (" " + rest);
    ScanOf(e, " " + rest);
    assert (e + " " + rest)[|e| + 1..] == rest;
  }

  lemma {:induction false} EventsBack(evs: seq<Word>)
    requires AllProper(evs) && AllEvents(evs)
    ensures Events(EventsText(evs)) == Words(evs) && Free(EventsText(evs), IsColon)
  {
    if evs == [] {
      assert Span("", NotSpace) == 0;
    } else {
      assert AllEvents(evs[1..]) && AllProper(evs[1..]) && Proper(evs[0].name) && evs[0].Event?;
      hide *;
      EventsBack(evs[1..]);
      EventsUnfold(evs);
      EventsHead(evs[0].name, EventsText(evs[1..]));
      EventsJoin(evs);
      FreeJoin(evs[0].name, EventsText(evs[1..]));
    }
  }

  lemma EventsJoin(evs: seq<Word>)
    requires evs != [] && evs[0].Event?
    ensures Ahead(Event(evs[0].name), Words(evs[1..])) == Words(evs)
  {
    assert [Event(evs[0].name)] + evs[1..] == evs;
  }

  lemma FreeJoin(e: string, rest: string)
    requires Proper(e) && Free(rest, IsColon)
    ensures Free(e + " " + rest, IsColon)
  {
  }

  lemma ClassHead(c: string, rest: string)
    requires Proper(c)
    ensures ClassOf(c + " " + rest) == Ahead(Class(c), Events(rest))
  {
    hide Events;
    assert c + " " + rest == c + (" " + rest);
    ScanOf(c, " " + rest);
    assert (c + " " + rest)[|c| + 1..] == rest;
  }

  lemma ClassBack(c: Word, evs: seq<Word>)
    requires c.Class? && Proper(c.name) && AllProper(evs) && AllEvents(evs)
    ensures var x := c.name + " " + EventsText(evs);
      ClassOf(x) == Words([c] + evs) && Free(x, IsColon) && x != ""
  {
    hide Events;
    hide ClassOf;
    hide Proper;
    hide Free;
    hide AllProper;
    hide AllEvents;
    EventsBack(evs);
    ClassHead(c.name, EventsText(evs));
    FreeJoin(c.name, EventsText(evs));
  }

  lemma NoWords()
    ensures ClassesOf(Tokens(FromClass([]))) == Words([])
  {
    NoTokens();
  }

  lemma {:induction false} ClassesBack(words: seq<Word>)
    requires AllProper(words) && (words != [] ==> words[0].Class?)
    ensures ClassesOf(Tokens(FromClass(words))) == Words(words)
    decreases |words|
  {
    hide *;
    if words == [] {
      NoWords();
    } else {
      var k := 1 + EventSpan(words[1..]);
      NextClass(words, k);
      ClassesBack(words[k..]);
      FirstClass(words);
      BothWords(words[..k], words[k..]);
      assert words[..k] + words[k..] == words;
    }
  }

  lemma NextClass(words: seq<Word>, k: nat)
    requires AllProper(words) && words != [] && k == 1 + EventSpan(words[1..])
    ensures AllProper(words[k..]) && (words[k..] != [] ==> words[k..][0].Class?)
  {
    hide EventSpan;
    assert k < |words| ==> words[k] == words[1..][k - 1];
  }

  lemma FromUnfold(words: seq<Word>)
    requires words != []
    ensures FromClass(words) == words[0].name + " " + Tail(words[1..])
  {
    hide Tail;
  }

  lemma FirstProper(words: seq<Word>)
    requires words != [] && AllProper(words)
    ensures Proper(words[0].name)
  {
  }

  lemma FirstClass(words: seq<Word>)
    requires AllProper(words) && words != [] && words[0].Class?
    ensures var k := 1 + EventSpan(words[1..]);
      ClassesOf(Tokens(FromClass(words))) == Both(Words(words[..k]), ClassesOf(Tokens(FromClass(words[k..]))))
  {
    hide *;
    var c, tail := words[0], words[1..];
    var k := EventSpan(tail);
    FirstProper(words);
    ProperParts(words, 1, 1 + k);
    assert tail[..k] == words[1..1 + k];
    SpanEvents(tail);
    TailAt(tail);
    FromUnfold(words);
    OneToken(c, tail[..k], FromClass(tail[k..]));
    assert [c] + tail[..k] == words[..1 + k] && tail[k..] == words[1 + k..];
  }

  lemma OneToken(c: Word, evs: seq<Word>, t: string)
    requires c.Class? && Proper(c.name) && AllProper(evs) && AllEvents(evs)
    ensures ClassesOf(Tokens(c.name + " " + (EventsText(evs) + (":" + t)))) ==
            Both(Words([c] + evs), ClassesOf(Tokens(t)))
  {
    hide *;
    ClassBack(c, evs);
    var x := c.name + " " + EventsText(evs);
    Join3(c.name + " ", EventsText(evs), ":" + t);
    TokensCons(x, t);
    OneClass(x, Tokens(t));
  }

  lemma BothWords(a: seq<Word>, b: seq<Word>)
    ensures Both(Words(a), Words(b)) == Words(a + b)
  {
  }

  lemma OneClass(x: string, toks: seq<string>)
    ensures ClassesOf([x] + toks) == Both(ClassOf(x), ClassesOf(toks))
  {
    assert ([x] + toks)[1..] == toks;
  }

  lemma NoClasses()
    ensures ClassesOf(Tokens(":")) == Words([])
  {
    ColonSkipped("");
    assert ":" + "" == ":";
    NoTokens();
  }

  /** Classes and events are read back exactly when no name holds a blank or colon, or is empty, and no
      event stands before the first class. */
  lemma ClassesLoad(words: seq<Word>)
    ensures ClassesOf(Tokens(WordsText(words) + ":")) == Words(words) <==>
            AllProper(words) && (words != [] ==> words[0].Class?)
  {
    hide Tokens;
    hide ClassesOf;
    hide Proper;
    hide Tail;
    hide TailFront;
    var toks := Tokens(WordsText(words) + ":");
    forall i | 0 <= i < |toks|
      ensures Free(toks[i], IsColon)
    {
      TokensFree(WordsText(words) + ":", i);
    }
    ClassesProper(toks);
    if AllProper(words) && (words != [] ==> words[0].Class?) {
      if words == [] {
        NoClasses();
        assert "" + ":" == ":";
      } else {
        WordsFront(words);
        TailIs(words[1..]);
        ClassesBack(words);
        hide WordsText;
        Join3(words[0].name + " ", TailFront(words[1..]), ":");
      }
    }
  }

  // ----- The file map -------------------------------------------------------------------------------

  /** A number in 32 bits. */
  function Wrap(n: int): int32 {
    (n + 0x8000_0000) % 0x1_0000_0000 - 0x8000_0000
  }

  /** atoi and atol: zero if there is no number. */
  function Atol(s: string): int32 {
    var r := ScanNumber(s);
    if r.NoNumber? then 0 else Wrap(r.n)
  }

  datatype PrivSet = PrivSet(mask: nat, count: nat, name: string)

  datatype Sets = Sets(sets: seq<PrivSet>, rest: string) | NoSets

  /** n sets of three strings each. */
  function LoadSets(s: string, n: nat): Sets
    decreases n
  {
    if n == 0 then Sets([], s)
    else if !Ends(s) then NoSets
    else
      var mask := CString(s);
      var s1 := s[|mask| + 1..];
      if !Ends(s1) then NoSets
      else
        var count := CString(s1);
        var s2 := s1[|count| + 1..];
        if !Ends(s2) then NoSets
        else
          var name := CString(s2);
          SetAhead(PrivSet(Unsigned(Atol(mask)), Unsigned(Atol(count)), name), LoadSets(s2[|name| + 1..], n - 1))
  }

  function SetAhead(p: PrivSet, r: Sets): Sets {
    if r.NoSets? then NoSets else Sets([p] + r.sets, r.rest)
  }

  /** What a map is taken for.  Astray stands for reading on behind what was put there for it. */
  datatype Loaded =
    | Env(version: string, gmtsecoff: int32, sets: seq<PrivSet>, mach: string)
    | Table(type_: nat, items: seq<Item>)
    | Aliases(words: seq<Word>)
    | Astray

  function LoadEnv(s: string): Loaded {
    if |s| < ADT_VERLEN || !Ends(s[ADT_VERLEN..]) then Astray
    else
      var s1 := s[ADT_VERLEN..];
      var tz := CString(s1);
      var s2 := s1[|tz| + 1..];
      if !Ends(s2) then Astray
      else
        var nsets := CString(s2);
        var n := Atol(nsets);
        var r := LoadSets(s2[|nsets| + 1..], if n < 0 then 0 else n);
        if r.NoSets? || !Ends(r.rest) then Astray
        else Env(CString(s[..ADT_VERLEN]), Atol(tz), r.sets, CString(r.rest))
  }

  lemma WrapIs(n: int, k: int32)
    requires n == k || n == k + 0x1_0000_0000 || n == k - 0x1_0000_0000
    ensures Wrap(n) == k
  {
  }

  /** The zone is read as it was, although it is written as an unsigned number behind its sign. */
  lemma ZoneBack(off: int32)
    ensures Atol(TzText(off)) == off
  {
    hide LongText;
    hide ScanNumber;
    if off < 0 {
      NumberBack(Unsigned(off));
      LongIs(Unsigned(off));
      WrapIs(Unsigned(off), off);
    } else {
      var n: int := Unsigned(-off);
      if n == 0 {
        MinusZero();
      } else {
        NumberBack(0 - n);
        LongMinus(n);
      }
      WrapIs(0 - n, off);
    }
  }

  lemma LongIs(n: nat)
    ensures LongText(n) == Dec(n)
  {
  }

  lemma LongMinus(n: nat)
    requires n > 0
    ensures LongText(0 - n) == "-" + Dec(n)
  {
  }

  lemma MinusZero()
    ensures ScanNumber("-" + Dec(0)) == Read(0)
  {
    DigitsBack(0);
    var t := "-" + Dec(0);
    NoSpaces(t);
    assert t[1..] == Dec(0);
  }

  lemma NumberField(n: nat)
    requires n < 0x1_0000_0000
    ensures Unsigned(Atol(Dec(n))) == n && Free(Dec(n), IsNul)
  {
    hide LongText;
    hide ScanNumber;
    NumberBack(n);
    LongIs(n);
    LongFree(n);
    WrapIs(n, if n < 0x8000_0000 then n else n - 0x1_0000_0000);
  }

  /** The sets that are in the map. */
  function Kept(sets: seq<Set>): seq<PrivSet> {
    if sets == [] then [] else KeptOne(sets[0]) + Kept(sets[1..])
  }

  function KeptOne(s: Set): seq<PrivSet> {
    if s.file then [PrivSet(s.mask, s.count, s.name)] else []
  }

  lemma SetsSnoc(sets: seq<Set>)
    requires sets != []
    ensures SetsText(sets) == SetsText(sets[..|sets| - 1]) + SetText(sets[|sets| - 1])
    ensures FileSets(sets) == FileSets(sets[..|sets| - 1]) + if sets[|sets| - 1].file then 1 else 0
  {
  }

  lemma {:induction false} SetsFront(sets: seq<Set>)
    requires sets != []
    ensures SetsText(sets) == SetText(sets[0]) + SetsText(sets[1..])
    ensures FileSets(sets) == (if sets[0].file then 1 else 0) + FileSets(sets[1..])
    decreases |sets|
  {
    var init, tail := sets[..|sets| - 1], sets[1..];
    SetsSnoc(sets);
    if init == [] {
      assert SetsText(init) == "" && SetsText(tail) == "" && FileSets(init) == 0 == FileSets(tail);
    } else {
      hide *;
      SetsFront(init);
      SetsSnoc(tail);
      assert init[1..] == tail[..|tail| - 1];
      Join3(SetText(sets[0]), SetsText(init[1..]), SetText(sets[|sets| - 1]));
    }
  }

  /** A number below 2 to the 32nd, and strings as C has them. */
  predicate SetOk(s: Set) {
    s.mask < 0x1_0000_0000 && s.count < 0x1_0000_0000 && Free(s.name, IsNul)
  }

  predicate SetsOk(sets: seq<Set>) {
    forall i :: 0 <= i < |sets| ==> SetOk(sets[i])
  }

  lemma OneSet(s: Set, t: string, n: nat)
    requires SetOk(s)
    ensures LoadSets(Dec(s.mask) + (NUL + (Dec(s.count) + (NUL + (s.name + (NUL + t))))), n + 1) ==
            SetAhead(PrivSet(s.mask, s.count, s.name), LoadSets(t, n))
  {
    hide Dec;
    hide Atol;
    hide CString;
    hide Ends;
    NumberField(s.mask);
    NumberField(s.count);
    var s2 := s.name + (NUL + t);
    var s1 := Dec(s.count) + (NUL + s2);
    NulEnds(s.name, t);
    NulEnds(Dec(s.count), s2);
    NulEnds(Dec(s.mask), s1);
  }

  lemma SetRegroup(s: Set, t: string)
    requires s.file
    ensures SetText(s) + t == Dec(s.mask) + (NUL + (Dec(s.count) + (NUL + (s.name + (NUL + t)))))
  {
    hide Dec;
    var a, b, c := Dec(s.mask), Dec(s.count), s.name;
    Join3(a + NUL + b + NUL + c, NUL, t);
    Join3(a + NUL + b + NUL, c, NUL + t);
    Join3(a + NUL + b, NUL, c + (NUL + t));
    Join3(a + NUL, b, NUL + (c + (NUL + t)));
    Join3(a, NUL, b + (NUL + (c + (NUL + t))));
  }

  lemma SetStep(s: Set, t: string, n: nat, kept: seq<PrivSet>, rest: string)
    requires SetOk(s) && LoadSets(t, n) == Sets(kept, rest)
    ensures s.file ==> LoadSets(SetText(s) + t, n + 1) == Sets(KeptOne(s) + kept, rest)
    ensures !s.file ==> LoadSets(SetText(s) + t, n) == Sets(KeptOne(s) + kept, rest)
  {
    if s.file {
      assert KeptOne(s) == [PrivSet(s.mask, s.count, s.name)];
      hide *;
      SetRegroup(s, t);
      OneSet(s, t, n);
      AheadOf(PrivSet(s.mask, s.count, s.name), kept, rest);
    } else {
      NotKept(s);
      hide *;
      NothingFront(t);
      assert [] + kept == kept;
    }
  }

  lemma AheadOf(p: PrivSet, kept: seq<PrivSet>, rest: string)
    ensures SetAhead(p, Sets(kept, rest)) == Sets([p] + kept, rest)
  {
  }

  lemma NotKept(s: Set)
    requires !s.file
    ensures SetText(s) == "" && KeptOne(s) == []
  {
  }

  lemma NothingFront(s: string)
    ensures "" + s == s
  {
  }

  lemma KeptFront(sets: seq<Set>)
    requires sets != []
    ensures Kept(sets) == KeptOne(sets[0]) + Kept(sets[1..])
  {
  }

  lemma NoSet(rest: string)
    ensures LoadSets(SetsText([]) + rest, FileSets([])) == Sets(Kept([]), rest)
  {
    assert "" + rest == rest;
  }

  lemma SetsOkTail(sets: seq<Set>)
    requires SetsOk(sets) && sets != []
    ensures SetOk(sets[0]) && SetsOk(sets[1..])
  {
  }

  lemma SetsStep(sets: seq<Set>, rest: string)
    requires sets != [] && SetOk(sets[0])
    requires LoadSets(SetsText(sets[1..]) + rest, FileSets(sets[1..])) == Sets(Kept(sets[1..]), rest)
    ensures LoadSets(SetsText(sets) + rest, FileSets(sets)) == Sets(Kept(sets), rest)
  {
    hide *;
    var s, tail := sets[0], sets[1..];
    SetsFront(sets);
    KeptFront(sets);
    Join3(SetText(s), SetsText(tail), rest);
    SetStep(s, SetsText(tail) + rest, FileSets(tail), Kept(tail), rest);
  }

  lemma {:induction false} SetsBack(sets: seq<Set>, rest: string)
    requires SetsOk(sets)
    ensures LoadSets(SetsText(sets) + rest, FileSets(sets)) == Sets(Kept(sets), rest)
  {
    hide *;
    if sets == [] {
      NoSet(rest);
    } else {
      SetsOkTail(sets);
      SetsBack(sets[1..], rest);
      SetsStep(sets, rest);
    }
  }

  /** A map as it comes from the system: C strings, a number of sets that is an int, and a version of
      ADT_VERLEN characters, of which those behind its text are NULs. */
  predicate FromC(m: Map)
    requires MapOk(m)
  {
    match m
    case File(v, off, sets, host) =>
      && SetsOk(sets) && FileSets(sets) < 0x8000_0000
      && (forall i :: 0 <= i < |host| ==> Free(host[i], IsNul))
    case Ids(_, entries) => forall i :: 0 <= i < |entries| ==> Free(entries[i].name, IsNul)
    case Classes(words) => forall i :: 0 <= i < |words| ==> Free(words[i].name, IsNul)
  }

  lemma HostFree(host: seq<string>)
    requires |host| == 5 && forall i :: 0 <= i < |host| ==> Free(host[i], IsNul)
    ensures Free(HostText(host), IsNul)
  {
  }

  lemma ZoneFree(off: int32)
    ensures Free(TzText(off), IsNul)
  {
    NumberField(Unsigned(off));
    NumberField(Unsigned(if off < 0 then 0 else -off));
  }

  lemma CountBack(n: nat)
    requires n < 0x8000_0000
    ensures Atol(Dec(n)) == n && Free(Dec(n), IsNul)
  {
    hide LongText;
    hide ScanNumber;
    NumberBack(n);
    LongIs(n);
    LongFree(n);
    WrapIs(n, n);
  }

  /** The file map is read back as it was, the version as a C string. */
  lemma EnvBack(m: Map, rest: string)
    requires m.File? && MapOk(m) && FromC(m)
    ensures LoadEnv(Data(m) + (NUL + rest)) ==
            Env(CString(m.version), m.gmtsecoff, Kept(m.sets), HostText(m.host))
  {
    var v, tz, n, host := m.version, TzText(m.gmtsecoff), FileSets(m.sets), HostText(m.host);
    var s5 := host + (NUL + rest);
    var s3 := SetsText(m.sets) + s5;
    var s2 := Dec(n) + (NUL + s3);
    var s1 := tz + (NUL + s2);
    DataRegroup(m, rest);
    HostFree(m.host);
    ZoneFree(m.gmtsecoff);
    ZoneBack(m.gmtsecoff);
    CountBack(n);
    SetsBack(m.sets, s5);
    hide *;
    NulEnds(tz, s2);
    NulEnds(Dec(n), s3);
    NulEnds(host, rest);
    EnvParts(v, s1, tz, s2, Dec(n), s3, s5, Kept(m.sets), host);
  }

  /** A version as systems have it, padded with NULs, and what is read back of it. */
  lemma PaddedVersion()
    ensures var v := "4.0\0\0\0\0\0";
      |v| == ADT_VERLEN && CString(v) == "4.0" &&
      FromC(File(v, -3600, [], ["UNIX_SV", "unix", "4.2", "2.1", "i386"]))
  {
    var v := "4.0\0\0\0\0\0";
    assert v == "4.0" + (NUL + "\0\0\0\0");
    NulEnds("4.0", "\0\0\0\0");
  }

  lemma DataRegroup(m: Map, rest: string)
    requires m.File? && MapOk(m)
    ensures Data(m) + (NUL + rest) == m.version + (TzText(m.gmtsecoff) + (NUL + (Dec(FileSets(m.sets)) +
              (NUL + (SetsText(m.sets) + (HostText(m.host) + (NUL + rest)))))))
  {
    hide Dec;
    hide TzText;
    hide FileSets;
    hide SetsText;
    hide HostText;
    var a, b, c, d, e := m.version, TzText(m.gmtsecoff), Dec(FileSets(m.sets)), SetsText(m.sets), HostText(m.host);
    var t := NUL + rest;
    Join3(a + b + NUL + c + NUL + d, e, t);
    Join3(a + b + NUL + c + NUL, d, e + t);
    Join3(a + b + NUL + c, NUL, d + (e + t));
    Join3(a + b + NUL, c, NUL + (d + (e + t)));
    Join3(a + b, NUL, c + (NUL + (d + (e + t))));
    Join3(a, b, NUL + (c + (NUL + (d + (e + t)))));
  }

  lemma EnvParts(v: string, s1: string, tz: string, s2: string, count: string, s3: string, s5: string,
                 sets: seq<PrivSet>, host: string)
    requires |v| == ADT_VERLEN
    requires Ends(s1) && CString(s1) == tz && s1[|tz| + 1..] == s2
    requires Ends(s2) && CString(s2) == count && s2[|count| + 1..] == s3
    requires Atol(count) >= 0 && LoadSets(s3, Atol(count)) == Sets(sets, s5) && Ends(s5) && CString(s5) == host
    ensures LoadEnv(v + s1) == Env(CString(v), Atol(tz), sets, host)
  {
    hide CString;
    hide Ends;
    hide LoadSets;
    hide Atol;
    assert (v + s1)[..ADT_VERLEN] == v && (v + s1)[ADT_VERLEN..] == s1;
  }

  // ----- The whole file -----------------------------------------------------------------------------

  predicate IsTable(type_: nat) {
    type_ == A_IDMAP || type_ == A_GIDMAP || type_ == A_PRIVMAP || type_ == A_TYPEMAP || type_ == A_SYSMAP
  }

  predicate Known(type_: nat, fileid: nat) {
    type_ == A_FILEID || type_ == fileid || IsTable(type_) || type_ == A_CLASSMAP
  }

  /** What is made of the map whose data starts here. */
  function LoadOne(type_: nat, s: string): Loaded {
    if IsTable(type_) then
      if Ends(s) then Table(type_, Items(Tokens(CString(s)))) else Astray
    else if type_ == A_CLASSMAP then
      var r := ClassesOf(Tokens(CString(s)));
      if Ends(s) && r.Words? then Aliases(r.words) else Astray
    else LoadEnv(s)
  }

  datatype Outcome = Maps(maps: seq<Loaded>) | BadMap

  function Before(m: Loaded, r: Outcome): Outcome {
    if r.Maps? then Maps([m] + r.maps) else BadMap
  }

  /** A map need not lie within the size in its header: that is only where the next one is looked for. */
  function LoadMaps(s: string, fileid: nat): Outcome
    decreases |s|
  {
    if s == "" then Maps([])
    else
      var h := HeadingOf(s);
      if h.NoHeading? || !Known(h.type_, fileid) then BadMap
      else
        var next := if h.size < |h.rest| then h.rest[h.size..] else "";
        Before(LoadOne(h.type_, h.rest), LoadMaps(next, fileid))
  }

  function LoadFile(s: string, fileid: nat): Outcome {
    var h := HeadingOf(s);
    if h.NoHeading? || h.type_ != A_TBL || h.size > |h.rest| then BadMap else LoadMaps(h.rest[..h.size], fileid)
  }

  /** What a reader should make of a map. */
  function LoadedOf(m: Map): Loaded
    requires MapOk(m)
  {
    match m
    case File(v, off, sets, host) => Env(CString(v), off, Kept(sets), HostText(host))
    case Ids(t, entries) => Table(t, ItemsOf(entries))
    case Classes(words) => Aliases(words)
  }

  function LoadedAll(maps: seq<Map>): seq<Loaded>
    requires MapsOk(maps)
  {
    if maps == [] then [] else LoadedAll(maps[..|maps| - 1]) + [LoadedOf(maps[|maps| - 1])]
  }

  /** The names of a map can be told apart, and no event stands before the first class. */
  predicate Tellable(m: Map) {
    match m
    case File(_, _, _, _) => true
    case Ids(_, entries) => ProperNames(entries)
    case Classes(words) => AllProper(words) && (words != [] ==> words[0].Class?)
  }

  /** The types by which the reader tells the maps. */
  predicate Typed(m: Map, fileid: nat) {
    && !IsTable(fileid) && fileid != A_CLASSMAP
    && (m.Ids? ==> IsTable(m.type_))
  }

  lemma {:induction false} IdsFree(entries: seq<Entry>)
    requires forall i :: 0 <= i < |entries| ==> Free(entries[i].name, IsNul)
    ensures Free(IdsText(entries), IsNul)
  {
    if entries != [] {
      IdsFree(entries[..|entries| - 1]);
      var e := entries[|entries| - 1];
      LongFree(e.id);
      hide LongText;
      assert Free(EntryText(e), IsNul);
    }
  }

  lemma {:induction false} WordsFree(words: seq<Word>)
    requires forall i :: 0 <= i < |words| ==> Free(words[i].name, IsNul)
    ensures Free(WordsText(words), IsNul)
  {
    if words != [] {
      WordsFree(words[..|words| - 1]);
      var t := WordText(words[|words| - 1], NoClass(words[..|words| - 1]));
      assert Free(words[|words| - 1].name, IsNul) && Free(t, IsNul);
    }
  }

  lemma DataFree(m: Map)
    requires MapOk(m) && FromC(m) && !m.File?
    ensures Free(Data(m), IsNul)
  {
    if m.Ids? {
      IdsFree(m.entries);
    } else {
      WordsFree(m.words);
    }
  }

  /** Whatever is behind its NUL, a map is loaded as it was exactly when its names can be told apart. */
  lemma OneLoads(m: Map, fileid: nat, rest: string)
    requires MapOk(m) && FromC(m) && Typed(m, fileid)
    ensures LoadOne(TypeOf(m, fileid), Data(m) + (NUL + rest)) == LoadedOf(m) <==> Tellable(m)
  {
    hide Tokens;
    hide Ends;
    hide CString;
    hide Items;
    hide ItemsOf;
    hide ClassesOf;
    hide LoadEnv;
    hide FromC;
    if m.File? {
      EnvBack(m, rest);
    } else {
      DataFree(m);
      NulEnds(Data(m), rest);
      if m.Ids? {
        IdsLoad(m.entries);
      } else {
        ClassesLoad(m.words);
      }
    }
  }

  lemma LoadHeader(type_: nat, size: nat, data: string, fileid: nat)
    requires Known(type_, fileid)
    ensures LoadMaps(Header(type_, size) + data, fileid) ==
            Before(LoadOne(type_, data), LoadMaps(if size < |data| then data[size..] else "", fileid))
  {
    hide HeadingOf;
    hide Header;
    hide LoadOne;
    hide Known;
    ReadHeader(type_, size, data);
    HeaderNotEmpty(type_, size);
  }

  lemma NothingToLoad(fileid: nat)
    ensures LoadMaps("", fileid) == Maps([])
  {
  }

  /** What is made of a map by itself. */
  function Taken(m: Map, fileid: nat): Loaded
    requires MapOk(m)
  {
    LoadOne(TypeOf(m, fileid), Data(m) + NUL)
  }

  function TakenAll(maps: seq<Map>, fileid: nat): seq<Loaded>
    requires MapsOk(maps)
  {
    if maps == [] then [] else TakenAll(maps[..|maps| - 1], fileid) + [Taken(maps[|maps| - 1], fileid)]
  }

  lemma NulStops(m: Map, fileid: nat, rest: string)
    requires MapOk(m) && FromC(m) && Typed(m, fileid)
    ensures LoadOne(TypeOf(m, fileid), Data(m) + (NUL + rest)) == Taken(m, fileid)
  {
    hide Tokens;
    hide Ends;
    hide CString;
    hide Items;
    hide ClassesOf;
    hide LoadEnv;
    hide FromC;
    NothingBehind(NUL);
    if m.File? {
      EnvBack(m, rest);
      EnvBack(m, "");
    } else {
      DataFree(m);
      NulEnds(Data(m), rest);
      NulEnds(Data(m), "");
    }
  }

  lemma TypeKnown(m: Map, fileid: nat)
    requires Typed(m, fileid)
    ensures Known(TypeOf(m, fileid), fileid)
  {
  }

  function Behind(ms: seq<Loaded>, r: Outcome): Outcome {
    if r.Maps? then Maps(ms + r.maps) else BadMap
  }

  lemma BehindOne(ms: seq<Loaded>, m: Loaded, r: Outcome)
    ensures Behind(ms, Before(m, r)) == Behind(ms + [m], r)
  {
    if r.Maps? {
      assert ms + ([m] + r.maps) == ms + [m] + r.maps;
    }
  }

  predicate AllTyped(maps: seq<Map>, fileid: nat)
    requires MapsOk(maps)
  {
    forall i :: 0 <= i < |maps| ==> FromC(maps[i]) && Typed(maps[i], fileid)
  }

  lemma MapTextIs(m: Map, fileid: nat, rest: string)
    requires MapOk(m) && Agree(m)
    ensures SizeOf(m) == |Data(m)| + 1
    ensures MapText(m, fileid) + rest == Header(TypeOf(m, fileid), SizeOf(m)) + (Data(m) + (NUL + rest))
  {
    hide Data;
    hide SizeOf;
    hide Header;
    hide TypeOf;
    var h, d := Header(TypeOf(m, fileid), SizeOf(m)), Data(m);
    Join3(h + d, NUL, rest);
    Join3(h, d, NUL + rest);
  }

  /** A map about which the passes agree, and the maps behind it. */
  lemma LoadNext(m: Map, fileid: nat, rest: string)
    requires MapOk(m) && FromC(m) && Typed(m, fileid) && Agree(m)
    ensures LoadMaps(MapText(m, fileid) + rest, fileid) == Before(Taken(m, fileid), LoadMaps(rest, fileid))
  {
    hide *;
    MapTextIs(m, fileid, rest);
    TypeKnown(m, fileid);
    LoadHeader(TypeOf(m, fileid), SizeOf(m), Data(m) + (NUL + rest), fileid);
    NulStops(m, fileid, rest);
    PastNul(Data(m), rest);
  }

  lemma PastNul(d: string, rest: string)
    ensures var s := d + (NUL + rest);
      (if |d| + 1 < |s| then s[|d| + 1..] else "") == rest
  {
  }

  lemma TypedInit(maps: seq<Map>, fileid: nat)
    requires MapsOk(maps) && maps != [] && AllTyped(maps, fileid)
    ensures var init, m := maps[..|maps| - 1], maps[|maps| - 1];
      MapsOk(init) && AllTyped(init, fileid) && MapOk(m) && FromC(m) && Typed(m, fileid)
  {
    hide FromC;
    hide Typed;
    hide MapOk;
    var init := maps[..|maps| - 1];
    assert forall i :: 0 <= i < |init| ==> init[i] == maps[i];
  }

  lemma AgreeInit(maps: seq<Map>)
    requires MapsOk(maps) && maps != [] && AllAgree(maps)
    ensures AllAgree(maps[..|maps| - 1]) && Agree(maps[|maps| - 1])
  {
    hide Agree;
  }

  lemma TextInit(maps: seq<Map>, fileid: nat)
    requires MapsOk(maps) && maps != []
    ensures var init, m := maps[..|maps| - 1], maps[|maps| - 1];
      && MapsText(maps, fileid) == MapsText(init, fileid) + MapText(m, fileid)
      && MapsSize(maps, fileid) == MapsSize(init, fileid) + SizeOf(m) + HeaderSize(SizeOf(m), TypeOf(m, fileid))
      && TakenAll(maps, fileid) == TakenAll(init, fileid) + [Taken(m, fileid)]
      && LoadedAll(maps) == LoadedAll(init) + [LoadedOf(m)]
  {
    hide MapText;
    hide SizeOf;
    hide TypeOf;
    hide Taken;
    hide LoadedOf;
    hide HeaderSize;
  }

  lemma NoMaps(fileid: nat, rest: string)
    ensures LoadMaps(MapsText([], fileid) + rest, fileid) ==
            Behind(TakenAll([], fileid), LoadMaps(rest, fileid))
  {
    hide LoadMaps;
    NothingFront(rest);
    var r := LoadMaps(rest, fileid);
    if r.Maps? {
      assert [] + r.maps == r.maps;
    }
  }

  /** Maps about which the passes agree are each taken for what they are by themselves. */
  lemma {:induction false} LoadsAgreed(maps: seq<Map>, fileid: nat, rest: string)
    requires MapsOk(maps) && AllTyped(maps, fileid) && AllAgree(maps)
    ensures LoadMaps(MapsText(maps, fileid) + rest, fileid) ==
            Behind(TakenAll(maps, fileid), LoadMaps(rest, fileid))
    decreases |maps|
  {
    hide *;
    if maps == [] {
      NoMaps(fileid, rest);
    } else {
      var init, m := maps[..|maps| - 1], maps[|maps| - 1];
      TypedInit(maps, fileid);
      AgreeInit(maps);
      TextInit(maps, fileid);
      Join3(MapsText(init, fileid), MapText(m, fileid), rest);
      LoadsAgreed(init, fileid, MapText(m, fileid) + rest);
      LoadNext(m, fileid, rest);
      BehindOne(TakenAll(init, fileid), Taken(m, fileid), LoadMaps(rest, fileid));
    }
  }

  predicate AllTellable(maps: seq<Map>) {
    forall i :: 0 <= i < |maps| ==> Tellable(maps[i])
  }

  lemma TellableInit(maps: seq<Map>)
    requires maps != []
    ensures AllTellable(maps) <==> AllTellable(maps[..|maps| - 1]) && Tellable(maps[|maps| - 1])
  {
    hide Tellable;
    var init := maps[..|maps| - 1];
    assert forall i :: 0 <= i < |init| ==> init[i] == maps[i];
  }

  lemma LastAlike(a: seq<Loaded>, x: Loaded, b: seq<Loaded>, y: Loaded)
    requires |a| == |b|
    ensures a + [x] == b + [y] <==> a == b && x == y
  {
    if a + [x] == b + [y] {
      assert (a + [x])[..|a|] == a && (b + [y])[..|a|] == b;
      assert (a + [x])[|a|] == x && (b + [y])[|a|] == y;
    }
  }

  lemma {:induction false} TakenLength(maps: seq<Map>, fileid: nat)
    requires MapsOk(maps)
    ensures |TakenAll(maps, fileid)| == |LoadedAll(maps)| == |maps|
  {
    hide Taken;
    hide LoadedOf;
    if maps != [] {
      TakenLength(maps[..|maps| - 1], fileid);
    }
  }

  lemma {:induction false} TakenIs(maps: seq<Map>, fileid: nat)
    requires MapsOk(maps) && AllTyped(maps, fileid)
    ensures TakenAll(maps, fileid) == LoadedAll(maps) <==> AllTellable(maps)
  {
    if maps != [] {
      hide *;
      var init, m := maps[..|maps| - 1], maps[|maps| - 1];
      TypedInit(maps, fileid);
      TakenIs(init, fileid);
      TextInit(maps, fileid);
      TellableInit(maps);
      TakenLength(init, fileid);
      OneTaken(m, fileid);
      LastAlike(TakenAll(init, fileid), Taken(m, fileid), LoadedAll(init), LoadedOf(m));
    }
  }

  lemma OneTaken(m: Map, fileid: nat)
    requires MapOk(m) && FromC(m) && Typed(m, fileid)
    ensures Taken(m, fileid) == LoadedOf(m) <==> Tellable(m)
  {
    hide LoadOne;
    hide LoadedOf;
    hide Tellable;
    NothingBehind(NUL);
    OneLoads(m, fileid, "");
  }

  /** The last map, cut or filled to the size computed for it. */
  lemma LastLoads(m: Map, fileid: nat)
    requires MapOk(m) && FromC(m) && Typed(m, fileid)
    ensures LoadOne(TypeOf(m, fileid), Fit(Data(m) + NUL, SizeOf(m))) == LoadedOf(m) <==>
            SizeOf(m) > |Data(m)| && Tellable(m)
  {
    var d, size := Data(m), SizeOf(m);
    if size > |d| {
      hide LoadOne;
      hide LoadedOf;
      hide Tellable;
      hide Data;
      hide SizeOf;
      hide FromC;
      FitBehind(d + NUL, "", size - |d| - 1);
      NothingBehind(d + NUL);
      var z := Fit("", size - |d| - 1);
      Join3(d, NUL, z);
      OneLoads(m, fileid, z);
    } else {
      CutOff(m, fileid);
    }
  }

  lemma CutOff(m: Map, fileid: nat)
    requires MapOk(m) && FromC(m) && Typed(m, fileid) && SizeOf(m) <= |Data(m)|
    ensures LoadOne(TypeOf(m, fileid), Fit(Data(m) + NUL, SizeOf(m))) == Astray
  {
    var d, size := Data(m), SizeOf(m);
    if m.File? {
      FileAgrees(m);
    }
    DataFree(m);
    hide Data;
    hide SizeOf;
    hide Tokens;
    hide Items;
    hide ClassesOf;
    hide FromC;
    assert (d + NUL)[..size] == d[..size];
    NoEnd(d[..size]);
  }

  lemma NoEnd(s: string)
    requires Free(s, IsNul)
    ensures !Ends(s)
  {
    NothingBehind(s);
    SpanOf(s, "", IsNul);
  }

  lemma PastTheHeader(x: string, fileid: nat)
    ensures LoadFile(Header(A_TBL, |x|) + x, fileid) == LoadMaps(x, fileid)
  {
    hide Header;
    hide HeadingOf;
    hide LoadMaps;
    ReadHeader(A_TBL, |x|, x);
    All(x);
  }

  /** The file up to the last map, which takes what is left. */
  lemma FileUpToLast(maps: seq<Map>, fileid: nat)
    requires MapsOk(maps) && maps != [] && AllAgree(maps[..|maps| - 1])
    ensures var init, m := maps[..|maps| - 1], maps[|maps| - 1];
      Fit(MapsText(maps, fileid), MapsSize(maps, fileid)) ==
      MapsText(init, fileid) + (Header(TypeOf(m, fileid), SizeOf(m)) + Fit(Data(m) + NUL, SizeOf(m)))
  {
    var init, m := maps[..|maps| - 1], maps[|maps| - 1];
    var h, size := Header(TypeOf(m, fileid), SizeOf(m)), SizeOf(m);
    assert |h| == HeaderSize(size, TypeOf(m, fileid)) && MapText(m, fileid) == h + Data(m) + NUL;
    hide *;
    TextInit(maps, fileid);
    TextsFit(init, fileid);
    var front := MapsText(init, fileid);
    Join3(h, Data(m), NUL);
    Join3(front, h, Data(m) + NUL);
    FitBehind(front + h, Data(m) + NUL, size);
    Join3(front, h, Fit(Data(m) + NUL, size));
  }

  /** When the passes agree about all maps but perhaps the last, the reader gets all entries, classes and
      settings back exactly when the last map has room for its NUL and all names can be told apart. */
  lemma LoadsBack(maps: seq<Map>, fileid: nat)
    requires MapsOk(maps) && maps != [] && AllTyped(maps, fileid) && AllAgree(maps[..|maps| - 1])
    ensures var last := maps[|maps| - 1];
      LoadFile(FileOf(maps, fileid), fileid) == Maps(LoadedAll(maps)) <==>
      SizeOf(last) > |Data(last)| && AllTellable(maps)
  {
    hide *;
    var init, m := maps[..|maps| - 1], maps[|maps| - 1];
    TypedInit(maps, fileid);
    var one := LoadOne(TypeOf(m, fileid), Fit(Data(m) + NUL, SizeOf(m)));
    FileSplit(maps, fileid);
    PastTheHeader(Fit(MapsText(maps, fileid), MapsSize(maps, fileid)), fileid);
    FileUpToLast(maps, fileid);
    LoadsAgreed(init, fileid, Header(TypeOf(m, fileid), SizeOf(m)) + Fit(Data(m) + NUL, SizeOf(m)));
    TypeKnown(m, fileid);
    LoadHeader(TypeOf(m, fileid), SizeOf(m), Fit(Data(m) + NUL, SizeOf(m)), fileid);
    NothingToLoad(fileid);
    OnlyOne(TakenAll(init, fileid), one);
    TextInit(maps, fileid);
    TakenLength(init, fileid);
    LastAlike(TakenAll(init, fileid), one, LoadedAll(init), LoadedOf(m));
    TakenIs(init, fileid);
    LastLoads(m, fileid);
    TellableInit(maps);
  }

  lemma OnlyOne(ms: seq<Loaded>, m: Loaded)
    ensures Behind(ms, Before(m, Maps([]))) == Maps(ms + [m])
  {
    assert [m] + [] == [m];
  }

  /** The seven maps: with the numbers of the first six as long as sized and some class defined, all is
      read back exactly when the numbers of the system calls take no more than sized and all names can be
      told apart. */
  lemma SevenLoad(file: Map, users: seq<Entry>, groups: seq<Entry>, words: seq<Word>, events: seq<Entry>,
                  privs: seq<Entry>, calls: seq<Entry>, fileid: nat)
    requires file.File? && MapOk(file) && MapsOk(SevenMaps(file, users, groups, words, events, privs, calls))
    requires AllTyped(SevenMaps(file, users, groups, words, events, privs, calls), fileid)
    requires !NoClass(words) && Excess(users) == 0 && Excess(groups) == 0 && Excess(events) == 0 && Excess(privs) == 0
    ensures var maps := SevenMaps(file, users, groups, words, events, privs, calls);
      LoadFile(FileOf(maps, fileid), fileid) == Maps(LoadedAll(maps)) <==> Excess(calls) <= 0 && AllTellable(maps)
  {
    var maps := SevenMaps(file, users, groups, words, events, privs, calls);
    hide MapOk;
    hide Agree;
    hide NoClass;
    hide Excess;
    hide Data;
    hide SizeOf;
    hide AllAgree;
    hide AllTyped;
    hide AllTellable;
    hide LoadedAll;
    hide LoadFile;
    hide FileOf;
    FileAgrees(file);
    IdsAgree(maps[1]);
    IdsAgree(maps[2]);
    ClassesAgree(maps[3]);
    IdsAgree(maps[4]);
    IdsAgree(maps[5]);
    LastFits(maps[6]);
    SixAgree(maps);
    LoadsBack(maps, fileid);
  }

  lemma LastFits(m: Map)
    requires m.Ids?
    ensures SizeOf(m) > |Data(m)| <==> Excess(m.entries) <= 0
  {
    IdsDiffer(m.entries);
  }

  lemma SixAgree(maps: seq<Map>)
    requires MapsOk(maps) && |maps| == 7
    requires Agree(maps[0]) && Agree(maps[1]) && Agree(maps[2]) && Agree(maps[3]) && Agree(maps[4]) && Agree(maps[5])
    ensures MapsOk(maps[..6]) && AllAgree(maps[..6])
  {
    hide Agree;
    hide MapOk;
    forall i | 0 <= i < 6
      ensures Agree(maps[..6][i])
    {
      assert maps[..6][i] == maps[i];
    }
  }

  // ----- The program --------------------------------------------------------------------------------

  /** strtok from position p on: the next token, or "" if there is none, and where it ends. */
  method Strtok(s: string, p: nat) returns (tok: string, q: nat)
    requires p <= |s|
    ensures p <= q <= |s| && (tok != "" ==> p < q)
    ensures Tokens(s[p..]) == if tok == "" then [] else [tok] + Tokens(s[q..])
  {
    hide Span;
    var i := p;
    while i < |s| && s[i] == ':'
      invariant p <= i <= |s| && Tokens(s[i..]) == Tokens(s[p..])
    {
      assert s[i..][1..] == s[i + 1..];
      i := i + 1;
    }
    q := i;
    while q < |s| && s[q] != ':'
      invariant i <= q <= |s| && forall k :: i <= k < q ==> s[k] != ':'
    {
      q := q + 1;
    }
    tok := s[i..q];
    TokenAt(s, i, q);
  }

  lemma TokenAt(s: string, i: nat, q: nat)
    requires i <= q <= |s| && (forall k :: i <= k < q ==> s[k] != ':') && (q < |s| ==> s[q] == ':')
    requires i < |s| ==> s[i] != ':'
    ensures Tokens(s[i..]) == if s[i..q] == "" then [] else [s[i..q]] + Tokens(s[q..])
  {
    var t := s[i..];
    SpanOf(s[i..q], s[q..], IsColon);
    hide Span;
    assert t == s[i..q] + s[q..];
    assert t != "" ==> t[0] == s[i];
  }

  /** The first loop of loadmap: how many records there are. */
  method Count(buf: string) returns (n: nat)
    ensures n == |Tokens(buf)|
  {
    hide Tokens;
    AllTokens(buf);
    var tok, q := Strtok(buf, 0);
    n := 0;
    while tok != ""
      invariant q <= |buf| && |Tokens(buf)| == n + if tok == "" then 0 else 1 + |Tokens(buf[q..])|
      decreases |buf| - q, |tok|
    {
      n := n + 1;
      tok, q := Strtok(buf, q);
    }
  }

  lemma AllTokens(s: string)
    ensures s[0..] == s
  {
  }

  /** loadmap for names with numbers. */
  method LoadIds(buf: string) returns (items: seq<Item>, number: nat)
    ensures items == Items(Tokens(buf)) && number == |items|
  {
    hide Tokens;
    hide ScanItem;
    items, number := [], 0;
    if buf == "" {
      NoTokens();
      return;
    }
    number := Count(buf);
    AllTokens(buf);
    var tok, q := Strtok(buf, 0);
    while tok != ""
      invariant q <= |buf|
      invariant Items(Tokens(buf)) == items + Items(if tok == "" then [] else [tok] + Tokens(buf[q..]))
      decreases |buf| - q, |tok|
    {
      ItemsFirst(tok, Tokens(buf[q..]));
      items := items + [ScanItem(tok)];
      tok, q := Strtok(buf, q);
    }
  }

  lemma ItemsFirst(tok: string, toks: seq<string>)
    ensures Items([tok] + toks) == [ScanItem(tok)] + Items(toks)
  {
    hide ScanItem;
  }

  lemma BothAhead(ws: seq<Word>, w: Word, r: Words)
    ensures Both(Words(ws), Ahead(w, r)) == Both(Words(ws + [w]), r)
  {
    if r.Words? {
      assert ws + ([w] + r.words) == ws + [w] + r.words;
    }
  }

  lemma BothNone(r: Words)
    ensures Both(Words([]), r) == r
  {
    if r.Words? {
      assert [] + r.words == r.words;
    }
  }

  lemma BothEnd(ws: seq<Word>)
    ensures Both(Words(ws), Words([])) == Words(ws)
  {
    assert ws + [] == ws;
  }

  lemma BothThree(a: Words, b: Words, c: Words)
    ensures Both(Both(a, b), c) == Both(a, Both(b, c))
  {
    if a.Words? && b.Words? && c.Words? {
      Reassociate(a.words, b.words, c.words);
    }
  }

  lemma Reassociate(a: seq<Word>, b: seq<Word>, c: seq<Word>)
    ensures a + b + c == a + (b + c)
  {
  }

  lemma EventsFrom(sp: string, p: nat)
    requires p <= |sp|
    ensures var w := Scan(sp[p..]);
      Events(sp[p..]) == if w == "" then Words([])
                         else if p + |w| + 1 > |sp| then Stray
                         else Ahead(Event(w), Events(sp[p + |w| + 1..]))
  {
    hide Scan;
    var w := Scan(sp[p..]);
    if w != "" && p + |w| + 1 <= |sp| {
      assert sp[p..][|w| + 1..] == sp[p + |w| + 1..];
    }
  }

  /** The events of one class, from sp on. */
  method LoadEvents(sp: string) returns (r: Words)
    ensures r == Events(sp)
  {
    hide Events;
    hide Scan;
    hide Both;
    var p, events := 0, [];
    AllTokens(sp);
    BothNone(Events(sp));
    while true
      invariant p <= |sp| && Events(sp) == Both(Words(events), Events(sp[p..]))
      decreases |sp| - p
    {
      EventsFrom(sp, p);
      var w := Scan(sp[p..]);
      if w == "" {
        BothEnd(events);
        return Words(events);
      }
      if p + |w| + 1 > |sp| {
        BothStray(Words(events));
        return Stray;
      }
      BothAhead(events, Event(w), Events(sp[p + |w| + 1..]));
      events := events + [Event(w)];
      p := p + |w| + 1;
    }
  }

  lemma BothStray(a: Words)
    ensures Both(a, Stray) == Both(Stray, a) == Stray
  {
  }

  /** loadmap for classes. */
  method LoadClasses(buf: string) returns (r: Words, number: nat)
    ensures r == ClassesOf(Tokens(buf)) && number == |Tokens(buf)|
  {
    hide Tokens;
    hide ClassesOf;
    hide Both;
    hide Events;
    hide Scan;
    number := Count(buf);
    AllTokens(buf);
    var tok, q := Strtok(buf, 0);
    r := Words([]);
    BothNone(ClassesOf(Tokens(buf)));
    while tok != ""
      invariant q <= |buf|
      invariant ClassesOf(Tokens(buf)) == Both(r, ClassesOf(if tok == "" then [] else [tok] + Tokens(buf[q..])))
      decreases |buf| - q, |tok|
    {
      OneClass(tok, Tokens(buf[q..]));
      var w := Scan(tok);
      var class_ := Stray;
      if w != "" && |w| + 1 <= |tok| {
        class_ := LoadEvents(tok[|w| + 1..]);
        class_ := Ahead(Class(w), class_);
      }
      BothThree(r, class_, ClassesOf(Tokens(buf[q..])));
      r := Both(r, class_);
      tok, q := Strtok(buf, q);
    }
    NoClassLeft(r);
  }

  lemma NoClassLeft(r: Words)
    ensures Both(r, ClassesOf([])) == r
  {
    if r.Words? {
      assert r.words + [] == r.words;
    }
  }

  function SetsBehind(a: seq<PrivSet>, r: Sets): Sets {
    if r.NoSets? then NoSets else Sets(a + r.sets, r.rest)
  }

  lemma SetsBehindOne(a: seq<PrivSet>, p: PrivSet, r: Sets)
    ensures SetsBehind(a, SetAhead(p, r)) == SetsBehind(a + [p], r)
  {
    if r.Sets? {
      assert a + ([p] + r.sets) == a + [p] + r.sets;
    }
  }

  lemma SetsBehindNone(r: Sets)
    ensures SetsBehind([], r) == r
  {
    if r.Sets? {
      assert [] + r.sets == r.sets;
    }
  }

  lemma SetsEnd(a: seq<PrivSet>, s: string)
    ensures SetsBehind(a, LoadSets(s, 0)) == Sets(a, s)
  {
    assert a + [] == a;
  }

  /** The first of n sets, and where the next one starts. */
  method ReadSet(s: string, ghost n: nat) returns (p: PrivSet, next: string, ok: bool)
    requires n > 0
    ensures LoadSets(s, n) == if ok then SetAhead(p, LoadSets(next, n - 1)) else NoSets
  {
    hide Atol;
    hide CString;
    hide Ends;
    p, next, ok := PrivSet(0, 0, ""), "", false;
    if !Ends(s) {
      return;
    }
    var mask := CString(s);
    var s1 := s[|mask| + 1..];
    if !Ends(s1) {
      return;
    }
    var count := CString(s1);
    var s2 := s1[|count| + 1..];
    if !Ends(s2) {
      return;
    }
    var name := CString(s2);
    p, next, ok := PrivSet(Unsigned(Atol(mask)), Unsigned(Atol(count)), name), s2[|name| + 1..], true;
  }

  /** The loop over the sets. */
  method ReadSets(s: string, n: nat) returns (r: Sets)
    ensures r == LoadSets(s, n)
  {
    hide LoadSets;
    hide SetsBehind;
    hide SetAhead;
    var begin, i, sets := s, 0, [];
    SetsBehindNone(LoadSets(s, n));
    while i < n
      invariant 0 <= i <= n && LoadSets(s, n) == SetsBehind(sets, LoadSets(begin, n - i))
    {
      var p, next, ok := ReadSet(begin, n - i);
      if !ok {
        NoneBehind(sets);
        return NoSets;
      }
      SetsBehindOne(sets, p, LoadSets(next, n - i - 1));
      begin, i, sets := next, i + 1, sets + [p];
    }
    SetsEnd(sets, begin);
    r := Sets(sets, begin);
  }

  lemma NoneBehind(a: seq<PrivSet>)
    ensures SetsBehind(a, NoSets) == NoSets
  {
  }

  /** The file map. */
  method ReadEnv(s: string) returns (r: Loaded)
    ensures r == LoadEnv(s)
  {
    hide Atol;
    hide CString;
    hide Ends;
    hide LoadSets;
    if |s| < ADT_VERLEN || !Ends(s[ADT_VERLEN..]) {
      return Astray;
    }
    var version, s1 := CString(s[..ADT_VERLEN]), s[ADT_VERLEN..];
    var tz := CString(s1);
    var s2 := s1[|tz| + 1..];
    if !Ends(s2) {
      return Astray;
    }
    var nsets := CString(s2);
    var n: int := Atol(nsets);
    var sets := ReadSets(s2[|nsets| + 1..], if n < 0 then 0 else n);
    if sets.NoSets? || !Ends(sets.rest) {
      return Astray;
    }
    r := Env(version, Atol(tz), sets.sets, CString(sets.rest));
  }

  /** One map by its type. */
  method ReadOneMap(type_: nat, s: string) returns (r: Loaded)
    ensures r == LoadOne(type_, s)
  {
    hide Tokens;
    hide Items;
    hide ClassesOf;
    hide CString;
    hide Ends;
    hide LoadEnv;
    if IsTable(type_) {
      if !Ends(s) {
        return Astray;
      }
      var items, _ := LoadIds(CString(s));
      r := Table(type_, items);
    } else if type_ == A_CLASSMAP {
      if !Ends(s) {
        return Astray;
      }
      var ws, _ := LoadClasses(CString(s));
      r := if ws.Words? then Aliases(ws.words) else Astray;
    } else {
      r := ReadEnv(s);
    }
  }

  /** Read the header of the file, and then map after map as long as the sizes last. */
  method AdtLoadmap(file: string, fileid: nat) returns (r: Outcome)
    ensures r == LoadFile(file, fileid)
  {
    hide HeadingOf;
    hide LoadOne;
    hide LoadMaps;
    hide Behind;
    hide Known;
    var h := HeadingOf(file);
    if h.NoHeading? || h.type_ != A_TBL || h.size > |h.rest| {
      return BadMap;
    }
    var cbp, maps := h.rest[..h.size], [];
    BehindNone(LoadMaps(cbp, fileid));
    while cbp != ""
      invariant LoadFile(file, fileid) == Behind(maps, LoadMaps(cbp, fileid))
      decreases |cbp|
    {
      LoadFirst(cbp, fileid);
      var heading := HeadingOf(cbp);
      if heading.NoHeading? || !Known(heading.type_, fileid) {
        BehindBad(maps);
        return BadMap;
      }
      var m := ReadOneMap(heading.type_, heading.rest);
      cbp := if heading.size < |heading.rest| then heading.rest[heading.size..] else "";
      BehindOne(maps, m, LoadMaps(cbp, fileid));
      maps := maps + [m];
    }
    NothingToLoad(fileid);
    BehindEnd(maps);
    r := Maps(maps);
  }

  lemma LoadFirst(s: string, fileid: nat)
    requires s != ""
    ensures var h := HeadingOf(s);
      LoadMaps(s, fileid) ==
      if h.NoHeading? || !Known(h.type_, fileid) then BadMap
      else Before(LoadOne(h.type_, h.rest),
                  LoadMaps(if h.size < |h.rest| then h.rest[h.size..] else "", fileid))
  {
    hide HeadingOf;
    hide LoadOne;
    hide Known;
  }

  lemma BehindNone(r: Outcome)
    ensures Behind([], r) == r
  {
    if r.Maps? {
      assert [] + r.maps == r.maps;
    }
  }

  lemma BehindBad(ms: seq<Loaded>)
    ensures Behind(ms, BadMap) == BadMap
  {
  }

  lemma BehindEnd(ms: seq<Loaded>)
    ensures Behind(ms, Maps([])) == Maps(ms)
  {
    assert ms + [] == ms;
  }
}
