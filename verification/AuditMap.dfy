/** The audit map file of auditmap (usr/src/common/cmd/auditmap/auditmap.c): one pass sizes every map,
    another writes it, and the reader (usr/src/common/cmd/auditrpt/v4/adt_loadmap.c) goes from map to
    map by the sizes in the headers. */
module AuditMap {
  import opened Decimal

  const MAXNUM := 20
  const ADT_VERLEN := 8
  const A_TBL := 100
  const A_GIDMAP := 102
  const A_IDMAP := 103
  const A_CLASSMAP := 104
  const A_TYPEMAP := 105
  const A_PRIVMAP := 108
  const A_SYSMAP := 109

  const NUL := "\0"

  /** A long. */
  type int32 = x: int | -0x8000_0000 <= x < 0x8000_0000

  /** The number that adt_itoa prints for a long. */
  function Unsigned(n: int32): (u: nat)
    ensures u < 0x1_0000_0000
  {
    if n < 0 then n + 0x1_0000_0000 else n
  }

  // ----- The maps ---------------------------------------------------------------------------------

  /** A name and its number, as for users, groups, events, privileges and system calls. */
  datatype Entry = Entry(name: string, id: int32)

  /** The words of the class file: a class that is being defined, or an event in it. */
  datatype Word = Class(name: string) | Event(name: string)

  /** A privilege set; only those about files are put into the map. */
  datatype Set = Set(mask: nat, count: nat, name: string, file: bool)

  datatype Map =
    | File(version: string, gmtsecoff: int32, sets: seq<Set>, host: seq<string>)
    | Ids(type_: nat, entries: seq<Entry>)
    | Classes(words: seq<Word>)

  predicate MapOk(m: Map) {
    m.File? ==> |m.version| == ADT_VERLEN && |m.host| == 5 &&
                forall i :: 0 <= i < |m.sets| ==> m.sets[i].mask < 0x1_0000_0000 && m.sets[i].count < 0x1_0000_0000
  }

  function TypeOf(m: Map, fileid: nat): nat {
    match m
    case File(_, _, _, _) => fileid
    case Ids(t, _) => t
    case Classes(_) => A_CLASSMAP
  }

  /** The zone: the offset as unsigned, behind a minus the negated offset as unsigned. */
  function TzText(off: int32): (s: string)
    ensures s != ""
  {
    if off < 0 then Dec(Unsigned(off)) else "-" + Dec(Unsigned(-off))
  }

  function FileSets(sets: seq<Set>): nat {
    if sets == [] then 0 else FileSets(sets[..|sets| - 1]) + if sets[|sets| - 1].file then 1 else 0
  }

  function SetText(s: Set): string {
    if s.file then Dec(s.mask) + NUL + Dec(s.count) + NUL + s.name + NUL else ""
  }

  function SetsText(sets: seq<Set>): string {
    if sets == [] then "" else SetsText(sets[..|sets| - 1]) + SetText(sets[|sets| - 1])
  }

  function HostText(host: seq<string>): string
    requires |host| == 5
  {
    host[0] + " " + host[1] + " " + host[2] + " " + host[3] + " " + host[4]
  }

  function EntryText(e: Entry): string {
    e.name + " " + LongText(e.id) + ":"
  }

  function IdsText(entries: seq<Entry>): string {
    if entries == [] then "" else IdsText(entries[..|entries| - 1]) + EntryText(entries[|entries| - 1])
  }

  /** A class ends the one before it with a colon. */
  function WordText(w: Word, first: bool): string {
    if w.Event? then w.name + " " else (if first then "" else ":") + w.name + " "
  }

  predicate NoClass(words: seq<Word>) {
    forall i :: 0 <= i < |words| ==> words[i].Event?
  }

  function WordsText(words: seq<Word>): string {
    if words == [] then ""
    else WordsText(words[..|words| - 1]) + WordText(words[|words| - 1], NoClass(words[..|words| - 1]))
  }

  /** The data of a map as it is written, without the NUL behind it. */
  function Data(m: Map): string
    requires MapOk(m)
  {
    match m
    case File(v, off, sets, host) =>
      v + TzText(off) + NUL + Dec(FileSets(sets)) + NUL + SetsText(sets) + HostText(host)
    case Ids(_, entries) => IdsText(entries)
    case Classes(words) => WordsText(words) + ":"
  }

  // ----- Sizes ------------------------------------------------------------------------------------

  function SetsSize(sets: seq<Set>): nat {
    if sets == [] then 0
    else
      var s := sets[|sets| - 1];
      SetsSize(sets[..|sets| - 1]) + if s.file then |Dec(s.mask)| + |Dec(s.count)| + |s.name| + 3 else 0
  }

  function IdsSize(entries: seq<Entry>): nat {
    if entries == [] then 0
    else
      var e := entries[|entries| - 1];
      IdsSize(entries[..|entries| - 1]) + |e.name| + |Dec(Unsigned(e.id))| + 2
  }

  function WordsSize(words: seq<Word>): nat {
    if words == [] then 0
    else
      var w := words[|words| - 1];
      WordsSize(words[..|words| - 1]) + |w.name| + if w.Class? then 2 else 1
  }

  /** What the first pass takes a map to need, with the NUL. */
  function SizeOf(m: Map): nat
    requires MapOk(m)
  {
    match m
    case File(v, off, sets, host) =>
      ADT_VERLEN + |TzText(off)| + 1 + |Dec(FileSets(sets))| + 1 + SetsSize(sets) +
      |host[0]| + |host[1]| + |host[2]| + |host[3]| + |host[4]| + 4 + 1
    case Ids(_, entries) => IdsSize(entries) + 1
    case Classes(words) => WordsSize(words) + 1
  }

  /** The two passes agree. */
  predicate Agree(m: Map)
    requires MapOk(m)
  {
    SizeOf(m) == |Data(m)| + 1
  }

  lemma {:induction false} SetsAgree(sets: seq<Set>)
    ensures SetsSize(sets) == |SetsText(sets)|
  {
    if sets != [] {
      SetsAgree(sets[..|sets| - 1]);
    }
  }

  /** They always do about the file map. */
  lemma FileAgrees(m: Map)
    requires m.File? && MapOk(m)
    ensures Agree(m)
  {
    hide Dec;
    hide TzText;
    SetsAgree(m.sets);
  }

  /** The size of an entry is computed from the number as unsigned, but it is written as signed. */
  predicate EntryAgrees(e: Entry) {
    |LongText(e.id)| == |Dec(Unsigned(e.id))|
  }

  /** That makes a difference exactly for negative numbers that do not have nine digits. */
  lemma EntryAgreesWhen(e: Entry)
    ensures EntryAgrees(e) <==> e.id >= 0 || -1_000_000_000 < e.id <= -100_000_000
  {
    if e.id < 0 {
      Powers();
      DecLength(Unsigned(e.id), 10);
      DecLength(Unsigned(e.id), 9);
      var n: int := e.id;
      DecLength(0 - n, 9);
      DecLength(0 - n, 8);
      assert |LongText(e.id)| == 1 + |Dec(0 - n)|;
    }
  }

  lemma Powers()
    ensures Pow10(8) == 100_000_000 && Pow10(9) == 1_000_000_000 && Pow10(10) == 10_000_000_000
  {
    assert Pow10(4) == 10 * Pow10(3) && Pow10(3) == 10 * Pow10(2) && Pow10(2) == 10 * Pow10(1) && Pow10(1) == 10;
    assert Pow10(6) == 10 * Pow10(5) && Pow10(5) == 10 * Pow10(4);
    assert Pow10(8) == 10 * Pow10(7) && Pow10(7) == 10 * Pow10(6);
    assert Pow10(10) == 10 * Pow10(9) && Pow10(9) == 10 * Pow10(8);
  }

  /** By how much the numbers as written are longer than as sized, over all entries. */
  function Excess(entries: seq<Entry>): int {
    if entries == [] then 0
    else
      var e := entries[|entries| - 1];
      Excess(entries[..|entries| - 1]) + |LongText(e.id)| - |Dec(Unsigned(e.id))|
  }

  lemma {:induction false} IdsDiffer(entries: seq<Entry>)
    ensures |IdsText(entries)| == IdsSize(entries) + Excess(entries)
  {
    hide Dec;
    hide LongText;
    if entries != [] {
      IdsDiffer(entries[..|entries| - 1]);
    }
  }

  lemma {:induction false} NoExcess(entries: seq<Entry>)
    requires forall i :: 0 <= i < |entries| ==> EntryAgrees(entries[i])
    ensures Excess(entries) == 0
  {
    if entries != [] {
      NoExcess(entries[..|entries| - 1]);
    }
  }

  lemma IdsAgree(m: Map)
    requires m.Ids?
    ensures Agree(m) <==> Excess(m.entries) == 0
    ensures (forall i :: 0 <= i < |m.entries| ==> m.entries[i].id >= 0) ==> Agree(m)
  {
    IdsDiffer(m.entries);
    if forall i :: 0 <= i < |m.entries| ==> m.entries[i].id >= 0 {
      forall i | 0 <= i < |m.entries|
        ensures EntryAgrees(m.entries[i])
      {
        EntryAgreesWhen(m.entries[i]);
      }
      NoExcess(m.entries);
    }
  }

  lemma {:induction false} WordsDiffer(words: seq<Word>)
    ensures |WordsText(words)| + (if NoClass(words) then 0 else 1) == WordsSize(words)
  {
    if words != [] {
      var init, w := words[..|words| - 1], words[|words| - 1];
      WordsDiffer(init);
      assert forall i :: 0 <= i < |init| ==> init[i] == words[i];
      assert NoClass(words) <==> NoClass(init) && w.Event?;
    }
  }

  /** About the class map the passes agree exactly when some class is defined. */
  lemma ClassesAgree(m: Map)
    requires m.Classes?
    ensures Agree(m) <==> !NoClass(m.words)
  {
    WordsDiffer(m.words);
  }

  // ----- The file -----------------------------------------------------------------------------------

  function Header(type_: nat, size: nat): string {
    Dec(type_) + " " + Dec(size) + " "
  }

  /** calc_hdr. */
  function HeaderSize(size: nat, type_: nat): nat {
    |Dec(size)| + 1 + (|Dec(type_)| + 1)
  }

  predicate MapsOk(maps: seq<Map>) {
    forall i :: 0 <= i < |maps| ==> MapOk(maps[i])
  }

  function MapText(m: Map, fileid: nat): string
    requires MapOk(m)
  {
    Header(TypeOf(m, fileid), SizeOf(m)) + Data(m) + NUL
  }

  function MapsText(maps: seq<Map>, fileid: nat): string
    requires MapsOk(maps)
  {
    if maps == [] then "" else MapsText(maps[..|maps| - 1], fileid) + MapText(maps[|maps| - 1], fileid)
  }

  function MapsSize(maps: seq<Map>, fileid: nat): nat
    requires MapsOk(maps)
  {
    if maps == [] then 0
    else
      var m := maps[|maps| - 1];
      MapsSize(maps[..|maps| - 1], fileid) + SizeOf(m) + HeaderSize(SizeOf(m), TypeOf(m, fileid))
  }

  function Image(maps: seq<Map>, fileid: nat): string
    requires MapsOk(maps)
  {
    Header(A_TBL, MapsSize(maps, fileid)) + MapsText(maps, fileid)
  }

  function ImageSize(maps: seq<Map>, fileid: nat): nat
    requires MapsOk(maps)
  {
    MapsSize(maps, fileid) + HeaderSize(MapsSize(maps, fileid), A_TBL)
  }

  predicate AllAgree(maps: seq<Map>)
    requires MapsOk(maps)
  {
    forall i :: 0 <= i < |maps| ==> Agree(maps[i])
  }

  lemma {:induction false} TextsFit(maps: seq<Map>, fileid: nat)
    requires MapsOk(maps) && AllAgree(maps)
    ensures |MapsText(maps, fileid)| == MapsSize(maps, fileid)
  {
    hide Data;
    hide SizeOf;
    hide Dec;
    if maps != [] {
      TextsFit(maps[..|maps| - 1], fileid);
      assert Agree(maps[|maps| - 1]);
    }
  }

  /** When the passes agree the image fills the space computed for it, to the byte. */
  lemma ImageFits(maps: seq<Map>, fileid: nat)
    requires MapsOk(maps) && AllAgree(maps)
    ensures |Image(maps, fileid)| == ImageSize(maps, fileid)
  {
    hide Dec;
    TextsFit(maps, fileid);
  }

  /** By how much what is written of a map is longer than what was sized. */
  function Beyond(m: Map): int
    requires MapOk(m)
  {
    |Data(m)| + 1 - SizeOf(m)
  }

  /** The same over all maps. */
  function Over(maps: seq<Map>): int
    requires MapsOk(maps)
  {
    if maps == [] then 0 else Over(maps[..|maps| - 1]) + Beyond(maps[|maps| - 1])
  }

  lemma {:induction false} TextsOver(maps: seq<Map>, fileid: nat)
    requires MapsOk(maps)
    ensures |MapsText(maps, fileid)| == MapsSize(maps, fileid) + Over(maps)
  {
    hide Data;
    hide SizeOf;
    hide Dec;
    if maps != [] {
      TextsOver(maps[..|maps| - 1], fileid);
    }
  }

  /** The image leaves the space computed for it by exactly that much. */
  lemma ImageOver(maps: seq<Map>, fileid: nat)
    requires MapsOk(maps)
    ensures |Image(maps, fileid)| == ImageSize(maps, fileid) + Over(maps)
  {
    hide Dec;
    TextsOver(maps, fileid);
  }

  function Zeros(n: nat): (z: string)
    ensures |z| == n && forall i :: 0 <= i < n ==> z[i] == '\0'
  {
    if n == 0 then "" else Zeros(n - 1) + NUL
  }

  /** The first n characters, or as many with NULs at the end. */
  function Fit(s: string, n: nat): (r: string)
    ensures |r| == n
  {
    if |s| >= n then s[..n] else s + Zeros(n - |s|)
  }

  lemma FitAt(s: string, n: nat)
    ensures forall i :: 0 <= i < n ==> Fit(s, n)[i] == if i < |s| then s[i] else '\0'
  {
  }

  /** The file: as much of the image as space was computed for. */
  function FileOf(maps: seq<Map>, fileid: nat): string
    requires MapsOk(maps)
  {
    Fit(Image(maps, fileid), ImageSize(maps, fileid))
  }

  // ----- Reading ------------------------------------------------------------------------------------

  /** A map as the reader finds it. */
  datatype Found = Found(type_: nat, data: string)

  datatype Result = Ok(maps: seq<Found>) | Bad

  /** Two numbers, each with a blank behind it. */
  function Blank(s: string): (k: nat)
    ensures k <= |s| && ' ' !in s[..k] && (k < |s| ==> s[k] == ' ')
  {
    if s == "" || s[0] == ' ' then 0
    else
      var k := 1 + Blank(s[1..]);
      assert s[..k] == [s[0]] + s[1..][..k - 1];
      k
  }

  datatype Heading = NoHeading | Heading(type_: nat, size: nat, rest: string)

  /** A header and what is behind it. */
  function HeadingOf(s: string): (h: Heading)
    ensures h.Heading? ==> |h.rest| < |s|
  {
    var j := Blank(s);
    if j == 0 || j >= |s| || !AllDigits(s[..j]) then NoHeading
    else
      var t := s[j + 1..];
      var k := Blank(t);
      if k == 0 || k >= |t| || !AllDigits(t[..k]) then NoHeading
      else Heading(Val(s[..j]), Val(t[..k]), t[k + 1..])
  }

  /** The maps that a reader finds who goes on by the sizes in the headers. */
  function ReadMaps(s: string): Result
    decreases |s|
  {
    if s == "" then Ok([])
    else
      var h := HeadingOf(s);
      if h.NoHeading? || h.size > |h.rest| then Bad
      else Behind([Found(h.type_, h.rest[..h.size])], ReadMaps(h.rest[h.size..]))
  }

  function Behind(fs: seq<Found>, r: Result): Result {
    match r
    case Bad => Bad
    case Ok(maps) => Ok(fs + maps)
  }

  lemma {:induction false} BlankOf(a: string, t: string)
    requires ' ' !in a && t != "" && t[0] == ' '
    ensures Blank(a + t) == |a|
  {
    if a == "" {
      assert a + t == t;
    } else {
      assert (a + t)[1..] == a[1..] + t;
      BlankOf(a[1..], t);
    }
  }

  lemma DigitsNoBlank(s: string)
    requires AllDigits(s)
    ensures ' ' !in s
  {
  }

  lemma NumberThenRest(n: nat, rest: string)
    ensures var s, k := Dec(n) + " " + rest, |Dec(n)|;
      Blank(s) == k && 0 < k < |s| && s[..k] == Dec(n) && s[k + 1..] == rest
  {
    hide Blank;
    var d := Dec(n);
    hide Dec;
    assert d + " " + rest == d + (" " + rest);
    DigitsNoBlank(d);
    BlankOf(d, " " + rest);
  }

  lemma ReadHeader(type_: nat, size: nat, data: string)
    ensures HeadingOf(Header(type_, size) + data) == Heading(type_, size, data)
  {
    hide Blank;
    hide Dec;
    var second := Dec(size) + " " + data;
    assert Header(type_, size) + data == Dec(type_) + " " + second;
    NumberThenRest(type_, second);
    NumberThenRest(size, data);
    ValDec(type_);
    ValDec(size);
  }

  lemma ReadOne(type_: nat, data: string, rest: string)
    ensures ReadMaps(Header(type_, |data|) + data + rest) == Behind([Found(type_, data)], ReadMaps(rest))
  {
    hide Header;
    hide HeadingOf;
    ReadHeader(type_, |data|, data + rest);
    assert Header(type_, |data|) + data + rest == Header(type_, |data|) + (data + rest);
    HeaderNotEmpty(type_, |data|);
    assert (data + rest)[..|data|] == data && (data + rest)[|data|..] == rest;
  }

  lemma HeaderNotEmpty(type_: nat, size: nat)
    ensures Header(type_, size) != ""
  {
  }

  function FoundOf(maps: seq<Map>, fileid: nat): seq<Found>
    requires MapsOk(maps)
  {
    if maps == [] then []
    else
      var m := maps[|maps| - 1];
      FoundOf(maps[..|maps| - 1], fileid) + [Found(TypeOf(m, fileid), Data(m) + NUL)]
  }

  lemma ReadNone(fileid: nat, rest: string)
    ensures ReadMaps(MapsText([], fileid) + rest) == Behind(FoundOf([], fileid), ReadMaps(rest))
  {
    hide ReadMaps;
    assert "" + rest == rest;
    var r := ReadMaps(rest);
    if r.Ok? {
      assert [] + r.maps == r.maps;
    }
  }

  lemma BehindBoth(a: seq<Found>, b: seq<Found>, r: Result)
    ensures Behind(a, Behind(b, r)) == Behind(a + b, r)
  {
    if r.Ok? {
      assert a + (b + r.maps) == a + b + r.maps;
    }
  }

  lemma TextOf(m: Map, fileid: nat, rest: string)
    requires MapOk(m) && Agree(m)
    ensures MapText(m, fileid) + rest == Header(TypeOf(m, fileid), |Data(m) + NUL|) + (Data(m) + NUL) + rest
  {
    hide Data;
    hide SizeOf;
    hide Header;
    hide TypeOf;
    Join3(Header(TypeOf(m, fileid), SizeOf(m)), Data(m), NUL);
  }

  /** A map about which the passes agree, and the maps behind it. */
  lemma ReadNext(m: Map, fileid: nat, rest: string)
    requires MapOk(m) && Agree(m)
    ensures ReadMaps(MapText(m, fileid) + rest) ==
            Behind([Found(TypeOf(m, fileid), Data(m) + NUL)], ReadMaps(rest))
  {
    hide *;
    TextOf(m, fileid, rest);
    ReadOne(TypeOf(m, fileid), Data(m) + NUL, rest);
  }

  lemma MapsSnoc(maps: seq<Map>, fileid: nat, rest: string)
    requires MapsOk(maps) && maps != []
    ensures var init, m := maps[..|maps| - 1], maps[|maps| - 1];
      MapsText(maps, fileid) + rest == MapsText(init, fileid) + (MapText(m, fileid) + rest) &&
      FoundOf(maps, fileid) == FoundOf(init, fileid) + [Found(TypeOf(m, fileid), Data(m) + NUL)]
  {
    hide Data;
    hide MapText;
    hide TypeOf;
  }

  lemma {:induction false} ReadsMaps(maps: seq<Map>, fileid: nat, rest: string)
    requires MapsOk(maps) && AllAgree(maps)
    ensures ReadMaps(MapsText(maps, fileid) + rest) == Behind(FoundOf(maps, fileid), ReadMaps(rest))
    decreases |maps|
  {
    if maps == [] {
      hide *;
      ReadNone(fileid, rest);
    } else {
      var init, m := maps[..|maps| - 1], maps[|maps| - 1];
      assert Agree(m) && AllAgree(init);
      hide *;
      ReadsMaps(init, fileid, MapText(m, fileid) + rest);
      ReadNext(m, fileid, rest);
      MapsSnoc(maps, fileid, rest);
      BehindBoth(FoundOf(init, fileid), [Found(TypeOf(m, fileid), Data(m) + NUL)], ReadMaps(rest));
    }
  }

  /** What the reader makes of a file: the file header says how much there is to read. */
  function ReadFile(s: string): Result {
    var h := HeadingOf(s);
    if h.NoHeading? || h.type_ != A_TBL || h.size > |h.rest| then Bad else ReadMaps(h.rest[..h.size])
  }

  lemma {:induction false} FoundAt(maps: seq<Map>, fileid: nat, i: nat)
    requires MapsOk(maps) && i < |maps|
    ensures |FoundOf(maps, fileid)| == |maps|
    ensures FoundOf(maps, fileid)[i] == Found(TypeOf(maps[i], fileid), Data(maps[i]) + NUL)
    ensures FoundOf(maps[..i], fileid) == FoundOf(maps, fileid)[..i]
    decreases |maps|
  {
    hide Data;
    var init := maps[..|maps| - 1];
    FoundLength(init, fileid);
    if i < |init| {
      FoundAt(init, fileid, i);
      assert init[..i] == maps[..i];
    } else {
      assert maps[..i] == init;
    }
  }

  lemma {:induction false} FoundLength(maps: seq<Map>, fileid: nat)
    requires MapsOk(maps)
    ensures |FoundOf(maps, fileid)| == |maps|
  {
    if maps != [] {
      FoundLength(maps[..|maps| - 1], fileid);
    }
  }

  lemma {:induction false} FirstDisagreement(maps: seq<Map>, n: nat) returns (i: nat)
    requires MapsOk(maps) && n < |maps| && !Agree(maps[n])
    ensures i <= n && !Agree(maps[i]) && forall k :: 0 <= k < i ==> Agree(maps[k])
  {
    if k :| 0 <= k < n && !Agree(maps[k]) {
      i := FirstDisagreement(maps, k);
    } else {
      i := n;
    }
  }

  lemma {:induction false} TextFrom(maps: seq<Map>, fileid: nat, i: nat) returns (more: string)
    requires MapsOk(maps) && i < |maps|
    ensures MapsText(maps, fileid) ==
            MapsText(maps[..i], fileid) + Header(TypeOf(maps[i], fileid), SizeOf(maps[i])) + more
    ensures MapsSize(maps, fileid) >=
            MapsSize(maps[..i], fileid) + SizeOf(maps[i]) + HeaderSize(SizeOf(maps[i]), TypeOf(maps[i], fileid))
    decreases |maps|
  {
    hide Data;
    hide SizeOf;
    hide Header;
    hide HeaderSize;
    var init, m := maps[..|maps| - 1], maps[|maps| - 1];
    if i < |init| {
      more := TextFrom(init, fileid, i);
      assert init[..i] == maps[..i];
      more := more + MapText(m, fileid);
    } else {
      assert maps[..i] == init;
      more := Data(m) + NUL;
    }
  }

  /** Reading from the header of a map on, whatever is behind it. */
  lemma ReadWrong(type_: nat, size: nat, tail: string)
    requires |tail| >= size
    ensures ReadMaps(Header(type_, size) + tail) == Behind([Found(type_, tail[..size])], ReadMaps(tail[size..]))
  {
    hide Header;
    hide ReadMaps;
    ReadOne(type_, tail[..size], tail[size..]);
    assert tail == tail[..size] + tail[size..];
    assert Header(type_, size) + tail == Header(type_, size) + tail[..size] + tail[size..];
  }

  lemma FitPrefix(s: string, p: string, n: nat)
    requires p <= s && |p| <= n
    ensures Fit(s, n) == p + Fit(s, n)[|p|..]
  {
    var r := Fit(s, n);
    assert r[..|p|] == p by {
      FitAt(s, n);
    }
    hide Fit;
    assert r == r[..|p|] + r[|p|..];
  }

  /** The file up to the header of the first map about which the passes disagree, and enough behind. */
  lemma TextUpTo(maps: seq<Map>, fileid: nat, i: nat) returns (tail: string)
    requires MapsOk(maps) && i < |maps| && forall k :: 0 <= k < i ==> Agree(maps[k])
    ensures Fit(MapsText(maps, fileid), MapsSize(maps, fileid)) ==
            MapsText(maps[..i], fileid) + (Header(TypeOf(maps[i], fileid), SizeOf(maps[i])) + tail)
    ensures |tail| >= SizeOf(maps[i])
  {
    var header, size := Header(TypeOf(maps[i], fileid), SizeOf(maps[i])), SizeOf(maps[i]);
    assert |header| == HeaderSize(size, TypeOf(maps[i], fileid));
    hide *;
    var init := maps[..i];
    var more := TextFrom(maps, fileid, i);
    InitFits(maps, fileid, i);
    var front := MapsText(init, fileid) + header;
    FitPrefix(MapsText(maps, fileid), front, MapsSize(maps, fileid));
    tail := Fit(MapsText(maps, fileid), MapsSize(maps, fileid))[|front|..];
    Join3(MapsText(init, fileid), header, tail);
  }

  lemma InitFits(maps: seq<Map>, fileid: nat, i: nat)
    requires MapsOk(maps) && i < |maps| && forall k :: 0 <= k < i ==> Agree(maps[k])
    ensures MapsOk(maps[..i]) && AllAgree(maps[..i])
    ensures |MapsText(maps[..i], fileid)| == MapsSize(maps[..i], fileid)
  {
    TextsFit(maps[..i], fileid);
  }

  lemma WrongAt(fs: seq<Found>, wrong: Found, r: Result, all: seq<Found>)
    requires |fs| < |all| && |all[|fs|].data| != |wrong.data|
    ensures Behind(fs, Behind([wrong], r)) != Ok(all)
  {
    match r {
      case Bad =>
      case Ok(ms) =>
        assert (fs + ([wrong] + ms))[|fs|] == wrong;
    }
  }

  /** The first map about which the passes disagree is read with the size computed for it, which is not
      its length. */
  lemma ReadsOtherwise(maps: seq<Map>, fileid: nat, i: nat)
    requires MapsOk(maps) && i < |maps| && !Agree(maps[i]) && forall k :: 0 <= k < i ==> Agree(maps[k])
    ensures ReadMaps(Fit(MapsText(maps, fileid), MapsSize(maps, fileid))) != Ok(FoundOf(maps, fileid))
  {
    var init, m, size := maps[..i], maps[i], SizeOf(maps[i]);
    assert size != |Data(m)| + 1;
    hide *;
    InitFits(maps, fileid, i);
    var tail := TextUpTo(maps, fileid, i);
    ReadsMaps(init, fileid, Header(TypeOf(m, fileid), size) + tail);
    ReadWrong(TypeOf(m, fileid), size, tail);
    FoundAt(maps, fileid, i);
    FoundLength(init, fileid);
    var wrong := Found(TypeOf(m, fileid), tail[..size]);
    WrongAt(FoundOf(init, fileid), wrong, ReadMaps(tail[size..]), FoundOf(maps, fileid));
  }

  lemma FitBehind(h: string, s: string, n: nat)
    ensures Fit(h + s, |h| + n) == h + Fit(s, n)
  {
    FitAt(h + s, |h| + n);
    FitAt(s, n);
  }

  lemma FileSplit(maps: seq<Map>, fileid: nat)
    requires MapsOk(maps)
    ensures FileOf(maps, fileid) == Header(A_TBL, MapsSize(maps, fileid)) +
                                    Fit(MapsText(maps, fileid), MapsSize(maps, fileid))
  {
    var size := MapsSize(maps, fileid);
    assert |Header(A_TBL, size)| == HeaderSize(size, A_TBL);
    hide Header;
    hide HeaderSize;
    hide MapsText;
    hide MapsSize;
    hide Fit;
    FitBehind(Header(A_TBL, size), MapsText(maps, fileid), size);
  }

  /** A file header that tells the truth is passed over. */
  lemma PastFileHeader(x: string)
    ensures ReadFile(Header(A_TBL, |x|) + x) == ReadMaps(x)
  {
    hide Header;
    hide HeadingOf;
    hide ReadMaps;
    ReadHeader(A_TBL, |x|, x);
    All(x);
  }

  lemma FileReads(maps: seq<Map>, fileid: nat)
    requires MapsOk(maps)
    ensures ReadFile(FileOf(maps, fileid)) == ReadMaps(Fit(MapsText(maps, fileid), MapsSize(maps, fileid)))
  {
    hide *;
    FileSplit(maps, fileid);
    PastFileHeader(Fit(MapsText(maps, fileid), MapsSize(maps, fileid)));
  }

  lemma All(s: string)
    ensures s[..|s|] == s
  {
  }

  lemma ReadsRight(maps: seq<Map>, fileid: nat)
    requires MapsOk(maps) && AllAgree(maps)
    ensures ReadMaps(Fit(MapsText(maps, fileid), MapsSize(maps, fileid))) == Ok(FoundOf(maps, fileid))
  {
    TextsFit(maps, fileid);
    NothingRead();
    ReadsMaps(maps, fileid, "");
    FitAll(MapsText(maps, fileid));
    hide ReadMaps;
    hide MapsText;
    hide MapsSize;
    hide FoundOf;
    hide Fit;
    assert MapsText(maps, fileid) + "" == MapsText(maps, fileid);
    assert FoundOf(maps, fileid) + [] == FoundOf(maps, fileid);
  }

  /** Round trip, exactly when the two passes agree about every map: the reader lands on the header of
      each map in turn and finds all the maps, each with its own data, up to the end. */
  lemma ReadsBack(maps: seq<Map>, fileid: nat)
    requires MapsOk(maps)
    ensures ReadFile(FileOf(maps, fileid)) == Ok(FoundOf(maps, fileid)) <==> AllAgree(maps)
  {
    hide ReadFile;
    hide FileOf;
    hide ReadMaps;
    hide MapsText;
    hide MapsSize;
    hide FoundOf;
    hide Fit;
    hide Agree;
    FileReads(maps, fileid);
    if AllAgree(maps) {
      ReadsRight(maps, fileid);
    } else {
      var n :| 0 <= n < |maps| && !Agree(maps[n]);
      var i := FirstDisagreement(maps, n);
      ReadsOtherwise(maps, fileid, i);
    }
  }

  lemma FitAll(s: string)
    ensures Fit(s, |s|) == s
  {
  }

  lemma NothingRead()
    ensures ReadMaps("") == Ok([])
  {
  }

  /** A user with number -2 is given ten digits' room but takes two characters; and a class file that
      defines no class gets a colon that was not counted. */
  lemma DisagreementExamples()
    ensures SizeOf(Ids(A_IDMAP, [Entry("nobody", -2)])) == |Data(Ids(A_IDMAP, [Entry("nobody", -2)]))| + 1 + 8
    ensures SizeOf(Classes([])) == |Data(Classes([]))|
  {
    var e := Entry("nobody", -2);
    assert [e][..0] == [];
    assert LongText(-2) == "-2";
    Powers();
    DecLength(Unsigned(-2), 10);
    DecLength(Unsigned(-2), 9);
    assert |Dec(Unsigned(-2))| == 10;
    IdsDiffer([e]);
    assert Excess([e]) == Excess([]) + |LongText(-2)| - |Dec(Unsigned(-2))|;
  }

  /** A file of one map, and the texts of the other kinds of map. */
  lemma TextExamples()
    ensures Image([Ids(A_IDMAP, [Entry("root", 0)])], 101) == "100 14 103 8 root 0:\0"
    ensures Data(Classes([Class("c"), Event("x"), Event("y"), Class("d")])) == "c x y :d :"
    ensures HostText(["a", "b", "c", "d", "e"]) == "a b c d e"
    ensures Data(File("12345678", 0, [], ["a", "b", "c", "d", "e"])) == "12345678-0\00\0a b c d e"
    ensures SetsText([Set(7, 2, "w", true), Set(1, 1, "v", false)]) == "7\02\0w\0"
  {
    OneEntry();
    ImageExample();
    FileExample();
    ClassExample();
    var s, t := Set(7, 2, "w", true), Set(1, 1, "v", false);
    assert [s, t][..1] == [s] && [s][..0] == [];
    assert Dec(7) == "7" && Dec(2) == "2";
    assert SetText(s) == "7" + NUL + "2" + NUL + "w" + NUL == "7\02\0w\0";
    assert SetsText([s]) == "" + SetText(s) == SetText(s);
    assert SetsText([s, t]) == SetsText([s]) + "";
  }

  lemma FileExample()
    ensures HostText(["a", "b", "c", "d", "e"]) == "a b c d e"
    ensures Data(File("12345678", 0, [], ["a", "b", "c", "d", "e"])) == "12345678-0\00\0a b c d e"
  {
    var host := HostText(["a", "b", "c", "d", "e"]);
    assert host == "a" + " " + "b" + " " + "c" + " " + "d" + " " + "e" == "a b c d e";
    assert Dec(0) == "0" && TzText(0) == "-" + "0" && FileSets([]) == 0 && SetsText([]) == "";
    hide Dec;
    hide TzText;
    assert "12345678" + "-0" + NUL + "0" + NUL + "" + host == "12345678-0\00\0a b c d e";
  }

  lemma OneEntry()
    ensures IdsText([Entry("root", 0)]) == "root 0:" && IdsSize([Entry("root", 0)]) == 7
  {
    var e := Entry("root", 0);
    assert [e][..0] == [];
    assert LongText(0) == "0" && Dec(0) == "0";
    assert IdsText([e]) == "" + EntryText(e) && EntryText(e) == "root" + " " + "0" + ":";
  }

  lemma ImageExample()
    ensures Image([Ids(A_IDMAP, [Entry("root", 0)])], 101) == "100 14 103 8 root 0:\0"
  {
    hide Image;
    hide MapText;
    hide SizeOf;
    hide Header;
    hide HeaderSize;
    hide TypeOf;
    hide Dec;
    var m := Ids(A_IDMAP, [Entry("root", 0)]);
    OneMap(m, 101);
    MapExample(m);
    HeaderExamples();
    assert "100 14 " + "103 8 root 0:\0" == "100 14 103 8 root 0:\0";
  }

  lemma OneMap(m: Map, fileid: nat)
    requires MapOk(m)
    ensures MapsOk([m]) &&
            Image([m], fileid) == Header(100, SizeOf(m) + HeaderSize(SizeOf(m), TypeOf(m, fileid))) + MapText(m, fileid)
  {
    hide MapText;
    hide SizeOf;
    hide Header;
    hide HeaderSize;
    hide TypeOf;
    assert [m][..0] == [] && MapsText([], fileid) == "" && MapsSize([], fileid) == 0;
    assert "" + MapText(m, fileid) == MapText(m, fileid);
  }

  lemma MapExample(m: Map)
    requires m == Ids(A_IDMAP, [Entry("root", 0)])
    ensures MapOk(m) && SizeOf(m) == 8 && TypeOf(m, 101) == 103 && MapText(m, 101) == "103 8 root 0:\0"
  {
    OneEntry();
    HeaderExamples();
    hide Header;
    hide Dec;
    assert Data(m) == "root 0:";
  }

  lemma HeaderExamples()
    ensures Header(103, 8) == "103 8 " && HeaderSize(8, 103) == 6 && Header(100, 14) == "100 14 "
  {
    Numerals();
    hide Dec;
    assert "103" + " " + "8" + " " == "103 8 " && "100" + " " + "14" + " " == "100 14 ";
  }

  lemma Numerals()
    ensures Dec(8) == "8" && Dec(14) == "14" && Dec(100) == "100" && Dec(103) == "103"
  {
    assert Dec(1) == "1" && Dec(10) == "10";
  }

  lemma ClassExample()
    ensures WordsText([Class("c"), Event("x"), Event("y"), Class("d")]) + ":" == "c x y :d :"
  {
    var c, x, y, d := Class("c"), Event("x"), Event("y"), Class("d");
    assert [c][..0] == [] && [c, x][..1] == [c] && [c, x, y][..2] == [c, x] && [c, x, y, d][..3] == [c, x, y];
    assert NoClass([]) && [c][0].Class? && [c, x][0].Class? && [c, x, y][0].Class?;
    assert WordsText([c]) == "" + WordText(c, true) && WordText(c, true) == "" + "c" + " ";
    assert WordsText([c, x]) == "c " + "x ";
    assert WordsText([c, x, y]) == "c x " + "y ";
    assert WordsText([c, x, y, d]) == "c x y " + WordText(d, false) && WordText(d, false) == ":" + "d" + " ";
  }

  // ----- The program ------------------------------------------------------------------------------

  /** The digits of a number, by way of a small buffer. */
  method Number(n: nat) returns (s: string)
    requires n < 0x1_0000_0000
    ensures s == Dec(n)
  {
    Powers();
    DecLength(n, 10);
    var num := new char[MAXNUM];
    var len := Itoa(n, num);
    s := num[..len];
  }

  method SizeSets(sets: seq<Set>) returns (length: nat)
    requires forall i :: 0 <= i < |sets| ==> sets[i].mask < 0x1_0000_0000 && sets[i].count < 0x1_0000_0000
    ensures length == SetsSize(sets)
  {
    hide Dec;
    length := 0;
    var i := 0;
    assert sets[..0] == [];
    while i < |sets|
      invariant 0 <= i <= |sets| && length == SetsSize(sets[..i])
    {
      assert sets[..i + 1][..i] == sets[..i];
      if sets[i].file {
        var mask := Number(sets[i].mask);
        var count := Number(sets[i].count);
        length := length + |mask| + |count| + |sets[i].name| + 3;
      }
      i := i + 1;
    }
    assert sets[..i] == sets;
  }

  method CountFileSets(sets: seq<Set>) returns (n: nat)
    ensures n == FileSets(sets) && n <= |sets|
  {
    var left: int := |sets|;
    var i := 0;
    assert sets[..0] == [];
    while i < |sets|
      invariant 0 <= i <= |sets| && left == |sets| - i + FileSets(sets[..i])
    {
      assert sets[..i + 1][..i] == sets[..i];
      if !sets[i].file {
        left := left - 1;
      }
      i := i + 1;
    }
    assert sets[..i] == sets;
    FewFileSets(sets);
    n := left;
  }

  lemma {:induction false} FewFileSets(sets: seq<Set>)
    ensures FileSets(sets) <= |sets|
  {
    if sets != [] {
      FewFileSets(sets[..|sets| - 1]);
    }
  }

  method SizeIds(entries: seq<Entry>) returns (length: nat)
    ensures length == IdsSize(entries)
  {
    hide Dec;
    length := 0;
    var i := 0;
    assert entries[..0] == [];
    while i < |entries|
      invariant 0 <= i <= |entries| && length == IdsSize(entries[..i])
    {
      assert entries[..i + 1][..i] == entries[..i];
      var num := Number(Unsigned(entries[i].id));
      length := length + |entries[i].name| + |num| + 2;
      i := i + 1;
    }
    assert entries[..i] == entries;
  }

  method SizeWords(words: seq<Word>) returns (length: nat)
    ensures length == WordsSize(words)
  {
    length := 0;
    var i := 0;
    assert words[..0] == [];
    while i < |words|
      invariant 0 <= i <= |words| && length == WordsSize(words[..i])
    {
      assert words[..i + 1][..i] == words[..i];
      if words[i].Class? {
        length := length + |words[i].name| + 2;
      } else {
        length := length + |words[i].name| + 1;
      }
      i := i + 1;
    }
    assert words[..i] == words;
  }

  method Tz(off: int32) returns (s: string)
    ensures s == TzText(off)
  {
    if off < 0 {
      s := Number(Unsigned(off));
    } else {
      s := Number(Unsigned(-off));
      s := "-" + s;
    }
  }

  /** The first pass over one map. */
  method Sizemap(m: Map) returns (length: nat)
    requires MapOk(m) && (m.File? ==> |m.sets| < 0x1_0000_0000)
    ensures length == SizeOf(m)
  {
    hide Dec;
    match m {
      case File(v, off, sets, host) =>
        var tz := Tz(off);
        var n := CountFileSets(sets);
        var count := Number(n);
        length := SizeSets(sets);
        length := ADT_VERLEN + |tz| + 1 + |count| + 1 + length +
          |host[0]| + |host[1]| + |host[2]| + |host[3]| + |host[4]| + 4;
      case Ids(_, entries) =>
        length := SizeIds(entries);
      case Classes(words) =>
        length := SizeWords(words);
    }
    length := length + 1;
  }

  class Writer {
    const buf: array<char>
    var bp: nat                  // where to write next
    ghost var text: string       // what is written

    /** The text is at the front of the buffer, and behind it are only NULs. */
    ghost predicate Valid()
      reads this, buf
      ensures Valid() ==> bp == |text| < buf.Length
    {
      && bp == |text| < buf.Length
      && forall i :: 0 <= i < buf.Length ==> buf[i] == if i < bp then text[i] else '\0'
    }

    constructor (size: nat)
      ensures Valid() && text == "" && fresh(buf) && buf.Length == size + 1
    {
      buf := new char[size + 1](_ => '\0');
      bp, text := 0, "";
    }

    /** sprintf at the end of what is written: the characters and a terminator behind them, which the
        next characters overwrite. */
    method Put(s: string)
      requires Valid() && bp + |s| < buf.Length
      modifies this, buf
      ensures Valid() && text == old(text) + s
    {
      var i := 0;
      while i < |s|
        invariant 0 <= i <= |s| && bp == old(bp) && text == old(text)
        invariant forall k :: 0 <= k < bp ==> buf[k] == text[k]
        invariant forall k {:trigger s[k]} :: 0 <= k < i ==> buf[bp + k] == s[k]
        invariant forall k :: bp + i <= k < buf.Length ==> buf[k] == '\0'
      {
        buf[bp + i] := s[i];
        i := i + 1;
      }
      forall k | 0 <= k < bp + |s|
        ensures buf[k] == (text + s)[k]
      {
        if k >= bp {
          assert (text + s)[k] == s[k - bp];
        }
      }
      bp := bp + |s|;
      buf[bp] := '\0';
      text := text + s;
    }

    method PutHeader(type_: nat, size: nat)
      requires Valid() && type_ < 0x1_0000_0000 && size < 0x1_0000_0000
      requires bp + |Header(type_, size)| < buf.Length
      modifies this, buf
      ensures Valid() && text == old(text) + Header(type_, size)
    {
      hide Valid;
      hide Dec;
      var hdr := Number(type_);
      Put(hdr + " ");
      hdr := Number(size);
      Put(hdr + " ");
      Join3(old(text), Dec(type_) + " ", Dec(size) + " ");
      assert (Dec(type_) + " ") + (Dec(size) + " ") == Header(type_, size);
    }

    method PutSets(sets: seq<Set>)
      requires forall i :: 0 <= i < |sets| ==> sets[i].mask < 0x1_0000_0000 && sets[i].count < 0x1_0000_0000
      requires Valid() && bp + |SetsText(sets)| < buf.Length
      modifies this, buf
      ensures Valid() && text == old(text) + SetsText(sets)
    {
      hide Valid;
      hide Dec;
      hide SetText;
      var i := 0;
      assert sets[..0] == [];
      while i < |sets|
        invariant 0 <= i <= |sets| && Valid() && text == old(text) + SetsText(sets[..i])
      {
        SetsGrow(sets, i);
        var mask := Number(sets[i].mask);
        var count := Number(sets[i].count);
        SetTextIs(sets[i]);
        Join3(old(text), SetsText(sets[..i]), SetText(sets[i]));
        if sets[i].file {
          Put(mask + NUL + count + NUL + sets[i].name + NUL);
        }
        i := i + 1;
      }
      assert sets[..i] == sets;
    }

    method PutIds(entries: seq<Entry>)
      requires Valid() && bp + |IdsText(entries)| < buf.Length
      modifies this, buf
      ensures Valid() && text == old(text) + IdsText(entries)
    {
      hide Valid;
      hide LongText;
      var i := 0;
      assert entries[..0] == [];
      while i < |entries|
        invariant 0 <= i <= |entries| && Valid() && text == old(text) + IdsText(entries[..i])
      {
        IdsGrow(entries, i);
        Join3(old(text), IdsText(entries[..i]), EntryText(entries[i]));
        Put(entries[i].name + " " + LongText(entries[i].id) + ":");
        i := i + 1;
      }
      assert entries[..i] == entries;
    }

    method PutWord(w: Word, first: bool)
      requires Valid() && bp + |WordText(w, first)| < buf.Length
      modifies this, buf
      ensures Valid() && text == old(text) + WordText(w, first)
    {
      hide Valid;
      if w.Class? && !first {
        Put(":");
        Join3(old(text), ":", w.name + " ");
        assert ":" + (w.name + " ") == WordText(w, first);
      }
      Put(w.name + " ");
    }

    method PutWords(words: seq<Word>)
      requires Valid() && bp + |WordsText(words)| < buf.Length
      modifies this, buf
      ensures Valid() && text == old(text) + WordsText(words)
    {
      hide Valid;
      hide NoClass;
      hide WordText;
      NoWords();
      var i, first := 0, true;
      assert words[..0] == [];
      while i < |words|
        invariant 0 <= i <= |words| && Valid() && text == old(text) + WordsText(words[..i])
        invariant first == NoClass(words[..i])
      {
        WordsGrow(words, i);
        Join3(old(text), WordsText(words[..i]), WordText(words[i], first));
        PutWord(words[i], first);
        first := first && words[i].Event?;
        i := i + 1;
      }
      assert words[..i] == words;
    }

    /** get_filedata, behind the header. */
    method PutFile(m: Map)
      requires m.File? && MapOk(m) && |m.sets| < 0x1_0000_0000
      requires Valid() && bp + |Data(m)| < buf.Length
      modifies this, buf
      ensures Valid() && text == old(text) + Data(m)
    {
      hide Valid;
      hide Dec;
      hide SetsText;
      hide TzText;
      var tz := Tz(m.gmtsecoff);
      var n := CountFileSets(m.sets);
      var count := Number(n);
      FileData(m);
      hide Data;
      hide HostText;
      var front := tz + NUL + count + NUL;
      var host := m.host[0] + " " + m.host[1] + " " + m.host[2] + " " + m.host[3] + " " + m.host[4];
      Put(m.version);
      Put(front);
      PutSets(m.sets);
      HostIs(m.host);
      Put(host);
      Join5(old(text), m.version, front, SetsText(m.sets), host);
    }

    /** The second pass over one map, with the size that the first pass found. */
    method PutMap(m: Map, fileid: nat, size: nat)
      requires MapOk(m) && (m.File? ==> |m.sets| < 0x1_0000_0000)
      requires TypeOf(m, fileid) < 0x1_0000_0000 && size == SizeOf(m) < 0x1_0000_0000
      requires Valid() && bp + |MapText(m, fileid)| < buf.Length
      modifies this, buf
      ensures Valid() && text == old(text) + MapText(m, fileid)
    {
      hide Valid;
      hide Header;
      hide SizeOf;
      hide WordsText;
      hide IdsText;
      hide SetsText;
      ghost var header := Header(TypeOf(m, fileid), size);
      DataIs(m);
      hide Data;
      assert MapText(m, fileid) == header + (Data(m) + NUL);
      PutHeader(TypeOf(m, fileid), size);
      match m {
        case File(_, _, _, _) =>
          PutFile(m);
        case Ids(_, entries) =>
          PutIds(entries);
        case Classes(words) =>
          PutWords(words);
          Put(":");
          Join3(old(text) + header, WordsText(words), ":");
      }
      assert text == old(text) + header + Data(m);
      Put(NUL);
      Join4(old(text), header, Data(m), NUL);
    }
  }

  lemma Join3(a: string, b: string, c: string)
    ensures a + b + c == a + (b + c)
  {
  }

  lemma Join4(a: string, b: string, c: string, d: string)
    ensures a + b + c + d == a + (b + (c + d))
  {
  }

  lemma Join5(a: string, b: string, c: string, d: string, e: string)
    ensures a + b + c + d + e == a + (b + c + d + e)
  {
  }

  lemma HostIs(host: seq<string>)
    requires |host| == 5
    ensures HostText(host) == host[0] + " " + host[1] + " " + host[2] + " " + host[3] + " " + host[4]
  {
  }

  lemma FileData(m: Map)
    requires m.File? && MapOk(m)
    ensures Data(m) == m.version + (TzText(m.gmtsecoff) + NUL + Dec(FileSets(m.sets)) + NUL) + SetsText(m.sets) +
                       HostText(m.host)
  {
    hide Dec;
    hide SetsText;
    hide HostText;
    hide TzText;
  }

  lemma DataIs(m: Map)
    requires MapOk(m)
    ensures m.Ids? ==> Data(m) == IdsText(m.entries)
    ensures m.Classes? ==> Data(m) == WordsText(m.words) + ":"
  {
  }

  lemma NoWords()
    ensures NoClass([]) && WordsText([]) == ""
  {
  }

  lemma SetTextIs(s: Set)
    ensures SetText(s) == if s.file then Dec(s.mask) + NUL + Dec(s.count) + NUL + s.name + NUL else ""
  {
  }

  lemma SetsGrow(sets: seq<Set>, i: nat)
    requires i < |sets|
    ensures SetsText(sets[..i + 1]) == SetsText(sets[..i]) + SetText(sets[i])
    ensures |SetsText(sets[..i + 1])| <= |SetsText(sets)|
  {
    hide SetText;
    assert sets[..i + 1][..i] == sets[..i];
    SetsShorter(sets, i + 1);
  }

  lemma {:induction false} SetsShorter(sets: seq<Set>, i: nat)
    requires i <= |sets|
    ensures |SetsText(sets[..i])| <= |SetsText(sets)|
    decreases |sets|
  {
    hide SetText;
    if i < |sets| {
      assert sets[..|sets| - 1][..i] == sets[..i];
      SetsShorter(sets[..|sets| - 1], i);
    } else {
      assert sets[..i] == sets;
    }
  }

  lemma IdsGrow(entries: seq<Entry>, i: nat)
    requires i < |entries|
    ensures IdsText(entries[..i + 1]) == IdsText(entries[..i]) + EntryText(entries[i])
    ensures |IdsText(entries[..i + 1])| <= |IdsText(entries)|
  {
    hide EntryText;
    assert entries[..i + 1][..i] == entries[..i];
    IdsShorter(entries, i + 1);
  }

  lemma {:induction false} IdsShorter(entries: seq<Entry>, i: nat)
    requires i <= |entries|
    ensures |IdsText(entries[..i])| <= |IdsText(entries)|
    decreases |entries|
  {
    hide EntryText;
    if i < |entries| {
      assert entries[..|entries| - 1][..i] == entries[..i];
      IdsShorter(entries[..|entries| - 1], i);
    } else {
      assert entries[..i] == entries;
    }
  }

  lemma WordsGrow(words: seq<Word>, i: nat)
    requires i < |words|
    ensures WordsText(words[..i + 1]) == WordsText(words[..i]) + WordText(words[i], NoClass(words[..i]))
    ensures |WordsText(words[..i + 1])| <= |WordsText(words)|
    ensures NoClass(words[..i + 1]) <==> NoClass(words[..i]) && words[i].Event?
  {
    hide WordText;
    assert words[..i + 1][..i] == words[..i];
    WordsShorter(words, i + 1);
  }

  lemma {:induction false} WordsShorter(words: seq<Word>, i: nat)
    requires i <= |words|
    ensures |WordsText(words[..i])| <= |WordsText(words)|
    decreases |words|
  {
    hide WordText;
    if i < |words| {
      assert words[..|words| - 1][..i] == words[..i];
      WordsShorter(words[..|words| - 1], i);
    } else {
      assert words[..i] == words;
    }
  }

  lemma {:induction false} MapsShorter(maps: seq<Map>, fileid: nat, i: nat)
    requires MapsOk(maps) && i <= |maps|
    ensures |MapsText(maps[..i], fileid)| <= |MapsText(maps, fileid)|
    decreases |maps|
  {
    hide MapText;
    if i < |maps| {
      assert maps[..|maps| - 1][..i] == maps[..i];
      MapsShorter(maps[..|maps| - 1], fileid, i);
    } else {
      assert maps[..i] == maps;
    }
  }

  lemma MapsGrow(maps: seq<Map>, fileid: nat, i: nat)
    requires MapsOk(maps) && i < |maps|
    ensures MapsText(maps[..i + 1], fileid) == MapsText(maps[..i], fileid) + MapText(maps[i], fileid)
    ensures MapsSize(maps[..i + 1], fileid) ==
            MapsSize(maps[..i], fileid) + SizeOf(maps[i]) + HeaderSize(SizeOf(maps[i]), TypeOf(maps[i], fileid))
    ensures |MapsText(maps[..i + 1], fileid)| <= |MapsText(maps, fileid)|
  {
    hide MapText;
    hide SizeOf;
    hide HeaderSize;
    assert maps[..i + 1][..i] == maps[..i];
    MapsShorter(maps, fileid, i + 1);
  }

  /** Numbers that are kept in a long. */
  predicate InRange(maps: seq<Map>, fileid: nat)
    requires MapsOk(maps)
  {
    && (forall i :: 0 <= i < |maps| ==>
          SizeOf(maps[i]) < 0x1_0000_0000 && TypeOf(maps[i], fileid) < 0x1_0000_0000 &&
          (maps[i].File? ==> |maps[i].sets| < 0x1_0000_0000))
    && MapsSize(maps, fileid) < 0x1_0000_0000
  }

  method CalcHdr(length: nat, type_: nat) returns (size: nat)
    requires length < 0x1_0000_0000 && type_ < 0x1_0000_0000
    ensures size == HeaderSize(length, type_)
  {
    hide Dec;
    var hold := Number(length);
    size := |hold| + 1;
    hold := Number(type_);
    size := size + |hold| + 1;
  }

  /** The program: size all maps, get that much space, write them all, and put that much into the file.
      What does not fit goes on behind the space; the buffer has these characters too here, and one
      more for the terminator of the last sprintf. */
  method Auditmap(maps: seq<Map>, fileid: nat) returns (file: string)
    requires MapsOk(maps) && InRange(maps, fileid)
    ensures file == FileOf(maps, fileid)
    ensures ReadFile(file) == Ok(FoundOf(maps, fileid)) <==> AllAgree(maps)
  {
    hide MapText;
    hide Header;
    hide SizeOf;
    hide HeaderSize;
    hide TypeOf;
    hide FoundOf;
    hide ReadFile;
    hide AllAgree;
    var sizes: seq<nat> := [];
    var total := 0;
    var i := 0;
    assert maps[..0] == [];
    while i < |maps|
      invariant 0 <= i <= |maps| && |sizes| == i && total == MapsSize(maps[..i], fileid)
      invariant forall k :: 0 <= k < i ==> sizes[k] == SizeOf(maps[k])
    {
      MapsGrow(maps, fileid, i);
      var size := Sizemap(maps[i]);
      var hdr := CalcHdr(size, TypeOf(maps[i], fileid));
      sizes := sizes + [size];
      total := total + size + hdr;
      i := i + 1;
    }
    assert maps[..i] == maps;
    var hdr := CalcHdr(total, A_TBL);
    var written := |Image(maps, fileid)|;
    var w := new Writer(if written > total + hdr then written else total + hdr);
    w.PutHeader(A_TBL, total);
    i := 0;
    while i < |maps|
      invariant 0 <= i <= |maps| && w.Valid() && fresh(w) && fresh(w.buf)
      invariant w.buf.Length > total + hdr && w.buf.Length > written
      invariant w.text == Header(A_TBL, total) + MapsText(maps[..i], fileid)
    {
      MapsGrow(maps, fileid, i);
      Join3(Header(A_TBL, total), MapsText(maps[..i], fileid), MapText(maps[i], fileid));
      w.PutMap(maps[i], fileid, sizes[i]);
      i := i + 1;
    }
    assert maps[..i] == maps;
    file := w.buf[..total + hdr];
    FitAt(w.text, total + hdr);
    assert file == Fit(w.text, total + hdr);
    ReadsBack(maps, fileid);
  }

  /** The tables of a system, as the maps of its file in their order. */
  function SevenMaps(file: Map, users: seq<Entry>, groups: seq<Entry>, words: seq<Word>, events: seq<Entry>,
                     privs: seq<Entry>, calls: seq<Entry>): seq<Map> {
    [file, Ids(A_IDMAP, users), Ids(A_GIDMAP, groups), Classes(words), Ids(A_TYPEMAP, events),
     Ids(A_PRIVMAP, privs), Ids(A_SYSMAP, calls)]
  }

  lemma SevenTypes(file: Map, users: seq<Entry>, groups: seq<Entry>, words: seq<Word>, events: seq<Entry>,
                   privs: seq<Entry>, calls: seq<Entry>, fileid: nat)
    requires file.File?
    ensures var maps := SevenMaps(file, users, groups, words, events, privs, calls);
      |maps| == 7 && forall i :: 0 <= i < 7 ==> TypeOf(maps[i], fileid) == [fileid, 103, 102, 104, 105, 108, 109][i]
  {
  }

  /** All seven fit their sizes exactly when the numbers are as long as sized, in each of the tables, and
      some class is defined. */
  lemma SevenAgree(file: Map, users: seq<Entry>, groups: seq<Entry>, words: seq<Word>, events: seq<Entry>,
                   privs: seq<Entry>, calls: seq<Entry>)
    requires file.File? && MapOk(file)
    ensures var maps := SevenMaps(file, users, groups, words, events, privs, calls);
      MapsOk(maps) &&
      (AllAgree(maps) <==>
         !NoClass(words) && Excess(users) == 0 && Excess(groups) == 0 && Excess(events) == 0 &&
         Excess(privs) == 0 && Excess(calls) == 0)
  {
    hide Agree;
    hide Excess;
    hide NoClass;
    var maps := SevenMaps(file, users, groups, words, events, privs, calls);
    FileAgrees(file);
    IdsAgree(maps[1]);
    IdsAgree(maps[2]);
    ClassesAgree(maps[3]);
    IdsAgree(maps[4]);
    IdsAgree(maps[5]);
    IdsAgree(maps[6]);
    if AllAgree(maps) {
      assert Agree(maps[1]) && Agree(maps[2]) && Agree(maps[3]) && Agree(maps[4]) && Agree(maps[5]) && Agree(maps[6]);
    }
  }

  /** What these tables put beyond the space: what their numbers take more than sized, and one colon if
      no class is defined. */
  lemma SevenOver(file: Map, users: seq<Entry>, groups: seq<Entry>, words: seq<Word>, events: seq<Entry>,
                  privs: seq<Entry>, calls: seq<Entry>)
    requires file.File? && MapOk(file)
    ensures var maps := SevenMaps(file, users, groups, words, events, privs, calls);
      Over(maps) == Excess(users) + Excess(groups) + Excess(events) + Excess(privs) + Excess(calls) +
                    if NoClass(words) then 1 else 0
  {
    var maps := SevenMaps(file, users, groups, words, events, privs, calls);
    SevenSum(maps);
    FileAgrees(file);
    IdsOver(maps[1]);
    IdsOver(maps[2]);
    ClassesOver(maps[3]);
    IdsOver(maps[4]);
    IdsOver(maps[5]);
    IdsOver(maps[6]);
    hide Data;
    hide SizeOf;
    hide Over;
    hide Excess;
    hide NoClass;
  }

  lemma SevenSum(maps: seq<Map>)
    requires MapsOk(maps) && |maps| == 7
    ensures Over(maps) == Beyond(maps[0]) + Beyond(maps[1]) + Beyond(maps[2]) + Beyond(maps[3]) +
                          Beyond(maps[4]) + Beyond(maps[5]) + Beyond(maps[6])
  {
    OverNone();
    hide *;
    OverAt(maps, 1);
    OverAt(maps, 2);
    OverAt(maps, 3);
    OverAt(maps, 4);
    OverAt(maps, 5);
    OverAt(maps, 6);
    OverAt(maps, 7);
    assert maps[..0] == [] && maps[..7] == maps;
  }

  lemma OverNone()
    ensures Over([]) == 0
  {
  }

  lemma OverAt(maps: seq<Map>, i: nat)
    requires MapsOk(maps) && 0 < i <= |maps|
    ensures MapsOk(maps[..i]) && MapsOk(maps[..i - 1])
    ensures Over(maps[..i]) == Over(maps[..i - 1]) + Beyond(maps[i - 1])
  {
    hide MapOk;
    hide Beyond;
    assert maps[..i][..i - 1] == maps[..i - 1];
  }

  lemma IdsOver(m: Map)
    requires m.Ids?
    ensures Beyond(m) == Excess(m.entries)
  {
    IdsDiffer(m.entries);
  }

  lemma ClassesOver(m: Map)
    requires m.Classes?
    ensures Beyond(m) == if NoClass(m.words) then 1 else 0
  {
    WordsDiffer(m.words);
  }
}
