/** The record and field buffers of awk (usr/src/common/cmd/awk/lib.c, tran.c, run.c).  $0 and
    $1..$NF are two views of the same data, each rebuilt from the other only when it is looked at;
    the flags donefld and donerec say which of them is up to date. */
module AwkFields {
  import opened Decimal

  const MAXFLD := 200

  // ----- Splitting and joining ----------------------------------------------------------------

  predicate IsBlank(c: char) {
    c == ' ' || c == '\t' || c == '\n'
  }

  /** With a one-character FS that character separates fields; newline always does. */
  predicate IsSep(c: char, fs: string) {
    c == '\n' || (|fs| == 1 && c == fs[0])
  }

  predicate NoSep(s: string, fs: string) {
    forall i :: 0 <= i < |s| ==> !IsSep(s[i], fs)
  }

  predicate NoBlank(s: string) {
    forall i :: 0 <= i < |s| ==> !IsBlank(s[i])
  }

  /** How many characters stand before the first separator. */
  function SepSpan(s: string, fs: string): (k: nat)
    ensures k <= |s| && NoSep(s[..k], fs) && (k < |s| ==> IsSep(s[k], fs))
  {
    if s == "" || IsSep(s[0], fs) then 0
    else
      var k := 1 + SepSpan(s[1..], fs);
      assert s[..k] == [s[0]] + s[1..][..k - 1];
      k
  }

  /** How many characters stand before the first blank. */
  function WordSpan(s: string): (k: nat)
    ensures k <= |s| && NoBlank(s[..k]) && (k < |s| ==> IsBlank(s[k]))
  {
    if s == "" || IsBlank(s[0]) then 0
    else
      var k := 1 + WordSpan(s[1..]);
      assert s[..k] == [s[0]] + s[1..][..k - 1];
      k
  }

  /** How many blanks lead. */
  function BlankSpan(s: string): (k: nat)
    ensures k <= |s| && (k < |s| ==> !IsBlank(s[k]))
  {
    if s != "" && IsBlank(s[0]) then 1 + BlankSpan(s[1..]) else 0
  }

  lemma {:induction false} SepSpanOf(a: string, t: string, fs: string)
    requires NoSep(a, fs) && (t == "" || IsSep(t[0], fs))
    ensures SepSpan(a + t, fs) == |a|
  {
    if a == "" {
      assert a + t == t;
    } else {
      assert (a + t)[1..] == a[1..] + t;
      SepSpanOf(a[1..], t, fs);
    }
  }

  lemma {:induction false} WordSpanOf(a: string, t: string)
    requires NoBlank(a) && (t == "" || IsBlank(t[0]))
    ensures WordSpan(a + t) == |a|
  {
    if a == "" {
      assert a + t == t;
    } else {
      assert (a + t)[1..] == a[1..] + t;
      WordSpanOf(a[1..], t);
    }
  }

  /** The words of a record between blanks, tabs and newlines. */
  function Words(s: string): seq<string>
    decreases |s|
  {
    var t := s[BlankSpan(s)..];
    if t == "" then [] else [t[..WordSpan(t)]] + Words(t[WordSpan(t)..])
  }

  /** The pieces of a record between separators; even an empty record is one piece. */
  function Pieces(s: string, fs: string): (ps: seq<string>)
    ensures ps != []
    decreases |s|
  {
    var k := SepSpan(s, fs);
    if k == |s| then [s] else [s[..k]] + Pieces(s[k + 1..], fs)
  }

  /** The fields of a record.  A longer FS is a regular expression, whose splitting is `re`. */
  function Split(s: string, fs: string, re: (string, string) -> seq<string>): seq<string> {
    if |fs| > 1 then (if s == "" then [] else re(s, fs))
    else if fs == " " then Words(s)
    else if s == "" then []
    else Pieces(s, fs)
  }

  /** The fields with a separator between each two. */
  function Join(fields: seq<string>, sep: string): string {
    if fields == [] then ""
    else if |fields| == 1 then fields[0]
    else Join(fields[..|fields| - 1], sep) + sep + fields[|fields| - 1]
  }

  function JoinFront(fields: seq<string>, sep: string): string {
    if fields == [] then ""
    else if |fields| == 1 then fields[0]
    else fields[0] + sep + JoinFront(fields[1..], sep)
  }

  lemma {:induction false} JoinBothWays(fields: seq<string>, sep: string)
    ensures Join(fields, sep) == JoinFront(fields, sep)
    decreases |fields|
  {
    var n := |fields|;
    if n >= 2 {
      var init, tail := fields[..n - 1], fields[1..];
      JoinBothWays(init, sep);
      JoinBothWays(tail, sep);
      if n > 2 {
        assert init[1..] == tail[..n - 2];
        JoinBothWays(tail[..n - 2], sep);
      }
    }
  }

  /** The length of all fields together. */
  function Lens(fields: seq<string>): nat {
    if fields == [] then 0 else Lens(fields[..|fields| - 1]) + |fields[|fields| - 1]|
  }

  lemma {:induction false} JoinedLength(fields: seq<string>, sep: string)
    requires fields != []
    ensures |Join(fields, sep)| == Lens(fields) + (|fields| - 1) * |sep|
  {
    var n := |fields| - 1;
    var init := fields[..n];
    if n == 0 {
      assert Lens(init) == 0;
    } else {
      JoinedLength(init, sep);
      OneMore(n - 1, |sep|);
    }
  }

  lemma OneMore(k: nat, a: nat)
    ensures (k + 1) * a == k * a + a
  {
  }

  /** Different separators join two or more fields differently. */
  lemma JoinedAlike(fields: seq<string>, a: string, b: string)
    ensures Join(fields, a) == Join(fields, b) <==> a == b || |fields| <= 1
  {
    if |fields| > 1 && Join(fields, a) == Join(fields, b) {
      JoinedLength(fields, a);
      JoinedLength(fields, b);
      SameProduct(|fields| - 1, |a|, |b|);
      JoinBothWays(fields, a);
      JoinBothWays(fields, b);
      var n := |fields[0]|;
      assert a == JoinFront(fields, a)[n..n + |a|];
      assert b == JoinFront(fields, b)[n..n + |b|];
    }
  }

  lemma SameProduct(k: nat, a: nat, b: nat)
    requires k > 0 && k * a == k * b
    ensures a == b
  {
    if a < b {
      LessProduct(k, a, b);
    } else if b < a {
      LessProduct(k, b, a);
    }
  }

  lemma LessProduct(k: nat, a: nat, b: nat)
    requires k > 0 && a < b
    ensures k * a < k * b
  {
    assert k * (b - a) > 0;
  }

  lemma {:induction false} JoinLength(s: string, fs: string)
    requires |fs| == 1
    ensures |JoinFront(Pieces(s, fs), fs)| == |s|
    decreases |s|
  {
    var k := SepSpan(s, fs);
    if k < |s| {
      JoinLength(s[k + 1..], fs);
      assert ([s[..k]] + Pieces(s[k + 1..], fs))[1..] == Pieces(s[k + 1..], fs);
    }
  }

  lemma SameAfter(s: string, j: string, k: nat, fs: string, jr: string)
    requires |fs| == 1 && k < |s| && |jr| == |s| - k - 1
    requires j == s[..k] + fs + jr
    ensures j == s <==> fs[0] == s[k] && jr == s[k + 1..]
  {
    if j == s {
      assert j[k] == fs[0] && j[k + 1..] == jr;
    }
    if fs[0] == s[k] && jr == s[k + 1..] {
      forall i | 0 <= i < |s|
        ensures j[i] == s[i]
      {
        if i > k {
          assert j[i] == jr[i - k - 1];
        }
      }
    }
  }

  lemma JoinFrontSteps(fields: seq<string>, sep: string)
    requires fields != []
    ensures JoinFront(fields, sep) == fields[0] + if |fields| == 1 then "" else sep + JoinFront(fields[1..], sep)
  {
  }

  lemma JoinCons(w: string, ps: seq<string>, fs: string)
    requires ps != []
    ensures JoinFront([w] + ps, fs) == w + fs + JoinFront(ps, fs)
  {
    JoinFrontSteps([w] + ps, fs);
    assert ([w] + ps)[1..] == ps;
  }

  lemma FirstPiece(s: string, fs: string)
    requires |fs| == 1 && SepSpan(s, fs) < |s|
    ensures var k := SepSpan(s, fs); var rest := s[k + 1..];
      JoinFront(Pieces(s, fs), fs) == s <==> fs[0] == s[k] && JoinFront(Pieces(rest, fs), fs) == rest
  {
    var k := SepSpan(s, fs);
    var rest := s[k + 1..];
    var ps := Pieces(rest, fs);
    assert Pieces(s, fs) == [s[..k]] + ps;
    hide *;
    JoinLength(rest, fs);
    JoinCons(s[..k], ps, fs);
    SameAfter(s, JoinFront(Pieces(s, fs), fs), k, fs, JoinFront(ps, fs));
  }

  lemma NewlineAfter(s: string, k: nat)
    requires k < |s| && '\n' !in s[..k]
    ensures '\n' in s <==> s[k] == '\n' || '\n' in s[k + 1..]
  {
    assert forall i :: 0 <= i < k ==> s[..k][i] == s[i];
    assert forall i :: k < i < |s| ==> s[k + 1..][i - k - 1] == s[i];
  }

  /** Splitting at a separator character and joining with it gives the record back, unless a
      newline, which also separates, was replaced on the way. */
  lemma {:induction false} JoinOfPieces(s: string, fs: string)
    requires |fs| == 1
    ensures JoinFront(Pieces(s, fs), fs) == s <==> '\n' !in s || fs == "\n"
    decreases |s|
  {
    var k := SepSpan(s, fs);
    if k < |s| {
      hide JoinFront;
      hide Pieces;
      FirstPiece(s, fs);
      NewlineAfter(s, k);
      JoinOfPieces(s[k + 1..], fs);
      assert fs == "\n" <==> fs[0] == '\n';
    }
  }

  /** Joining with a separator character and splitting at it gives the fields back exactly when no
      field holds a separator. */
  lemma {:induction false} PiecesOfJoin(fields: seq<string>, fs: string)
    requires |fs| == 1 && fields != []
    ensures Pieces(JoinFront(fields, fs), fs) == fields <==> forall i :: 0 <= i < |fields| ==> NoSep(fields[i], fs)
    decreases |fields|
  {
    PiecesHaveNoSep(JoinFront(fields, fs), fs);
    if forall i :: 0 <= i < |fields| ==> NoSep(fields[i], fs) {
      var tail := fields[1..];
      assert forall i :: 0 <= i < |tail| ==> tail[i] == fields[i + 1];
      if tail != [] {
        PiecesOfJoin(tail, fs);
      }
      FirstOfJoin(fields, fs);
    }
  }

  lemma OnePiece(w: string, fs: string)
    requires NoSep(w, fs)
    ensures Pieces(w, fs) == [w]
  {
    SepSpanOf(w, "", fs);
    assert w + "" == w;
  }

  lemma PieceThenRest(w: string, fs: string, rest: string)
    requires |fs| == 1 && NoSep(w, fs)
    ensures Pieces(w + fs + rest, fs) == [w] + Pieces(rest, fs)
  {
    var j := w + fs + rest;
    SepSpanOf(w, fs + rest, fs);
    assert j == w + (fs + rest);
    assert j[|w| + 1..] == rest && j[..|w|] == w;
  }

  lemma FirstOfJoin(fields: seq<string>, fs: string)
    requires |fs| == 1 && fields != [] && NoSep(fields[0], fs)
    requires |fields| > 1 ==> Pieces(JoinFront(fields[1..], fs), fs) == fields[1..]
    ensures Pieces(JoinFront(fields, fs), fs) == fields
  {
    hide Pieces;
    hide NoSep;
    OnePiece(fields[0], fs);
    if |fields| == 1 {
      assert fields == [fields[0]];
    } else {
      PieceThenRest(fields[0], fs, JoinFront(fields[1..], fs));
      assert fields == [fields[0]] + fields[1..];
    }
  }

  lemma {:induction false} PiecesHaveNoSep(s: string, fs: string)
    ensures forall i :: 0 <= i < |Pieces(s, fs)| ==> NoSep(Pieces(s, fs)[i], fs)
    decreases |s|
  {
    var k := SepSpan(s, fs);
    if k < |s| {
      PiecesHaveNoSep(s[k + 1..], fs);
    }
  }

  /** A record survives being split and rebuilt when FS, one character other than blank, equals OFS:
      exactly when no newline is replaced. */
  lemma RebuildOfSplit(s: string, fs: string, re: (string, string) -> seq<string>)
    requires |fs| == 1 && fs != " "
    ensures Join(Split(s, fs, re), fs) == s <==> '\n' !in s || fs == "\n"
  {
    JoinBothWays(Split(s, fs, re), fs);
    JoinOfPieces(s, fs);
  }

  /** Fields survive being joined and split again exactly when none holds a separator and they are
      not one empty field, which joins to the record without fields. */
  lemma SplitOfRebuild(fields: seq<string>, fs: string, re: (string, string) -> seq<string>)
    requires |fs| == 1 && fs != " "
    ensures Split(Join(fields, fs), fs, re) == fields <==>
              (forall i :: 0 <= i < |fields| ==> NoSep(fields[i], fs)) && fields != [""]
  {
    JoinBothWays(fields, fs);
    if fields != [] {
      PiecesOfJoin(fields, fs);
    }
  }

  /** A word is not empty and free of blanks. */
  predicate IsWord(w: string) {
    w != "" && NoBlank(w)
  }

  predicate AllWords(fields: seq<string>) {
    forall i :: 0 <= i < |fields| ==> IsWord(fields[i])
  }

  lemma AllWordsCons(w: string, tail: seq<string>)
    requires IsWord(w) && AllWords(tail)
    ensures AllWords([w] + tail)
  {
  }

  lemma {:induction false} WordsAreWords(s: string)
    ensures AllWords(Words(s))
    decreases |s|
  {
    var t := s[BlankSpan(s)..];
    if t != "" {
      var w, rest := t[..WordSpan(t)], t[WordSpan(t)..];
      assert Words(s) == [w] + Words(rest) && IsWord(w) && |rest| < |s|;
      hide *;
      WordsAreWords(rest);
      AllWordsCons(w, Words(rest));
    }
  }

  lemma SkipOneBlank(s: string)
    requires s != "" && IsBlank(s[0])
    ensures Words(s) == Words(s[1..])
  {
    assert s[BlankSpan(s)..] == s[1..][BlankSpan(s[1..])..];
  }

  lemma TakeOneWord(s: string, e: nat)
    requires 0 < e <= |s| && NoBlank(s[..e]) && (e < |s| ==> IsBlank(s[e]))
    ensures Words(s) == [s[..e]] + Words(s[e..])
  {
    assert s == s[..e] + s[e..] && IsWord(s[..e]);
    FirstWord(s, s[..e], s[e..]);
  }

  lemma TakeOnePiece(s: string, fs: string, e: nat)
    requires e <= |s| && NoSep(s[..e], fs) && (e < |s| ==> IsSep(s[e], fs))
    ensures Pieces(s, fs) == if e == |s| then [s] else [s[..e]] + Pieces(s[e + 1..], fs)
  {
    assert s == s[..e] + s[e..];
    SepSpanOf(s[..e], s[e..], fs);
  }

  lemma FirstWord(s: string, w: string, rest: string)
    requires s == w + rest || s == " " + (w + rest)
    requires IsWord(w) && (rest == "" || IsBlank(rest[0]))
    ensures Words(s) == [w] + Words(rest)
  {
    var t := w + rest;
    assert t[0] == w[0];
    if s != t {
      assert s[1..] == t;
    }
    assert s[BlankSpan(s)..] == t;
    WordSpanOf(w, rest);
    assert t[..|w|] == w && t[|w|..] == rest;
  }

  lemma NoWords()
    ensures Words("") == []
  {
  }

  lemma AllWordsTail(fields: seq<string>)
    requires AllWords(fields) && fields != []
    ensures IsWord(fields[0]) && AllWords(fields[1..])
  {
  }

  lemma WordThenRest(w: string, tail: seq<string>, rest: string)
    requires IsWord(w) && Words(rest) == tail && (rest == "" || IsBlank(rest[0]))
    ensures Words(w + rest) == [w] + tail && Words(" " + (w + rest)) == [w] + tail
  {
    hide Words;
    FirstWord(w + rest, w, rest);
    FirstWord(" " + (w + rest), w, rest);
  }

  lemma {:induction false} WordsOfJoin(fields: seq<string>)
    requires AllWords(fields)
    ensures Words(JoinFront(fields, " ")) == fields
    ensures fields != [] ==> Words(" " + JoinFront(fields, " ")) == fields
    decreases |fields|
  {
    NoWords();
    if fields != [] {
      hide Words;
      hide JoinFront;
      hide IsWord;
      hide AllWords;
      var w, tail := fields[0], fields[1..];
      AllWordsTail(fields);
      WordsOfJoin(tail);
      JoinFrontSteps(fields, " ");
      WordThenRest(w, tail, if tail == [] then "" else " " + JoinFront(tail, " "));
      assert fields == [w] + tail;
    }
  }

  /** With the default FS, words joined by blanks are split into the same words exactly when they
      are words. */
  lemma SplitOfRebuildBlank(fields: seq<string>, re: (string, string) -> seq<string>)
    ensures Split(Join(fields, " "), " ", re) == fields <==> AllWords(fields)
  {
    JoinBothWays(fields, " ");
    WordsAreWords(Join(fields, " "));
    if AllWords(fields) {
      WordsOfJoin(fields);
    }
  }

  lemma BlankAt(s: string, b: nat)
    requires b < |s| && IsBlank(s[b])
    ensures Words(s[b..]) == Words(s[b + 1..])
  {
    SkipOneBlank(s[b..]);
    assert s[b..][1..] == s[b + 1..];
  }

  lemma WordAt(s: string, b: nat, e: nat)
    requires b < e <= |s| && (forall k :: b <= k < e ==> !IsBlank(s[k])) && (e < |s| ==> IsBlank(s[e]))
    ensures Words(s[b..]) == [s[b..e]] + Words(s[e..])
  {
    hide Words;
    assert s[b..][..e - b] == s[b..e] && s[b..][e - b..] == s[e..];
    TakeOneWord(s[b..], e - b);
  }

  lemma PieceAt(s: string, fs: string, r: nat, e: nat)
    requires r <= e <= |s| && (forall k :: r <= k < e ==> !IsSep(s[k], fs)) && (e < |s| ==> IsSep(s[e], fs))
    ensures Pieces(s[r..], fs) == [s[r..e]] + if e == |s| then [] else Pieces(s[e + 1..], fs)
  {
    hide Pieces;
    assert s[r..][..e - r] == s[r..e] && (e < |s| ==> s[r..][e - r + 1..] == s[e + 1..]);
    TakeOnePiece(s[r..], fs, e - r);
    if e == |s| {
      assert s[r..] == s[r..e] && [s[r..e]] + [] == [s[r..e]];
    }
  }

  /** Skip blanks, then find the end of the word that follows, if any. */
  method NextWord(s: string, r: nat) returns (b: nat, e: nat)
    requires r <= |s|
    ensures r <= b <= e <= |s|
    ensures b == |s| ==> Words(s[r..]) == []
    ensures b < |s| ==> b < e && Words(s[r..]) == [s[b..e]] + Words(s[e..])
  {
    hide Words;
    NoWords();
    b := r;
    while b < |s| && IsBlank(s[b])
      invariant r <= b <= |s| && Words(s[r..]) == Words(s[b..])
    {
      BlankAt(s, b);
      b := b + 1;
    }
    e := b;
    assert s[|s|..] == "";
    if b == |s| {
      return;
    }
    e := b + 1;
    while e < |s| && !IsBlank(s[e])
      invariant b < e <= |s| && forall k :: b <= k < e ==> !IsBlank(s[k])
    {
      e := e + 1;
    }
    WordAt(s, b, e);
  }

  /** Find the end of the piece that starts at r. */
  method NextSep(s: string, r: nat, fs: string) returns (e: nat)
    requires r <= |s|
    ensures r <= e <= |s|
    ensures Pieces(s[r..], fs) == [s[r..e]] + if e == |s| then [] else Pieces(s[e + 1..], fs)
  {
    hide Pieces;
    e := r;
    while e < |s| && !IsSep(s[e], fs)
      invariant r <= e <= |s| && forall k :: r <= k < e ==> !IsSep(s[k], fs)
    {
      e := e + 1;
    }
    PieceAt(s, fs, r, e);
  }

  lemma EmptySplit(fs: string, re: (string, string) -> seq<string>)
    ensures Split("", fs, re) == []
  {
    NoWords();
  }

  lemma JoinNothing(sep: string)
    ensures Join([], sep) == ""
  {
  }

  lemma OneWord(w: string)
    requires IsWord(w)
    ensures Words(w) == [w]
  {
    FirstWord(w, w, "");
    NoWords();
  }

  // ----- The separators ---------------------------------------------------------------------------

  /** With the default FS blanks, tabs and newlines separate fields, however many there are, and
      nothing else does. */
  lemma BlanksSeparate(a: string, c: char, t: string, re: (string, string) -> seq<string>)
    requires c == ' ' || c == '\t' || c == '\n'
    requires forall i :: 0 <= i < |a| ==> a[i] != ' ' && a[i] != '\t' && a[i] != '\n'
    ensures Split("", " ", re) == [] && Split([c] + t, " ", re) == Split(t, " ", re)
    ensures a != "" ==> Split(a, " ", re) == [a] && Split(a + [c] + t, " ", re) == [a] + Split(t, " ", re)
  {
    assert NoBlank(a) && IsBlank(c);
    hide NoBlank;
    NoWords();
    assert ([c] + t)[0] == c && ([c] + t)[1..] == t;
    SkipOneBlank([c] + t);
    if a != "" {
      assert IsWord(a);
      OneWord(a);
      assert a + [c] + t == a + ([c] + t);
      WordThenRest(a, Words([c] + t), [c] + t);
    }
  }

  lemma NoBlankInside(s: string, k: nat, i: nat, re: (string, string) -> seq<string>)
    requires k < |Split(s, " ", re)| && i < |Split(s, " ", re)[k]|
    ensures var c := Split(s, " ", re)[k][i]; c != ' ' && c != '\t' && c != '\n'
  {
    WordsAreWords(s);
    hide Words;
    assert IsWord(Words(s)[k]);
    assert !IsBlank(Words(s)[k][i]);
  }

  /** With one character for FS (or none), that character and the newline separate fields, each time one
      comes, and nothing else does. */
  lemma CharSeparates(fs: string, a: string, c: char, t: string, re: (string, string) -> seq<string>)
    requires |fs| <= 1 && fs != " " && (c == '\n' || (fs != "" && c == fs[0]))
    requires forall i :: 0 <= i < |a| ==> a[i] != '\n' && (fs != "" ==> a[i] != fs[0])
    ensures Split("", fs, re) == [] && (a != "" ==> Split(a, fs, re) == [a])
    ensures Split(a + [c] + t, fs, re) == [a] + if t == "" then [""] else Split(t, fs, re)
  {
    assert NoSep(a, fs) && IsSep(c, fs);
    hide NoSep;
    OnePiece(a, fs);
    OnePiece("", fs) by {
      assert NoSep("", fs);
    }
    var s := a + [c] + t;
    assert s == a + ([c] + t);
    SepSpanOf(a, [c] + t, fs);
    assert s[..|a|] == a && s[|a| + 1..] == t;
  }

  // ----- What a program sees --------------------------------------------------------------------

  /** What an awk that splits and joins at once would hold. */
  datatype Eager = Eager(rec: string, fields: seq<string>, fs: string, ofs: string)

  function Pad(fields: seq<string>, n: nat): (r: seq<string>)
    ensures |r| == if n <= |fields| then |fields| else n
  {
    if n <= |fields| then fields else fields + seq(n - |fields|, _ => "")
  }

  /** A number: one that is printed as a long, or another with the text that CONVFMT gives it. */
  datatype Number = Whole(n: int) | Fraction(r: real, text: string) {
    function Text(): string {
      if Whole? then LongText(n) else text
    }
  }

  datatype Op =
    | Read(text: string)                  // a record from the input
    | SetRecord(text: string)             // $0 = text
    | SetField(n: nat, text: string)      // $n = text, n >= 1
    | SetNumber(n: nat, f: Number)        // $n = number
    | SetFS(text: string)                 // FS = text
    | GetRecord                           // use $0
    | GetField(n: nat)                    // use $n, n >= 1
    | GetNF                               // use NF

  /** A store to field n, joined at once. */
  function Stored(v: Eager, n: nat, t: string): Eager {
    if n == 0 then v else
    var fields := Pad(v.fields, n)[n - 1 := t];
    v.(rec := Join(fields, v.ofs), fields := fields)
  }

  /** Afterwards there are as many fields as before, or n if that is more; field n is the text, those
      before it that were not there are empty, and the others are as they were; and $0 is all of them with
      OFS between each two. */
  lemma StoredIs(v: Eager, n: nat, t: string)
    requires n >= 1
    ensures var w := Stored(v, n, t);
      && |w.fields| == (if n > |v.fields| then n else |v.fields|) && w.fields[n - 1] == t
      && (forall k :: 0 <= k < |w.fields| && k != n - 1 ==>
            w.fields[k] == if k < |v.fields| then v.fields[k] else "")
      && w.rec == Join(w.fields, v.ofs) && w.fs == v.fs && w.ofs == v.ofs
  {
  }

  function Step(v: Eager, op: Op, re: (string, string) -> seq<string>): Eager {
    match op
    case Read(t) => v.(rec := t, fields := Split(t, v.fs, re))
    case SetRecord(t) => v.(rec := t, fields := Split(t, v.fs, re))
    case SetField(n, t) => Stored(v, n, t)
    case SetNumber(n, f) => Stored(v, n, f.Text())
    case SetFS(t) => v.(fs := t)
    case GetRecord => v
    case GetField(n) => v
    case GetNF => v
  }

  datatype Seen = Nothing | Text(s: string) | Count(n: int)

  function See(v: Eager, op: Op): Seen {
    match op
    case GetRecord => Text(v.rec)
    case GetField(n) => if 1 <= n <= |v.fields| then Text(v.fields[n - 1]) else Text("")
    case GetNF => Count(|v.fields|)
    case _ => Nothing
  }

  /** Only these operations split the record, if it is not split yet. */
  predicate Splits(op: Op) {
    op.SetField? || op.SetNumber? || op.SetFS? || op.GetField? || op.GetNF?
  }

  /** The table has room for what the operation splits and names. */
  predicate Fits(v: Eager, op: Op) {
    && (Splits(op) ==> |v.fields| < 200)
    && (op.SetField? || op.SetNumber? || op.GetField? ==> 1 <= op.n < 200)
  }

  function Replay(v: Eager, ops: seq<Op>, re: (string, string) -> seq<string>): Eager
    decreases |ops|
  {
    if ops == [] then v else Replay(Step(v, ops[0], re), ops[1..], re)
  }

  function Seens(v: Eager, ops: seq<Op>, re: (string, string) -> seq<string>): seq<Seen>
    decreases |ops|
  {
    if ops == [] then [] else [See(v, ops[0])] + Seens(Step(v, ops[0], re), ops[1..], re)
  }

  predicate AllFit(v: Eager, ops: seq<Op>, re: (string, string) -> seq<string>)
    decreases |ops|
  {
    ops == [] || (Fits(v, ops[0]) && AllFit(Step(v, ops[0], re), ops[1..], re))
  }

  lemma ReadExample(re: (string, string) -> seq<string>)
    ensures Step(Eager("", [], " ", "-"), Read("a\tb  c"), re) == Eager("a\tb  c", ["a", "b", "c"], " ", "-")
  {
    hide Split;
    BlanksSeparate("a", '\t', "b  c", re);
    BlanksSeparate("b", ' ', " c", re);
    BlanksSeparate("c", ' ', "c", re);
    assert "a\tb  c" == "a" + ['\t'] + "b  c" && "b  c" == "b" + [' '] + " c" && " c" == [' '] + "c";
    assert ["b"] + ["c"] == ["b", "c"] && ["a"] + ["b", "c"] == ["a", "b", "c"];
  }

  lemma StoreExample(re: (string, string) -> seq<string>)
    ensures var v := Eager("", ["a", "b", "c"], " ", "-");
      && Step(v, SetField(2, "x"), re) == Eager("a-x-c", ["a", "x", "c"], " ", "-")
      && Step(v, SetNumber(5, Whole(-7)), re) == Eager("a-b-c---7", ["a", "b", "c", "", "-7"], " ", "-")
  {
    hide Join;
    hide LongText;
    hide Split;
    JoinThree("a", "x", "c", "-");
    JoinFive("a", "b", "c", "", "-7", "-");
    MinusSeven();
    assert Pad(["a", "b", "c"], 5) == ["a", "b", "c", "", ""];
    assert ["a", "b", "c", "", ""][4 := "-7"] == ["a", "b", "c", "", "-7"];
    assert Pad(["a", "b", "c"], 2)[1 := "x"] == ["a", "x", "c"];
    assert "a" + "-" + "b" + "-" + "c" + "-" + "" + "-" + "-7" == "a-b-c---7";
    assert "a" + "-" + "x" + "-" + "c" == "a-x-c";
  }

  /** A change of FS is for the next record. */
  lemma SeparatorExample(re: (string, string) -> seq<string>)
    ensures var v := Step(Eager("p:q r", ["p:q", "r"], " ", " "), SetFS(":"), re);
      && v == Eager("p:q r", ["p:q", "r"], ":", " ")
      && Step(v, Read("r:s"), re) == Step(v, SetRecord("r:s"), re) == Eager("r:s", ["r", "s"], ":", " ")
  {
    hide Split;
    CharSeparates(":", "r", ':', "s", re);
    CharSeparates(":", "s", ':', "", re);
    assert "r:s" == "r" + [':'] + "s" && ["r"] + ["s"] == ["r", "s"];
  }

  lemma SeeExample()
    ensures var v := Eager("a b", ["a", "b"], " ", " ");
      && See(v, GetRecord) == Text("a b") && See(v, GetField(1)) == Text("a") && See(v, GetField(2)) == Text("b")
      && See(v, GetField(3)) == Text("") && See(v, GetNF) == Count(2) && See(v, Read("c")) == Nothing
  {
  }

  lemma JoinThree(a: string, b: string, c: string, sep: string)
    ensures Join([a, b, c], sep) == a + sep + b + sep + c
  {
    assert [a, b, c][..2] == [a, b] && [a, b][..1] == [a];
    assert Join([a], sep) == a && Join([a, b], sep) == a + sep + b;
  }

  lemma MinusSeven()
    ensures LongText(-7) == "-7"
  {
    assert Dec(7) == "7";
  }

  lemma JoinFive(a: string, b: string, c: string, d: string, e: string, sep: string)
    ensures Join([a, b, c, d, e], sep) == a + sep + b + sep + c + sep + d + sep + e
  {
    JoinThree(a, b, c, sep);
    assert [a, b, c, d, e][..4] == [a, b, c, d] && [a, b, c, d][..3] == [a, b, c];
  }

  // ----- The lazy implementation ------------------------------------------------------------------

  const ZERO := Whole(0)

  /** The value of a field or of $0; the flags say which of its two forms are valid. */
  datatype Value = Value(sval: string, fval: Number, str: bool, num: bool) {
    predicate Ok() {
      str || num
    }

    function Text(): string {
      if str then sval else fval.Text()
    }
  }

  const EMPTY := Value("", ZERO, true, false)

  /** What arrives when a record is asked for. */
  datatype Input = Record(text: string) | Eof

  function LastFS(fs: string, operands: seq<string>): string {
    if operands == [] then fs else operands[|operands| - 1]
  }

  /** The text of $0 while a record is being looked for. */
  function Exposed(main: bool, inbuf: bool, rec: Value): string {
    if main && inbuf then "" else rec.Text()
  }

  /** What the program sees after asking for a record, from the state before. */
  function GetrecView(main: bool, inbuf: bool, rec: Value, fs: string, ofs: string,
                      operands: seq<string>, next: Input, re: (string, string) -> seq<string>): Eager {
    var text := if main && next.Record? then next.text else rec.Text();
    var shown := if operands == [] then text else Exposed(main, inbuf, rec);
    Eager(text, Split(shown, fs, re), LastFS(fs, operands), ofs)
  }

  class Awk {
    const re: (string, string) -> seq<string>
    const fldtab: array<Value>       // [1..MAXFLD) are the fields
    var rec: Value                   // recloc
    var inbuf: bool                  // recloc's string is the record buffer
    var FS: string
    var OFS: string
    var NF: int
    var maxfld: nat
    var donefld: bool
    var donerec: bool

    /** The texts of the first n fields in the table. */
    ghost function Table(n: nat): (fields: seq<string>)
      requires n < MAXFLD == fldtab.Length
      reads fldtab
      ensures |fields| == n && forall k :: 0 <= k < n ==> fields[k] == fldtab[k + 1].Text()
    {
      if n == 0 then [] else Table(n - 1) + [fldtab[n].Text()]
    }

    /** Fields past maxfld are empty, and every value has a valid form. */
    ghost predicate TableOk()
      reads fldtab, `maxfld
      ensures TableOk() ==> fldtab.Length == MAXFLD && maxfld < MAXFLD
    {
      && fldtab.Length == MAXFLD && maxfld < MAXFLD
      && (forall k :: 1 <= k <= maxfld ==> fldtab[k].Ok())
      && (forall k :: maxfld < k < MAXFLD ==> fldtab[k] == EMPTY)
    }

    /** Before the first record everything is empty and neither view has been built. */
    ghost predicate Initial()
      reads `donefld, `donerec, `NF, `maxfld, `rec
    {
      !donefld && !donerec && NF == 0 && maxfld == 0 && rec.Text() == ""
    }

    ghost predicate Valid()
      reads this, fldtab
      ensures Valid() ==> fldtab.Length == MAXFLD && maxfld < MAXFLD
    {
      && TableOk() && rec.Ok() && (inbuf ==> rec.str)
      && (donefld ==> NF == maxfld)
      && (donefld || donerec || Initial())
    }

    /** What the program sees: the view that is up to date, and the one made from it. */
    ghost function View(): Eager
      requires TableOk()
      reads this, fldtab
    {
      var fields := if donefld then Table(maxfld) else Split(rec.Text(), FS, re);
      Eager(if donerec then rec.Text() else Join(fields, OFS), fields, FS, OFS)
    }

    constructor (re: (string, string) -> seq<string>)
      ensures Valid() && View() == Eager("", [], " ", " ") && fresh(fldtab)
      ensures inbuf && !donefld && !donerec
    {
      this.re := re;
      fldtab := new Value[MAXFLD](_ => EMPTY);
      rec, inbuf, FS, OFS, NF, maxfld, donefld, donerec := EMPTY, true, " ", " ", 0, 0, false, false;
      new;
      hide Split;
      hide Join;
      EmptySplit(FS, re);
      JoinNothing(OFS);
    }

    /** Store a piece of the record as field i; there is room for fields 1..MAXFLD-1. */
    method PutField(i: nat, piece: string) returns (ok: bool)
      requires fldtab.Length == MAXFLD && i >= 1
      modifies fldtab
      ensures ok <==> i < MAXFLD
      ensures forall k :: 0 <= k < MAXFLD && k != i ==> fldtab[k] == old(fldtab[k])
      ensures ok ==> fldtab[i] == Value(piece, ZERO, true, false)
    {
      ok := i < MAXFLD;
      if ok {
        fldtab[i] := Value(piece, ZERO, true, false);
      }
    }

    /** The first i fields hold the first i of `fields`, as strings. */
    ghost predicate Stored(fields: seq<string>, i: nat)
      reads fldtab
    {
      i <= |fields| && i < MAXFLD == fldtab.Length &&
      forall k {:trigger fldtab[k]} :: 1 <= k <= i ==> fldtab[k] == Value(fields[k - 1], ZERO, true, false)
    }

    /** The field table with one more piece stored. */
    method PutNext(i: nat, piece: string, ghost fields: seq<string>, ghost rest: seq<string>) returns (ok: bool)
      requires Stored(fields, i) && fields[i..] == [piece] + rest
      modifies fldtab
      ensures i < |fields| && fields[i + 1..] == rest
      ensures ok <==> i + 1 < MAXFLD
      ensures ok ==> Stored(fields, i + 1)
      ensures forall k :: i + 1 < k < MAXFLD ==> fldtab[k] == old(fldtab[k])
    {
      assert fields[i..][0] == fields[i] && fields[i..][1..] == fields[i + 1..];
      ok := PutField(i + 1, piece);
    }

    /** Fields separated by blanks; fails when there is no room for one more. */
    method SplitWords(s: string) returns (i: nat, ok: bool)
      requires fldtab.Length == MAXFLD
      modifies fldtab
      ensures ok <==> |Words(s)| < MAXFLD
      ensures ok ==> i == |Words(s)| && Stored(Words(s), i)
      ensures ok ==> forall k :: i < k < MAXFLD ==> fldtab[k] == old(fldtab[k])
    {
      hide Words;
      ghost var ws := Words(s);
      var r := 0;
      i, ok := 0, true;
      assert s[0..] == s && ws[0..] == ws;
      while true
        invariant 0 <= r <= |s| && i <= |ws| && Words(s[r..]) == ws[i..] && ok
        invariant Stored(ws, i)
        invariant forall k :: i < k < MAXFLD ==> fldtab[k] == old(fldtab[k])
        decreases |s| - r
      {
        var b, e := NextWord(s, r);
        if b == |s| {
          return;
        }
        ok := PutNext(i, s[b..e], ws, Words(s[e..]));
        i := i + 1;
        if !ok {
          return;
        }
        r := e;
      }
    }

    /** Fields separated by single characters. */
    method SplitPieces(s: string, fs: string) returns (i: nat, ok: bool)
      requires fldtab.Length == MAXFLD && s != ""
      modifies fldtab
      ensures ok <==> |Pieces(s, fs)| < MAXFLD
      ensures ok ==> i == |Pieces(s, fs)| && Stored(Pieces(s, fs), i)
      ensures ok ==> forall k :: i < k < MAXFLD ==> fldtab[k] == old(fldtab[k])
    {
      hide Pieces;
      ghost var ps := Pieces(s, fs);
      var r := 0;
      i, ok := 0, true;
      assert s[0..] == s && ps[0..] == ps;
      while true
        invariant 0 <= r <= |s| && i <= |ps| && Pieces(s[r..], fs) == ps[i..] && ok
        invariant Stored(ps, i)
        invariant forall k :: i < k < MAXFLD ==> fldtab[k] == old(fldtab[k])
        decreases |s| - r
      {
        var e := NextSep(s, r, fs);
        ok := PutNext(i, s[r..e], ps, if e == |s| then [] else Pieces(s[e + 1..], fs));
        i := i + 1;
        if !ok || e == |s| {
          return;
        }
        r := e + 1;
      }
    }

    /** Fields as the regular expression in FS splits them. */
    method SplitRegular(fields: seq<string>) returns (i: nat, ok: bool)
      requires fldtab.Length == MAXFLD
      modifies fldtab
      ensures ok <==> |fields| < MAXFLD
      ensures ok ==> i == |fields| && Stored(fields, i)
      ensures ok ==> forall k :: i < k < MAXFLD ==> fldtab[k] == old(fldtab[k])
    {
      i, ok := 0, true;
      while i < |fields|
        invariant i <= |fields| && ok && Stored(fields, i)
        invariant forall k :: i < k < MAXFLD ==> fldtab[k] == old(fldtab[k])
      {
        assert fields[i..] == [fields[i]] + fields[i + 1..];
        ok := PutNext(i, fields[i], fields, fields[i + 1..]);
        i := i + 1;
        if !ok {
          return;
        }
      }
    }

    /** Empty fields n1+1..n2, from the last down. */
    method Cleanfld(n1: nat, n2: nat)
      requires n1 < MAXFLD && n2 < MAXFLD == fldtab.Length
      modifies fldtab
      ensures forall k {:trigger fldtab[k]} :: 0 <= k < MAXFLD ==>
                fldtab[k] == if n1 < k <= n2 then EMPTY else old(fldtab[k])
    {
      var p: int := n2;
      while p > n1
        invariant p <= n2 && (p >= n1 || p == n2)
        invariant forall k {:trigger fldtab[k]} :: 0 <= k < MAXFLD ==>
                    fldtab[k] == if n1 < k && p < k <= n2 then EMPTY else old(fldtab[k])
      {
        fldtab[p] := EMPTY;
        p := p - 1;
      }
    }

    /** Split the record text into the table. */
    method SplitRecord(s: string) returns (i: nat, ok: bool)
      requires fldtab.Length == MAXFLD
      modifies fldtab
      ensures ok <==> |Split(s, FS, re)| < MAXFLD
      ensures ok ==> i == |Split(s, FS, re)| && Stored(Split(s, FS, re), i)
      ensures ok ==> forall k :: i < k < MAXFLD ==> fldtab[k] == old(fldtab[k])
    {
      hide Words;
      hide Pieces;
      if |FS| > 1 {
        i, ok := SplitRegular(if s == "" then [] else re(s, FS));
      } else if FS == " " {
        i, ok := SplitWords(s);
      } else if s != "" {
        i, ok := SplitPieces(s, FS);
      } else {
        i, ok := 0, true;
      }
    }

    lemma TableIs(fields: seq<string>)
      requires |fields| < MAXFLD == fldtab.Length && Stored(fields, |fields|)
      ensures Table(|fields|) == fields
    {
    }

    /** Fill the table with the fields of a record and empty what an earlier record left. */
    method FillTable(s: string) returns (ok: bool)
      requires TableOk()
      modifies fldtab, `maxfld
      ensures ok <==> |Split(s, FS, re)| < MAXFLD
      ensures ok ==> TableOk() && maxfld == |Split(s, FS, re)| && Table(maxfld) == Split(s, FS, re)
    {
      hide Split;
      var i;
      i, ok := SplitRecord(s);
      if !ok {
        return;
      }
      Cleanfld(i, maxfld);
      maxfld := i;
      TableIs(Split(s, FS, re));
    }

    /** Build the fields from the record, unless they are there already; false when the record has
        too many fields, which ends the program. */
    method Fldbld() returns (ok: bool)
      requires Valid()
      modifies this, fldtab
      ensures ok <==> |old(View()).fields| < MAXFLD
      ensures ok ==> Valid() && donefld && donerec == old(donerec) && View() == old(View())
      ensures FS == old(FS) && OFS == old(OFS)
      ensures rec.Text() == old(rec.Text()) && inbuf == old(inbuf)
    {
      hide Split;
      hide Join;
      hide Table;
      hide TableOk;
      hide Number.Text;
      if donefld {
        return true;
      }
      if !rec.str {
        rec := rec.(sval := rec.Text(), str := true);
        inbuf := false;
      }
      ok := FillTable(rec.sval);
      donefld := true;
      NF := maxfld;
    }

    /** The table shows these texts. */
    ghost predicate Shows(fields: seq<string>)
      reads fldtab
    {
      |fields| < MAXFLD == fldtab.Length &&
      forall k {:trigger fldtab[k]} :: 1 <= k <= |fields| ==> fldtab[k].Text() == fields[k - 1]
    }

    lemma ShowsTable(n: nat)
      requires n < MAXFLD == fldtab.Length
      ensures Shows(Table(n))
      ensures forall fields :: |fields| == n && Shows(fields) ==> Table(n) == fields
    {
      forall fields | |fields| == n && Shows(fields)
        ensures Table(n) == fields
      {
        forall k | 0 <= k < n
          ensures Table(n)[k] == fields[k]
        {
          assert fldtab[k + 1].Text() == fields[k];
        }
      }
    }

    /** The string form of field n, made and kept if only the number was there. */
    method GetsvalField(n: nat, ghost fields: seq<string>) returns (s: string)
      requires TableOk() && Shows(fields) && 1 <= n <= |fields| == maxfld
      modifies fldtab
      ensures TableOk() && Shows(fields) && s == fields[n - 1]
    {
      hide Number.Text;
      assert fldtab[n].Text() == fields[n - 1];
      if !fldtab[n].str {
        fldtab[n] := fldtab[n].(sval := fldtab[n].Text(), str := true);
      }
      s := fldtab[n].sval;
    }

    lemma JoinNext(fields: seq<string>, i: nat)
      requires i < |fields|
      ensures Join(fields[..i + 1], OFS) == if i == 0 then fields[0] else Join(fields[..i], OFS) + OFS + fields[i]
    {
      assert fields[..i + 1][..i] == fields[..i];
    }

    /** The first NF fields, with OFS between each two. */
    method JoinTable(nf: int, ghost fields: seq<string>) returns (r: string)
      requires TableOk() && Shows(fields) && nf == |fields| == maxfld
      modifies fldtab
      ensures TableOk() && Shows(fields) && r == Join(fields, OFS)
    {
      hide Join;
      hide TableOk;
      hide Shows;
      var i := 1;
      r := "";
      JoinNothing(OFS);
      assert fields[..0] == [];
      while i <= nf
        invariant 1 <= i <= nf + 1
        invariant r == Join(fields[..i - 1], OFS) + if 1 < i <= nf then OFS else ""
        invariant TableOk() && Shows(fields)
      {
        var p := GetsvalField(i, fields);
        JoinNext(fields, i - 1);
        r := r + p;
        if i < nf {
          r := r + OFS;
        }
        i := i + 1;
      }
      assert fields[..nf] == fields;
    }

    /** Build the record from the fields, unless it is there already. */
    method Recbld()
      requires Valid()
      modifies fldtab, `rec, `inbuf, `donerec
      ensures Valid() && donerec && donefld == old(donefld) && View() == old(View())
    {
      hide Split;
      hide Join;
      hide Number.Text;
      hide Shows;
      if donerec {
        return;
      }
      EmptySplit(FS, re);
      JoinNothing(OFS);
      ShowsTable(maxfld);
      ghost var fields := Table(maxfld);
      var r := JoinTable(NF, fields);
      ShowsTable(maxfld);
      rec, inbuf, donerec := Value(r, ZERO, true, false), true, true;
    }

    // ----- Stores ---------------------------------------------------------------------------------

    /** Make room for field n past the last one: the gap is emptied. */
    method Newfld(n: nat, ghost before: seq<string>)
      requires TableOk() && Shows(before) && |before| == maxfld < n < MAXFLD
      modifies fldtab, `maxfld, `NF
      ensures maxfld == n == NF && TableOk() && Shows(Pad(before, n))
    {
      Cleanfld(maxfld, n);
      maxfld := n;
      NF := n;
    }

    /** Overwrite one field of the table. */
    method PutValue(n: nat, v: Value, ghost before: seq<string>)
      requires TableOk() && Shows(before) && 1 <= n <= |before| == maxfld && v.Ok()
      modifies fldtab
      ensures TableOk() && Shows(before[n - 1 := v.Text()])
    {
      fldtab[n] := v;
    }

    /** Assign to field n of a split record; past the last field the gap is emptied first. */
    method StoreField(n: nat, v: Value)
      requires Valid() && donefld && 1 <= n < MAXFLD && v.Ok()
      modifies fldtab, `maxfld, `NF, `donerec
      ensures Valid() && !donerec && donefld && View() == Step(old(View()), Op.SetField(n, v.Text()), re)
    {
      hide Split;
      hide Join;
      hide Number.Text;
      hide Shows;
      hide TableOk;
      ShowsTable(maxfld);
      ghost var before := Table(maxfld);
      donerec := false;
      if n > NF {
        Newfld(n, before);
      }
      PutValue(n, v, Pad(before, n));
      ShowsTable(maxfld);
    }

    /** $n = text. */
    method SetField(n: nat, text: string) returns (ok: bool)
      requires Valid() && n >= 1
      modifies this, fldtab
      ensures ok <==> n < MAXFLD && |old(View()).fields| < MAXFLD
      ensures ok ==> Valid() && View() == Step(old(View()), Op.SetField(n, text), re)
      ensures ok ==> !donerec && donefld && rec.Text() == old(rec.Text())
    {
      hide Split;
      hide Join;
      hide Number.Text;
      hide TableOk;
      hide Table;
      if n >= MAXFLD {
        return false;
      }
      ok := Fldbld();
      if ok {
        StoreField(n, Value(text, fldtab[n].fval, true, false));
      }
    }

    /** $n = number. */
    method SetFieldNum(n: nat, f: Number) returns (ok: bool)
      requires Valid() && n >= 1
      modifies this, fldtab
      ensures ok <==> n < MAXFLD && |old(View()).fields| < MAXFLD
      ensures ok ==> Valid() && View() == Step(old(View()), Op.SetNumber(n, f), re)
      ensures ok ==> !donerec && donefld && rec.Text() == old(rec.Text())
    {
      hide Split;
      hide Join;
      hide Number.Text;
      hide TableOk;
      hide Table;
      if n >= MAXFLD {
        return false;
      }
      ok := Fldbld();
      if ok {
        StoreField(n, Value(fldtab[n].sval, f, false, true));
      }
    }

    /** $0 = value; the record is built first, as whenever $0 is named. */
    method StoreRecord(v: Value)
      requires Valid() && v.Ok()
      modifies this, fldtab
      ensures Valid() && donerec && !donefld && View() == Step(old(View()), Op.SetRecord(v.Text()), re)
    {
      hide Split;
      hide Join;
      hide Number.Text;
      Recbld();
      donefld, donerec := false, true;
      rec, inbuf := v, false;
    }

    /** Assign to FS.  A record not yet split is split before, by the FS it was read under. */
    method SetFS(text: string) returns (ok: bool)
      requires Valid()
      modifies this, fldtab
      ensures ok <==> |old(View()).fields| < MAXFLD
      ensures ok ==> Valid() && donefld && View() == Step(old(View()), Op.SetFS(text), re)
      ensures ok ==> donerec == old(donerec) && rec.Text() == old(rec.Text()) && inbuf == old(inbuf)
    {
      hide Split;
      hide Join;
      hide Number.Text;
      hide Table;
      ok := Fldbld();
      FS := text;
    }

    /** Assign to OFS.  This shows in $0 exactly when a field was stored since $0 was last built, there
        are two fields or more, and it is another separator. */
    method SetOFS(text: string)
      requires Valid()
      modifies `OFS
      ensures Valid() && View().fields == old(View()).fields
      ensures View().rec == old(View()).rec <==>
                donerec || text == old(OFS) || |View().fields| <= 1
    {
      JoinedAlike(View().fields, text, OFS);
      hide Join;
      hide Split;
      OFS := text;
    }

    // ----- Uses -----------------------------------------------------------------------------------

    /** Use $0. */
    method GetRecord() returns (s: string)
      requires Valid()
      modifies this, fldtab
      ensures Valid() && View() == old(View()) && s == View().rec == rec.Text()
      ensures donerec && donefld == old(donefld)
    {
      hide Split;
      hide Join;
      hide Number.Text;
      Recbld();
      if !rec.str {
        rec := rec.(sval := rec.Text(), str := true);
        inbuf := false;
      }
      s := rec.sval;
    }

    /** Use $n: past the last field, the empty string. */
    method GetField(n: nat) returns (s: string, ok: bool)
      requires Valid() && n >= 1
      modifies this, fldtab
      ensures ok <==> n < MAXFLD && |old(View()).fields| < MAXFLD
      ensures ok ==> Valid() && donefld && View() == old(View()) && Text(s) == See(View(), Op.GetField(n))
    {
      hide Split;
      hide Join;
      hide Number.Text;
      s := "";
      if n >= MAXFLD {
        return s, false;
      }
      ok := Fldbld();
      if !ok || n > maxfld {
        return;
      }
      ShowsTable(maxfld);
      ghost var fields := Table(maxfld);
      s := GetsvalField(n, fields);
      ShowsTable(maxfld);
    }

    /** Use NF. */
    method GetNF() returns (nf: int, ok: bool)
      requires Valid()
      modifies this, fldtab
      ensures ok <==> |old(View()).fields| < MAXFLD
      ensures ok ==> Valid() && donefld && View() == old(View()) && nf == |View().fields|
      ensures ok ==> rec.Text() == old(rec.Text()) && inbuf == old(inbuf)
    {
      hide Split;
      hide Join;
      hide Number.Text;
      ok := Fldbld();
      nf := NF;
    }

    // ----- Input ------------------------------------------------------------------------------------

    /** FS=text operands met on the command line between two files. */
    method SetOperands(operands: seq<string>) returns (ok: bool)
      requires Valid()
      modifies this, fldtab
      ensures ok <==> operands == [] || |old(View()).fields| < MAXFLD
      ensures ok ==> Valid() && View() == old(View()).(fs := LastFS(old(FS), operands))
      ensures ok ==> donerec == old(donerec) && rec.Text() == old(rec.Text()) && inbuf == old(inbuf)
      ensures ok ==> (donefld <==> operands != [] || old(donefld))
    {
      hide Split;
      hide Join;
      hide Number.Text;
      hide Table;
      hide TableOk;
      var i := 0;
      ok := true;
      while i < |operands|
        invariant 0 <= i <= |operands| && Valid() && ok
        invariant i > 0 ==> |old(View()).fields| < MAXFLD
        invariant View() == old(View()).(fs := LastFS(old(FS), operands[..i]))
        invariant donerec == old(donerec) && rec.Text() == old(rec.Text()) && inbuf == old(inbuf)
        invariant donefld <==> i > 0 || old(donefld)
      {
        ok := SetFS(operands[i]);
        if !ok {
          return;
        }
        i := i + 1;
      }
      assert operands[..i] == operands;
    }

    /** Read a record, into $0's buffer or (main false) into another one, or meet the end of the
        input.  The flags are reset before it is known what will be read, and an FS operand met on
        the way splits $0 at once: by then empty if $0 is in the buffer. */
    method Getrec(main: bool, operands: seq<string>, next: Input) returns (ok: bool)
      requires Valid()
      modifies this, fldtab
      ensures ok <==> operands == [] || |Split(Exposed(main, old(inbuf), old(rec)), old(FS), re)| < MAXFLD
      ensures ok ==> Valid() && OFS == old(OFS)
      ensures ok ==> View() == GetrecView(main, old(inbuf), old(rec), old(FS), OFS, operands, next, re)
      ensures ok ==> donerec && (donefld <==> operands != [])
      ensures ok && main && next.Record? ==> inbuf
    {
      hide Split;
      hide Join;
      hide Number.Text;
      hide Table;
      hide TableOk;
      donefld, donerec := false, true;
      var saved, emptied := rec, main && inbuf;
      if emptied {
        rec := rec.(sval := "");
      }
      ok := SetOperands(operands);
      if !ok {
        return;
      }
      match next {
        case Record(text) =>
          if main {
            rec, inbuf := Value(text, ZERO, true, false), true;
          }
        case Eof =>
          if emptied {
            rec := saved;
          }
      }
    }

    /** The main loop and plain getline read a record as if it were split at once, unless an FS operand
        intervened: it splits what $0 shows by then, nothing if $0 is in the buffer, and these fields
        stay. */
    method ReadRecord(operands: seq<string>, text: string) returns (ok: bool)
      requires Valid()
      modifies this, fldtab
      ensures ok <==> operands == [] || old(inbuf) || |Split(old(rec.Text()), old(FS), re)| < MAXFLD
      ensures ok ==> Valid() && donerec && View().rec == text
      ensures ok ==>
                (View() == Step(old(View()).(fs := LastFS(old(FS), operands)), Op.Read(text), re) <==>
                 operands == [] ||
                 Split(text, LastFS(old(FS), operands), re) ==
                   if old(inbuf) then [] else Split(old(rec.Text()), old(FS), re))
    {
      hide Split;
      hide Join;
      hide Number.Text;
      hide Table;
      hide TableOk;
      EmptySplit(FS, re);
      ok := Getrec(true, operands, Record(text));
    }

    /** The views do not depend on the flags: there are no fields, or they are those of the record; and
        no store to a field is pending, or it leaves the record as it is. */
    ghost predicate Settled()
      requires TableOk()
      reads this, fldtab
    {
      donefld ==>
        (donerec || Join(Table(maxfld), OFS) == rec.Text()) && Table(maxfld) == Split(rec.Text(), FS, re)
    }

    lemma SettledView()
      requires Valid() && Settled() && donerec
      ensures View() == Eager(rec.Text(), Split(rec.Text(), FS, re), FS, OFS)
    {
    }

    /** getline var, which resets the flags although it leaves $0 alone. */
    method GetlineVar(text: string)
      requires Valid()
      modifies this, fldtab
      ensures Valid() && View() == Eager(old(rec.Text()), Split(old(rec.Text()), FS, re), FS, OFS)
      ensures donerec && !donefld && FS == old(FS) && OFS == old(OFS)
      ensures View() == old(View()) <==> old(Settled())
    {
      hide Split;
      hide Number.Text;
      hide Table;
      hide TableOk;
      EmptySplit(FS, re);
      JoinNothing(OFS);
      hide Join;
      var ok := Getrec(false, [], Record(text));
    }

    /** A store to a field of a record whose fields are its own, and then getline var: it is as if there
        had been no store. */
    method StoreThenGetline(n: nat, value: string, text: string) returns (ok: bool)
      requires Valid() && Settled() && donerec && n >= 1
      modifies this, fldtab
      ensures ok <==> n < MAXFLD && |old(View()).fields| < MAXFLD
      ensures ok ==> Valid() && View() == old(View())
    {
      hide Split;
      hide Join;
      hide Number.Text;
      hide Table;
      hide TableOk;
      SettledView();
      ok := SetField(n, value);
      if ok {
        GetlineVar(text);
      }
    }

    /** A store to a field, a use of $0, and then getline var, with one character for FS and OFS: the
        store is kept exactly when no field holds a separator and there is not one empty field only. */
    method UseThenGetline(text: string)
      requires Valid() && donefld && !donerec && |FS| == 1 && FS != " " && OFS == FS
      modifies this, fldtab
      ensures Valid()
      ensures View() == old(View()) <==>
                (forall i :: 0 <= i < |old(View()).fields| ==> NoSep(old(View()).fields[i], FS)) &&
                old(View()).fields != [""]
    {
      hide Split;
      hide Join;
      hide NoSep;
      hide Number.Text;
      hide Table;
      hide TableOk;
      SplitOfRebuild(View().fields, FS, re);
      assert View().rec == Join(View().fields, OFS);
      var s := GetRecord();
      GetlineVar(text);
    }

    /** The same with the default separators: the store is kept exactly when all fields are words. */
    method UseThenGetlineBlank(text: string)
      requires Valid() && donefld && !donerec && FS == " " && OFS == FS
      modifies this, fldtab
      ensures Valid()
      ensures View() == old(View()) <==> AllWords(old(View()).fields)
    {
      hide Split;
      hide Join;
      hide AllWords;
      hide Number.Text;
      hide Table;
      hide TableOk;
      SplitOfRebuildBlank(View().fields, re);
      assert View().rec == Join(View().fields, OFS);
      var s := GetRecord();
      GetlineVar(text);
    }

    /** Whether $0 and NF keep their values into END. */
    ghost predicate Sticks(operands: seq<string>)
      requires TableOk()
      reads this, fldtab
    {
      if operands == [] || !inbuf then Settled()
      else if donefld then maxfld == 0 && (donerec || rec.Text() == "")
      else Split(rec.Text(), FS, re) == []
    }

    /** The end of the input, perhaps behind FS operands: while there are none the record is there for
        END to be split again; an operand splits the emptied buffer. */
    method EndOfInput(operands: seq<string>) returns (ok: bool)
      requires Valid()
      modifies this, fldtab
      ensures ok <==> operands == [] || old(inbuf) || |Split(old(rec.Text()), old(FS), re)| < MAXFLD
      ensures ok ==> Valid() && FS == LastFS(old(FS), operands) && View().rec == old(rec.Text())
      ensures ok ==> (View() == old(View()).(fs := FS) <==> old(Sticks(operands)))
    {
      hide Split;
      hide Number.Text;
      hide TableOk;
      EmptySplit(FS, re);
      JoinNothing(OFS);
      hide Join;
      ghost var fields := Table(maxfld);
      assert fields == [] <==> maxfld == 0;
      hide Table;
      ok := Getrec(true, operands, Eof);
    }

    /** getline <file. */
    method GetlineFile(text: string)
      requires Valid()
      modifies `rec, `inbuf, `donerec, `donefld
      ensures Valid() && View() == Step(old(View()), Op.Read(text), re)
      ensures donerec && !donefld && inbuf && rec.Text() == text
    {
      hide Split;
      hide Join;
      hide Number.Text;
      hide Table;
      hide TableOk;
      rec, inbuf := Value(text, ZERO, true, false), true;
      donerec, donefld := true, false;
    }

    // ----- Whole programs ---------------------------------------------------------------------------

    /** One operation, done lazily. */
    method Apply(op: Op) returns (seen: Seen, ok: bool)
      requires Valid()
      modifies this, fldtab
      ensures ok <==> Fits(old(View()), op)
      ensures ok ==> Valid() && View() == Step(old(View()), op, re) && seen == See(old(View()), op)
      ensures ok ==> donefld || donerec
    {
      hide Split;
      hide Join;
      hide Number.Text;
      hide Table;
      hide TableOk;
      seen, ok := Nothing, true;
      match op {
        case Read(text) =>
          ok := ReadRecord([], text);
        case SetRecord(text) =>
          StoreRecord(Value(text, rec.fval, true, false));
        case SetField(n, text) =>
          if n == 0 {
            return seen, false;
          }
          ok := SetField(n, text);
        case SetNumber(n, f) =>
          if n == 0 {
            return seen, false;
          }
          ok := SetFieldNum(n, f);
        case SetFS(text) =>
          ok := SetFS(text);
        case GetRecord =>
          var s := GetRecord();
          seen := Text(s);
        case GetField(n) =>
          if n == 0 {
            return seen, false;
          }
          var s;
          s, ok := GetField(n);
          seen := Text(s);
        case GetNF =>
          var nf;
          nf, ok := GetNF();
          seen := Count(nf);
      }
    }

    /** Over any run the lazy views show what the eager ones hold, and it stops exactly when an operation
        that splits meets more fields than the table has room for, or a field beyond it is named. */
    method Run(ops: seq<Op>) returns (seen: seq<Seen>, ok: bool)
      requires Valid()
      modifies this, fldtab
      ensures ok <==> AllFit(old(View()), ops, re)
      ensures ok ==> Valid() && View() == Replay(old(View()), ops, re) && seen == Seens(old(View()), ops, re)
      ensures ok && (ops != [] || old(donefld || donerec)) ==> donefld || donerec
      decreases |ops|
    {
      hide Step;
      hide See;
      hide Fits;
      hide View;
      seen, ok := [], true;
      if ops == [] {
        return;
      }
      var first, later;
      first, ok := Apply(ops[0]);
      if ok {
        later, ok := Run(ops[1..]);
        seen := [first] + later;
      }
    }
  }

  /** FS=: between two files: the next record a b is seen without fields. */
  method OperandBetweenFiles(re: (string, string) -> seq<string>) returns (awk: Awk, nf: int, ok: bool)
    ensures fresh(awk) && ok && awk.Valid() && awk.View().rec == "a b" && nf == 0 && awk.FS == ":"
  {
    awk := new Awk(re);
    EmptySplit(" ", re);
    ok := awk.Getrec(true, [":"], Record("a b"));
    nf, ok := awk.GetNF();
  }

  /** $1 = "x"; getline v: the change of $0 is lost. */
  method StoreLostByGetline(re: (string, string) -> seq<string>) returns (awk: Awk, s: string)
    ensures fresh(awk) && awk.Valid() && s == "a"
  {
    awk := new Awk(re);
    awk.GetlineFile("a");
    OneWord("a");
    var ok := awk.SetField(1, "x");
    awk.GetlineVar("b");
    s := awk.GetRecord();
  }

  /** FS=: behind the last file: NF, which was 1, is 0 in END, while $0 is still there. */
  method OperandBeforeEnd(re: (string, string) -> seq<string>) returns (awk: Awk, before: int, after: int)
    ensures fresh(awk) && awk.Valid() && awk.View().rec == "a" && before == 1 && after == 0
  {
    awk := new Awk(re);
    awk.GetlineFile("a");
    OneWord("a");
    EmptySplit(" ", re);
    hide Words;
    var ok;
    before, ok := awk.GetNF();
    assert awk.FS == awk.View().fs;
    ok := awk.Getrec(true, [":"], Eof);
    after, ok := awk.GetNF();
  }
}
