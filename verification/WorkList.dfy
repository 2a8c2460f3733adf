/** The list of work files of uucico (usr/src/common/cmd/bnu/anlwrk.c): the first LLEN names in
    alphabetical order of those in the spool directory, kept sorted by insertion into fixed slots. */
module WorkList {
  import opened Lex

  const LLEN := 50
  const SUFSIZE := 5       // grade letter and sequence number

  // ----- Sorting --------------------------------------------------------------------------------

  predicate Sorted(s: seq<string>) {
    forall i, j :: 0 <= i < j < |s| ==> !LexLess(s[j], s[i])
  }

  /** How many names at the front of a list stay before a new one: up to the last smaller one. */
  function Place(s: seq<string>, x: string): (i: nat)
    ensures i <= |s| && (i > 0 ==> LexLess(s[i - 1], x))
    ensures forall k :: i <= k < |s| ==> !LexLess(s[k], x)
  {
    if s == [] then 0
    else if LexLess(s[|s| - 1], x) then |s|
    else Place(s[..|s| - 1], x)
  }

  function Ins(s: seq<string>, x: string): (r: seq<string>)
    ensures |r| == |s| + 1
  {
    s[..Place(s, x)] + [x] + s[Place(s, x)..]
  }

  function First(s: seq<string>, n: nat): (r: seq<string>)
    ensures r <= s && |r| == if |s| <= n then |s| else n
  {
    if |s| <= n then s else s[..n]
  }

  /** All names in order. */
  function SortAll(xs: seq<string>): (r: seq<string>)
    ensures |r| == |xs|
  {
    if xs == [] then [] else Ins(SortAll(xs[..|xs| - 1]), xs[|xs| - 1])
  }

  /** What the fixed list holds after inserting one name after the other. */
  function Built(xs: seq<string>): (r: seq<string>)
    ensures |r| <= LLEN
  {
    if xs == [] then [] else First(Ins(Built(xs[..|xs| - 1]), xs[|xs| - 1]), LLEN)
  }

  lemma InsSorted(s: seq<string>, x: string)
    requires Sorted(s)
    ensures Sorted(Ins(s, x))
  {
    var p, r := Place(s, x), Ins(s, x);
    forall i, j | 0 <= i < j < |r|
      ensures !LexLess(r[j], r[i])
    {
      var a := if i < p then i else i - 1;
      var b := if j < p then j else j - 1;
      if i == p {
        assert r[i] == x && r[j] == s[b] && b >= p;
      } else if j == p {
        assert r[j] == x && r[i] == s[a] && a < p;
        if LexLess(x, s[a]) {
          LexTransitive(s[p - 1], x, s[a]);
          LexOrder(s[p - 1], s[a]);
        }
      } else {
        assert r[i] == s[a] && r[j] == s[b] && a < b;
      }
    }
  }

  lemma InsHolds(s: seq<string>, x: string)
    ensures multiset(Ins(s, x)) == multiset(s) + multiset{x}
  {
    var p := Place(s, x);
    assert s == s[..p] + s[p..];
    assert multiset(s[..p] + [x]) == multiset(s[..p]) + multiset([x]);
  }

  /** SortAll sorts: same names, same number of times, in order. */
  lemma {:induction false} SortAllSorts(xs: seq<string>)
    ensures Sorted(SortAll(xs)) && multiset(SortAll(xs)) == multiset(xs)
  {
    hide Ins;
    hide Sorted;
    NothingSorted();
    if xs != [] {
      var init, x := xs[..|xs| - 1], xs[|xs| - 1];
      SortAllSorts(init);
      InsSorted(SortAll(init), x);
      InsHolds(SortAll(init), x);
      assert xs == init + [x];
    }
  }

  lemma NothingSorted()
    ensures Sorted([])
  {
  }

  lemma PlaceIs(s: seq<string>, x: string, i: nat)
    requires Sorted(s) && i <= |s| && (i > 0 ==> LexLess(s[i - 1], x)) && (i < |s| ==> !LexLess(s[i], x))
    ensures Place(s, x) == i
  {
    var p := Place(s, x);
    if p > i {
      LexOrder(s[p - 1], x);
      if p - 1 > i {
        // s[i] is not below x, and s[p - 1], which is, is not below s[i]
        LexOrder(s[i], x);
        if s[i] != x {
          LexTransitive(s[p - 1], x, s[i]);
        }
      }
    }
  }

  /** Dropping what does not fit before an insertion does not change what fits after it. */
  lemma FirstOfIns(s: seq<string>, x: string, n: nat)
    requires Sorted(s)
    ensures First(Ins(First(s, n), x), n) == First(Ins(s, x), n)
  {
    if |s| > n {
      var t, p := s[..n], Place(s, x);
      if p <= n {
        PlaceIs(t, x, p);
        var a, b := First(Ins(t, x), n), First(Ins(s, x), n);
        forall k | 0 <= k < n
          ensures a[k] == b[k]
        {
        }
      } else {
        forall k | 0 <= k < n
          ensures LexLess(s[k], x)
        {
          LexOrder(s[p - 1], s[k]);
          if k < p - 1 && s[k] != s[p - 1] {
            LexTransitive(s[k], s[p - 1], x);
          }
        }
        PlaceIs(t, x, n);
        assert Ins(t, x)[..n] == t && Ins(s, x)[..n] == t;
      }
    }
  }

  /** However many names there are, the list holds the LLEN first of them in order, each as often as
      it occurs. */
  lemma {:induction false} BuiltIs(xs: seq<string>)
    ensures Built(xs) == First(SortAll(xs), 50)
  {
    hide Ins;
    if xs != [] {
      var init := xs[..|xs| - 1];
      BuiltIs(init);
      SortAllSorts(init);
      FirstOfIns(SortAll(init), xs[|xs| - 1], LLEN);
    }
  }

  lemma FirstSorted(s: seq<string>, n: nat)
    requires Sorted(s)
    ensures Sorted(First(s, n))
  {
  }

  /** The list after an insertion, by whether it was full and where the new name goes. */
  lemma NewList(s: seq<string>, x: string)
    requires Sorted(s) && |s| <= LLEN
    ensures var i, r := Place(s, x), First(Ins(s, x), LLEN);
      && Sorted(r)
      && (i == LLEN ==> r == s)
      && (i < LLEN ==> var t := s[..if |s| == LLEN then LLEN - 1 else |s|]; i <= |t| && r == t[..i] + [x] + t[i..])
  {
    InsSorted(s, x);
    FirstSorted(Ins(s, x), LLEN);
    hide Sorted;
    hide LexLess;
    var i, r := Place(s, x), First(Ins(s, x), LLEN);
    if i == LLEN {
      assert r == s;
    } else {
      var t := s[..if |s| == LLEN then LLEN - 1 else |s|];
      assert r == t[..i] + [x] + t[i..];
    }
  }

  // ----- The list ---------------------------------------------------------------------------------

  predicate Wanted(prefix: string, name: string) {
    prefix <= name && |name| - |prefix| == SUFSIZE
  }

  /** The C. files of one system in a directory. */
  function Select(prefix: string, entries: seq<string>): seq<string> {
    if entries == [] then []
    else
      var init, name := Select(prefix, entries[..|entries| - 1]), entries[|entries| - 1];
      if Wanted(prefix, name) then init + [name] else init
  }

  /** It holds the names that consist of the prefix and five more characters, each as often as it is there. */
  lemma {:induction false} SelectIs(prefix: string, entries: seq<string>, x: string)
    ensures multiset(Select(prefix, entries))[x] ==
            if |x| == |prefix| + 5 && x[..|prefix|] == prefix then multiset(entries)[x] else 0
  {
    if entries != [] {
      var init, name := entries[..|entries| - 1], entries[|entries| - 1];
      SelectIs(prefix, init, x);
      assert entries == init + [name];
    }
  }

  /** A directory as it is read, or not. */
  datatype Dir = Open(entries: seq<string>) | Closed

  /** The list that a directory gives. */
  function Listed(prefix: string, dir: Dir): seq<string> {
    if dir.Open? then Built(Select(prefix, dir.entries)) else []
  }

  /** What there is to be handed out, from what is left of the list and what can be listed anew. */
  function Work(todo: seq<string>, master: bool, grade: string, here: seq<string>, newgrade: string,
                there: seq<string>): seq<string> {
    if todo != [] then todo
    else if master && grade == "" then []
    else if master && here != [] then here
    else if newgrade == "" then []
    else there
  }

  class Files {
    const Filent: array<string>      // the texts of the names
    const Fptr: array<nat>           // which text is first, second, ...
    var Nfiles: int
    var Nnext: nat
    ghost var names: seq<string>     // the list since it was built

    /** Entries use different texts among the first ones, so a text is free exactly when no entry
        uses it. */
    ghost predicate Slots(n: nat)
      reads Fptr
    {
      && n <= LLEN == Fptr.Length
      && (forall k :: 0 <= k < n ==> Fptr[k] < n)
      && (forall j, k :: 0 <= j < k < n ==> Fptr[j] != Fptr[k])
    }

    ghost predicate Holds(s: seq<string>)
      reads Fptr, Filent
    {
      && |s| <= LLEN == Fptr.Length == Filent.Length
      && forall k :: 0 <= k < |s| ==> Fptr[k] < LLEN && Filent[Fptr[k]] == s[k]
    }

    ghost predicate Valid()
      reads this, Fptr, Filent
      ensures Valid() ==> |names| <= LLEN == Fptr.Length == Filent.Length
    {
      0 <= Nfiles && Nnext + Nfiles == |names| && Slots(|names|) && Holds(names) && Sorted(names)
    }

    /** The names not yet handed out. */
    ghost function Todo(): (r: seq<string>)
      requires Valid()
      reads this, Fptr, Filent
      ensures |r| == Nfiles
    {
      names[Nnext..]
    }

    constructor ()
      ensures Valid() && names == [] && fresh(Filent) && fresh(Fptr)
    {
      Filent, Fptr := new string[LLEN](_ => ""), new nat[LLEN](_ => 0);
      Nfiles, Nnext, names := 0, 0, [];
    }

    /** Where a name goes: before the first entry that is not smaller, looking from the end. */
    method Find(file: string) returns (i: nat)
      requires Valid() && Nnext == 0
      ensures i == Place(names, file)
    {
      i := Nfiles;
      while i > 0 && !LexLess(Filent[Fptr[i - 1]], file)
        invariant 0 <= i <= Nfiles && (i < Nfiles ==> !LexLess(Filent[Fptr[i]], file))
      {
        i := i - 1;
      }
      PlaceIs(names, file, i);
    }

    /** Move entries i..n-1 up by one. */
    method Hole(i: nat, n: nat)
      requires i <= n < Fptr.Length
      modifies Fptr
      ensures forall k :: 0 <= k <= i ==> Fptr[k] == old(Fptr[k])
      ensures forall k :: i < k <= n ==> Fptr[k] == old(Fptr[k - 1])
      ensures forall k :: n < k < Fptr.Length ==> Fptr[k] == old(Fptr[k])
    {
      var j := n;
      while j > i
        invariant i <= j <= n
        invariant forall k :: 0 <= k <= j ==> Fptr[k] == old(Fptr[k])
        invariant forall k :: j < k <= n ==> Fptr[k] == old(Fptr[k - 1])
        invariant forall k :: n < k < Fptr.Length ==> Fptr[k] == old(Fptr[k])
      {
        Fptr[j] := Fptr[j - 1];
        j := j - 1;
      }
    }

    /** Text p is free when n entries are in use. */
    ghost predicate Free(p: nat, n: nat)
      reads Fptr
    {
      && p <= n < LLEN == Fptr.Length
      && (forall k :: 0 <= k < n ==> Fptr[k] <= n && Fptr[k] != p)
      && (forall j, k :: 0 <= j < k < n ==> Fptr[j] != Fptr[k])
    }

    /** The next text is free while there are texts left; after that, the text of the last entry is
        free once that entry is given up. */
    lemma FreeText()
      requires Valid()
      ensures |names| < LLEN ==> Free(|names|, |names|) && Holds(names[..|names|])
      ensures |names| == LLEN ==> Free(Fptr[LLEN - 1], LLEN - 1) && Holds(names[..LLEN - 1])
    {
    }

    /** Put a name into free text p and make it entry i of n. */
    method Put(file: string, i: nat, p: nat, n: nat, ghost t: seq<string>)
      requires i <= n == |t| && Free(p, n) && Holds(t)
      modifies Fptr, Filent
      ensures Slots(n + 1) && Holds(t[..i] + [file] + t[i..])
    {
      Filent[p] := file;
      assert Holds(t);
      Hole(i, n);
      Fptr[i] := p;
      ghost var r := t[..i] + [file] + t[i..];
      forall k | 0 <= k < |r|
        ensures Fptr[k] <= n && Filent[Fptr[k]] == r[k]
      {
        if k < i {
          assert Fptr[k] == old(Fptr[k]);
        } else if k > i {
          assert Fptr[k] == old(Fptr[k - 1]);
        }
      }
      forall j, k | 0 <= j < k < n + 1
        ensures Fptr[j] != Fptr[k]
      {
        assert j < i ==> Fptr[j] == old(Fptr[j]);
        assert j > i ==> Fptr[j] == old(Fptr[j - 1]);
        assert k < i ==> Fptr[k] == old(Fptr[k]);
        assert k > i ==> Fptr[k] == old(Fptr[k - 1]);
      }
    }

    /** Insert a name, dropping the last one when all texts are in use. */
    method Insert(file: string)
      requires Valid() && Nnext == 0
      modifies Fptr, Filent, `Nfiles, `names
      ensures Valid() && names == First(Ins(old(names), file), LLEN)
    {
      hide Sorted;
      hide Place;
      hide Ins;
      hide First;
      hide Slots;
      hide Holds;
      hide Free;
      FreeText();
      var i := Find(file);
      NewList(names, file);
      if i == LLEN {
        return;
      }
      var p := Nfiles;
      if Nfiles == LLEN {
        Nfiles := Nfiles - 1;
        p := Fptr[Nfiles];
      }
      Put(file, i, p, Nfiles, names[..Nfiles]);
      Nfiles := Nfiles + 1;
      names := First(Ins(names, file), LLEN);
    }

    /** Build the list anew from a directory; None if it cannot be opened. */
    method Bldflst(prefix: string, dir: Dir) returns (n: nat)
      requires Valid()
      modifies this, Fptr, Filent
      ensures Valid() && Nnext == 0 && n == Nfiles && names == Listed(prefix, dir)
    {
      hide Slots;
      hide Holds;
      hide Sorted;
      hide Ins;
      NoSlots();
      Nnext, Nfiles, names := 0, 0, [];
      if dir.Closed? {
        return 0;
      }
      var i := 0;
      while i < |dir.entries|
        invariant 0 <= i <= |dir.entries| && Valid() && Nnext == 0
        invariant names == Built(Select(prefix, dir.entries[..i]))
      {
        var filename := dir.entries[i];
        SelectNext(prefix, dir.entries, i);
        if prefix <= filename && |filename| - |prefix| == SUFSIZE {
          Insert(filename);
        }
        i := i + 1;
      }
      assert dir.entries[..i] == dir.entries;
      n := Nfiles;
    }

    lemma NoSlots()
      requires Fptr.Length == Filent.Length == LLEN
      ensures Slots(0) && Holds([]) && Sorted([])
    {
    }

    /** Name the next work file.  When the list is used up it is built again: for the job grade at
        hand if that has work (master only), else for the grade found next.  If the directory of
        that grade has no work file after all, no name is there to be given: ok is false, the C code
        gives what the pointer array happens to hold, and counts down below zero. */
    method Iswrk(master: bool, grade: string, here: Dir, newgrade: string, there: Dir, prefix: string)
      returns (file: string, work: bool, ok: bool)
      requires Valid()
      modifies this, Fptr, Filent
      ensures ok ==> Valid()
      ensures !ok ==> work && Nfiles == -1 && Nnext == 1
      ensures ok <==> !(old(Todo()) == [] && !(master && grade == "") && !(master && Listed(prefix, here) != []) &&
                        newgrade != "" && Listed(prefix, there) == [])
      ensures ok ==>
        var all := Work(old(Todo()), master, grade, Listed(prefix, here), newgrade, Listed(prefix, there));
        && (work <==> all != [])
        && (if work then file == all[0] && Todo() == all[1..] else Todo() == [])
      ensures old(Todo()) != [] ==> ok && work && [file] + Todo() == old(Todo())
      ensures old(Todo()) == [] && master && grade == "" ==> ok && !work
      ensures old(Todo()) == [] && master && grade != "" && Listed(prefix, here) != [] ==>
                ok && work && [file] + Todo() == Listed(prefix, here)
      ensures old(Todo()) == [] && (!master || (grade != "" && Listed(prefix, here) == [])) ==>
                if newgrade == "" then ok && !work
                else if Listed(prefix, there) == [] then !ok
                else ok && work && [file] + Todo() == Listed(prefix, there)
    {
      hide Slots;
      hide Holds;
      hide Listed;
      file, work, ok := "", false, true;
      if Nfiles == 0 {
        var n := 0;
        if master {
          if grade == "" {
            return;
          }
          n := Bldflst(prefix, here);
        }
        if n == 0 {
          if newgrade == "" {
            return;
          }
          n := Bldflst(prefix, there);
          if n == 0 {
            Nfiles, Nnext := Nfiles - 1, Nnext + 1;
            return "", true, false;
          }
        }
      }
      file := NextName();
      work := true;
    }

    /** The name at the head of the list. */
    method NextName() returns (file: string)
      requires Valid() && Nfiles > 0
      modifies `Nfiles, `Nnext
      ensures Valid() && names == old(names) && [file] + Todo() == old(Todo())
    {
      file := Filent[Fptr[Nnext]];
      Nfiles := Nfiles - 1;
      Nnext := Nnext + 1;
    }
  }

  /** The grade found next has a directory in which there is no work file by now. */
  method GradeWithoutWork() returns (files: Files, work: bool, ok: bool)
    ensures fresh(files) && work && !ok && files.Nfiles == -1
  {
    hide Ins;
    files := new Files();
    var name;
    name, work, ok := files.Iswrk(true, "A", Open([]), "B", Open(["P.remote"]), "C.remote");
  }

  lemma SelectNext(prefix: string, entries: seq<string>, i: nat)
    requires i < |entries|
    ensures var xs, name := Select(prefix, entries[..i]), entries[i];
      Built(Select(prefix, entries[..i + 1])) ==
      if Wanted(prefix, name) then First(Ins(Built(xs), name), LLEN) else Built(xs)
  {
    hide Wanted;
    hide Ins;
    assert entries[..i + 1][..i] == entries[..i];
    var xs := Select(prefix, entries[..i]);
    assert (xs + [entries[i]])[..|xs|] == xs;
  }
}
