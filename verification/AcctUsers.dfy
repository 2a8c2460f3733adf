/** The table of users of acctcon (usr/src/common/cmd/acct/acctcon.c): connect time by uid, in a hash
    table with linear probing in which a slot without sessions is empty. */
module AcctUsers {
  import opened Ring

  const A_TSIZE := 1001

  /** Prime and nonprime seconds of a session, charged to a user. */
  datatype Charge = Charge(uid: int, name: string, con0: int, con1: int)

  datatype Ctab = Ctab(uid: int, name: string, con0: int, con1: int, sess: nat)

  const NOBODY := Ctab(0, "", 0, 0, 0)

  /** The uid as an unsigned number, by the size of the table. */
  function Home(uid: int): (h: nat)
    ensures h < A_TSIZE
  {
    uid % 0x1_0000_0000 % 1001
  }

  lemma HomeIs(uid: int)
    requires -0x8000_0000 <= uid < 0x8000_0000
    ensures Home(uid) == if uid < 0 then (uid + 4294967296) % 1001 else uid % 1001
  {
  }

  function Add(t: Ctab, c: Charge): Ctab {
    t.(con0 := t.con0 + c.con0, con1 := t.con1 + c.con1, sess := t.sess + 1)
  }

  /** The entry of a user before the first session. */
  function Known(m: map<int, Ctab>, c: Charge): Ctab {
    if c.uid in m then m[c.uid] else Ctab(c.uid, c.name, 0, 0, 0)
  }

  /** The first charge of a user makes an entry under its name, later ones add to it. */
  lemma ChargeIs(m: map<int, Ctab>, c: Charge)
    ensures c.uid !in m ==> Add(Known(m, c), c) == Ctab(c.uid, c.name, c.con0, c.con1, 1)
    ensures c.uid in m ==> var t := m[c.uid];
              Add(Known(m, c), c) == Ctab(t.uid, t.name, t.con0 + c.con0, t.con1 + c.con1, t.sess + 1)
  {
  }

  // ----- What was charged ---------------------------------------------------------------------------

  function Uids(cs: seq<Charge>): set<int> {
    set i | 0 <= i < |cs| :: cs[i].uid
  }

  /** What the charges of one user add up to. */
  function Charged(cs: seq<Charge>, uid: int): (int, int, nat) {
    if cs == [] then (0, 0, 0)
    else
      var (p, n, k) := Charged(cs[..|cs| - 1], uid);
      var c := cs[|cs| - 1];
      if c.uid == uid then (p + c.con0, n + c.con1, k + 1) else (p, n, k)
  }

  lemma UidsSnoc(cs: seq<Charge>, c: Charge)
    ensures Uids(cs + [c]) == Uids(cs) + {c.uid}
  {
    var all := cs + [c];
    assert all[|cs|] == c;
    forall u | u in Uids(cs)
      ensures u in Uids(all)
    {
      var i :| 0 <= i < |cs| && cs[i].uid == u;
      assert all[i].uid == u;
    }
  }

  lemma ChargedSnoc(cs: seq<Charge>, c: Charge, uid: int)
    ensures var (p, n, k) := Charged(cs, uid);
      Charged(cs + [c], uid) == if c.uid == uid then (p + c.con0, n + c.con1, k + 1) else (p, n, k)
  {
    assert (cs + [c])[..|cs|] == cs;
  }

  lemma {:induction false} NoneCharged(cs: seq<Charge>, uid: int)
    requires forall i :: 0 <= i < |cs| ==> cs[i].uid != uid
    ensures Charged(cs, uid) == (0, 0, 0)
  {
    if cs != [] {
      NoneCharged(cs[..|cs| - 1], uid);
    }
  }

  /** The table says of every user what was charged. */
  predicate Exact(m: map<int, Ctab>, cs: seq<Charge>) {
    && m.Keys == Uids(cs)
    && forall u :: u in m ==> (m[u].con0, m[u].con1, m[u].sess) == Charged(cs, u)
  }

  lemma ExactNext(m: map<int, Ctab>, cs: seq<Charge>, c: Charge)
    requires Exact(m, cs)
    ensures Exact(m[c.uid := Add(Known(m, c), c)], cs + [c])
  {
    var m2 := m[c.uid := Add(Known(m, c), c)];
    UidsSnoc(cs, c);
    if c.uid !in m {
      assert c.uid !in Uids(cs);
      forall i | 0 <= i < |cs|
        ensures cs[i].uid != c.uid
      {
        assert cs[i].uid in Uids(cs);
      }
      NoneCharged(cs, c.uid);
    }
    hide Charged;
    forall u | u in m2
      ensures (m2[u].con0, m2[u].con1, m2[u].sess) == Charged(cs + [c], u)
    {
      ChargedSnoc(cs, c, u);
    }
  }

  /** All connect time in the first n slots. */
  function Total(slots: seq<Ctab>, n: nat): int
    requires n <= |slots|
  {
    if n == 0 then 0 else Total(slots, n - 1) + slots[n - 1].con0 + slots[n - 1].con1
  }

  lemma {:induction false} TotalUpdate(slots: seq<Ctab>, i: nat, t: Ctab, n: nat)
    requires i < |slots| && n <= |slots|
    ensures Total(slots[i := t], n) ==
            Total(slots, n) + if i < n then t.con0 + t.con1 - slots[i].con0 - slots[i].con1 else 0
  {
    if n > 0 {
      TotalUpdate(slots, i, t, n - 1);
    }
  }

  lemma {:induction false} TotalZero(slots: seq<Ctab>, n: nat)
    requires n <= |slots| && forall i :: 0 <= i < |slots| ==> slots[i].con0 == 0 == slots[i].con1
    ensures Total(slots, n) == 0
  {
    if n > 0 {
      TotalZero(slots, n - 1);
    }
  }

  function UidsTo(slots: seq<Ctab>, n: nat): set<int>
    requires n <= |slots|
  {
    if n == 0 then {} else UidsTo(slots, n - 1) + {slots[n - 1].uid}
  }

  lemma {:induction false} UidFrom(slots: seq<Ctab>, n: nat, u: int) returns (i: nat)
    requires n <= |slots| && u in UidsTo(slots, n)
    ensures i < n && slots[i].uid == u
  {
    if u == slots[n - 1].uid {
      i := n - 1;
    } else {
      i := UidFrom(slots, n - 1, u);
    }
  }

  lemma {:induction false} UidsCount(slots: seq<Ctab>, n: nat)
    requires n <= |slots| && forall i, j :: 0 <= i < j < |slots| ==> slots[i].uid != slots[j].uid
    ensures |UidsTo(slots, n)| == n
  {
    if n > 0 {
      UidsCount(slots, n - 1);
      if slots[n - 1].uid in UidsTo(slots, n - 1) {
        var i := UidFrom(slots, n - 1, slots[n - 1].uid);
      }
    }
  }

  /** A set that contains all uids of a full table and one more. */
  lemma MoreThanFits(slots: seq<Ctab>, us: set<int>, u: int)
    requires |slots| == A_TSIZE && forall i, j :: 0 <= i < j < |slots| ==> slots[i].uid != slots[j].uid
    requires forall i :: 0 <= i < |slots| ==> slots[i].uid in us && slots[i].uid != u
    requires u in us
    ensures |us| > A_TSIZE
  {
    UidsCount(slots, A_TSIZE);
    var ts := UidsTo(slots, A_TSIZE);
    forall t | t in ts
      ensures t in us && t != u
    {
      var i := UidFrom(slots, A_TSIZE, t);
    }
    Subset(ts + {u}, us);
  }

  lemma Subset(a: set<int>, b: set<int>)
    requires a <= b
    ensures |a| <= |b|
  {
    assert b == a + (b - a);
  }

  // ----- The table ----------------------------------------------------------------------------------

  class Users {
    const ctab: array<Ctab>
    ghost var m: map<int, Ctab>       // what the table holds, by uid
    ghost var at: map<int, nat>       // in which slots

    ghost predicate SlotOk(i: nat)
      requires i < ctab.Length
      reads ctab, `at
    {
      if ctab[i].sess == 0 then ctab[i] == NOBODY
      else ctab[i].uid in at && at[ctab[i].uid] == i
    }

    ghost predicate UidOk(u: int)
      requires u in m && u in at && ctab.Length == A_TSIZE
      reads ctab, `m, `at
    {
      at[u] < A_TSIZE && ctab[at[u]] == m[u] && m[u].uid == u && m[u].sess > 0 && Reached(Home(u), at[u])
    }

    ghost predicate Reached(h: nat, i: nat)
      requires ctab.Length == A_TSIZE
      reads ctab
    {
      forall q :: 0 <= q < A_TSIZE && Dist(h, q, A_TSIZE) < Dist(h, i, A_TSIZE) ==> ctab[q].sess > 0
    }

    ghost predicate Valid()
      reads ctab, `m, `at
      ensures Valid() ==> ctab.Length == A_TSIZE
    {
      && ctab.Length == A_TSIZE && m.Keys == at.Keys
      && (forall u :: u in m ==> UidOk(u))
      && (forall i :: 0 <= i < A_TSIZE ==> SlotOk(i))
    }

    constructor ()
      ensures Valid() && m == map[] && fresh(ctab)
      ensures forall i :: 0 <= i < A_TSIZE ==> ctab[i] == NOBODY
    {
      ctab := new Ctab[A_TSIZE](_ => NOBODY);
      m, at := map[], map[];
    }

    /** The first j slots from h belong to other users. */
    ghost predicate Tried(u: int, h: nat, j: nat)
      requires ctab.Length == A_TSIZE
      reads ctab
    {
      forall q {:trigger ctab[q]} :: 0 <= q < A_TSIZE && Dist(h, q, A_TSIZE) < j ==>
        ctab[q].sess > 0 && ctab[q].uid != u
    }

    /** No slot is empty and none is the user's. */
    ghost predicate Full(u: int)
      requires ctab.Length == A_TSIZE
      reads ctab
    {
      forall q {:trigger ctab[q]} :: 0 <= q < A_TSIZE ==> ctab[q].sess > 0 && ctab[q].uid != u
    }

    /** Probe for a user.  The table counts as full when there is no slot, but also when the slot of
        the user is the last one that can be tried. */
    method Probe(u: int) returns (i: nat, full: bool)
      requires Valid()
      ensures i < A_TSIZE
      ensures u in m ==> at[u] == i
      ensures u !in m && !Full(u) ==> ctab[i].sess == 0 && Reached(Home(u), i)
      ensures Full(u) ==> u !in m && i == Home(u)
      ensures full <==> Full(u) || (u in m && Dist(Home(u), i, A_TSIZE) == A_TSIZE - 1)
    {
      hide Home;
      i := Home(u);
      var j := 0;
      while true
        invariant i < A_TSIZE && 0 <= j <= A_TSIZE && Tried(u, Home(u), j)
        invariant Dist(Home(u), i, A_TSIZE) == if j < A_TSIZE then j else 0
        decreases A_TSIZE - j
      {
        if ctab[i].sess == 0 {
          break;
        }
        j := j + 1;
        if j > A_TSIZE || ctab[i].uid == u {
          break;
        }
        i := (i + 1) % 1001;
      }
      full := j >= A_TSIZE;
      assert SlotOk(i);
      if u in m {
        assert UidOk(u);
      }
    }

    /** Charge a user: in the slot of the user, or the first empty one from the home on.  When there is
        none the time goes to the user whose slot is tried first. */
    method Enter(c: Charge) returns (full: bool, ghost i: nat)
      requires Valid()
      modifies ctab, `m, `at
      ensures Valid()
      ensures Total(ctab[..], A_TSIZE) == old(Total(ctab[..], A_TSIZE)) + c.con0 + c.con1
      ensures !old(Full(c.uid)) ==> m == old(m)[c.uid := Add(Known(old(m), c), c)]
      ensures i < A_TSIZE
      ensures !old(Full(c.uid)) ==> at == old(at)[c.uid := i] && ctab[..] == old(ctab[..])[i := m[c.uid]]
      ensures !old(Full(c.uid)) && c.uid !in old(m) ==> old(ctab[i].sess) == 0 && old(Reached(Home(c.uid), i))
      ensures old(Full(c.uid)) ==>
                var other := old(ctab[Home(c.uid)]);
                full && other.uid in old(m) && m == old(m)[other.uid := Add(other, c)]
      ensures full <==> old(Full(c.uid)) ||
                        (c.uid in old(m) && Dist(Home(c.uid), old(at)[c.uid], A_TSIZE) == A_TSIZE - 1)
    {
      var slot;
      slot, full := Probe(c.uid);
      i := slot;
      assert SlotOk(i) && (c.uid in m ==> UidOk(c.uid));
      TotalUpdate(ctab[..], i, Add(if ctab[i].sess == 0 then Ctab(c.uid, c.name, 0, 0, 0) else ctab[i], c), A_TSIZE);
      Put(slot, c);
    }

    /** Add a charge to slot i. */
    method Put(i: nat, c: Charge)
      requires Valid() && i < A_TSIZE && (ctab[i].sess == 0 ==> c.uid !in m && Reached(Home(c.uid), i))
      modifies ctab, `m, `at
      ensures Valid()
      ensures var was := if old(ctab[i].sess) == 0 then Ctab(c.uid, c.name, 0, 0, 0) else old(ctab[i]);
        m == old(m)[was.uid := Add(was, c)] && at == old(at)[was.uid := i] &&
        ctab[..] == old(ctab[..])[i := Add(was, c)]
    {
      hide Home;
      assert SlotOk(i);
      if ctab[i].sess == 0 {
        ctab[i] := ctab[i].(uid := c.uid, name := c.name);
      } else {
        assert UidOk(ctab[i].uid);
      }
      ctab[i] := Add(ctab[i], c);
      var u := ctab[i].uid;
      m := m[u := ctab[i]];
      at := at[u := i];
      forall k | k in m
        ensures UidOk(k)
      {
        if k != u {
          assert old(UidOk(k));
          UidStays(k);
        } else {
          assert Reached(Home(u), i);
        }
      }
      forall q | 0 <= q < A_TSIZE
        ensures SlotOk(q)
      {
        assert old(SlotOk(q));
      }
    }

    twostate predicate SlotsKept()
      requires ctab.Length == A_TSIZE
      reads ctab
    {
      forall q {:trigger ctab[q]} :: 0 <= q < A_TSIZE && old(ctab[q].sess) > 0 ==> ctab[q].sess > 0
    }

    twostate lemma UidStays(k: int)
      requires ctab.Length == A_TSIZE && k in old(m) && k in old(at) && old(UidOk(k))
      requires k in m && k in at && m[k] == old(m)[k] && at[k] == old(at)[k]
      requires SlotsKept() && ctab[at[k]] == old(ctab[at[k]])
      ensures UidOk(k)
    {
      forall q | 0 <= q < A_TSIZE && Dist(Home(k), q, A_TSIZE) < Dist(Home(k), at[k], A_TSIZE)
        ensures ctab[q].sess > 0
      {
        assert old(ctab[q].sess) > 0;
      }
    }

    /** A user who finds the table full is one more than it has room for. */
    lemma FullIsMany(u: int, us: set<int>)
      requires Valid() && Full(u) && m.Keys <= us && u in us
      ensures |us| > A_TSIZE
    {
      hide UidOk;
      forall i | 0 <= i < A_TSIZE
        ensures ctab[i].uid in m && at[ctab[i].uid] == i && ctab[i].uid != u
      {
        assert SlotOk(i);
      }
      MoreThanFits(ctab[..], us, u);
    }
  }

  /** The users 0 to n - 1 in the slots of these numbers. */
  ghost predicate Front(users: Users, n: nat)
    reads users, users.ctab
  {
    && users.Valid()
    && (forall u :: u in users.m <==> 0 <= u < n)
    && (forall q :: 0 <= q < A_TSIZE ==> (users.ctab[q].sess == 0 <==> q >= n))
  }

  lemma NotFull(users: Users, n: nat, u: int)
    requires n < A_TSIZE && Front(users, n)
    ensures !users.Full(u)
  {
    hide Users.Valid;
    assert users.ctab[n].sess == 0;
  }

  method ChargeNext(users: Users, uid: nat)
    requires uid < 1000 && Front(users, uid)
    modifies users.ctab, users`m, users`at
    ensures Front(users, uid + 1)
  {
    hide Users.Valid;
    hide Users.UidOk;
    hide Users.SlotOk;
    hide Known;
    hide Total;
    hide Home;
    HomeSmall(uid);
    NotFull(users, uid, uid);
    assert users.ctab[uid].sess == 0;
    var full;
    ghost var i;
    full, i := users.Enter(Charge(uid, "", 1, 0));
  }

  lemma HomeSmall(uid: nat)
    requires uid < 0x1_0000_0000
    ensures Home(uid) == uid % 1001
  {
  }

  method ChargeLast(users: Users, uid: nat)
    requires Front(users, 1000) && uid == 1001
    modifies users.ctab, users`m, users`at
    ensures users.Valid() && uid in users.at && users.at[uid] == 1000
    ensures uid in users.m && users.m == old(users.m)[uid := users.m[uid]]
  {
    NotFull(users, 1000, uid);
    hide Users.Valid;
    hide Users.Full;
    hide Users.Reached;
    hide Total;
    hide Home;
    hide Add;
    hide Known;
    var full;
    ghost var i;
    full, i := users.Enter(Charge(uid, "", 1, 0));
    assert i == 1000;
  }

  /** The users 0 to 999 and 1001 are as many as there are slots, but 1001, whose home is slot 0, gets
      the last slot: charged again, this user finds the table "full". */
  method FullTooSoon() returns (users: Users, full: bool)
    ensures fresh(users) && fresh(users.ctab) && users.Valid() && full
    ensures forall u :: u in users.m <==> 0 <= u < 1000 || u == 1001
  {
    hide Users.Valid;
    hide Users.Full;
    hide Total;
    hide Home;
    users := new Users();
    var uid := 0;
    while uid < 1000
      invariant 0 <= uid <= 1000 && Front(users, uid) && fresh(users.ctab)
    {
      ChargeNext(users, uid);
      uid := uid + 1;
    }
    ChargeLast(users, 1001);
    full := ChargeAgain(users);
  }

  method ChargeAgain(users: Users) returns (full: bool)
    requires users.Valid() && 1001 in users.m && 1001 in users.at && users.at[1001] == 1000
    modifies users.ctab, users`m, users`at
    ensures users.Valid() && full && users.m.Keys == old(users.m.Keys)
  {
    hide Total;
    hide Home;
    HomeSmall(1001);
    assert users.UidOk(1001);
    ghost var i;
    full, i := users.Enter(Charge(1001, "", 1, 0));
  }
}
