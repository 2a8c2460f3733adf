/** Tables that are probed round. */
module Ring {
  /** How many steps it takes from slot h to slot i of n, going round. */
  function Dist(h: int, i: int, n: int): int {
    if i >= h then i - h else i - h + n
  }

  /** The slot j steps from slot h. */
  function Round(h: nat, j: nat, n: nat): (i: nat)
    requires h < n && j < n
    ensures i < n && Dist(h, i, n) == j
  {
    if h + j < n then h + j else h + j - n
  }

  /** The first slot that is not used, from j steps behind h on; h itself if all are. */
  function First(h: nat, used: set<nat>, n: nat, j: nat): (i: nat)
    requires h < n && j <= n
    ensures i < n
    decreases n - j
  {
    if j == n then h
    else if Round(h, j, n) !in used then Round(h, j, n)
    else First(h, used, n, j + 1)
  }

  lemma {:induction false} FirstIs(h: nat, used: set<nat>, n: nat, j: nat, i: nat)
    requires h < n && i < n && i !in used && j <= Dist(h, i, n)
    requires forall q :: 0 <= q < n && Dist(h, q, n) < Dist(h, i, n) ==> q in used
    ensures First(h, used, n, j) == i
    decreases n - j
  {
    var q := Round(h, j, n);
    if j < Dist(h, i, n) {
      assert q in used;
      FirstIs(h, used, n, j + 1, i);
    } else {
      assert q == i;
    }
  }

  lemma {:induction false} FirstReached(h: nat, used: set<nat>, n: nat, j: nat)
    requires h < n && j <= n && forall q :: 0 <= q < n && Dist(h, q, n) < j ==> q in used
    ensures var i := First(h, used, n, j);
      if i in used then forall q :: 0 <= q < n ==> q in used
      else forall q :: 0 <= q < n && Dist(h, q, n) < Dist(h, i, n) ==> q in used
    decreases n - j
  {
    if j < n && Round(h, j, n) in used {
      forall q | 0 <= q < n && Dist(h, q, n) < j + 1
        ensures q in used
      {
        if Dist(h, q, n) == j {
          assert q == Round(h, j, n);
        }
      }
      FirstReached(h, used, n, j + 1);
    }
  }
}
