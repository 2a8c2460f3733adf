/** The remainder by repeated subtraction, for proofs that divide by a variable. */
module Remainder {
  /** The remainder of h by n, by repeated subtraction. */
  function Rem(h: nat, n: nat): (r: nat)
    requires n > 0
    ensures r < n
  {
    if h < n then h else Rem(h - n, n)
  }

  lemma {:induction false} RemOf(h: nat, n: nat, q: nat, r: nat)
    requires r < n && h == n * q + r
    ensures Rem(h, n) == r
  {
    if q > 0 {
      assert n * q == n * (q - 1) + n;
      assert n * (q - 1) >= 0;
      RemOf(h - n, n, q - 1, r);
    }
  }

  lemma RemIsMod(h: nat, n: nat)
    requires n > 0
    ensures Rem(h, n) == h % n
  {
    RemOf(h, n, h / n, h % n);
  }
}
