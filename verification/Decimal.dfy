/** Decimal numerals: what printf prints for a count and what a digit loop reads back. */
module Decimal {

  predicate IsDigit(c: char) {
    '0' <= c <= '9'
  }

  function Digit(d: nat): (c: char)
    requires d < 10
    ensures IsDigit(c)
  {
    '0' + d as char
  }

  function DigitVal(c: char): (d: nat)
    requires IsDigit(c)
    ensures d < 10 && Digit(d) == c
  {
    (c - '0') as nat
  }

  lemma DigitIs(d: nat)
    requires d < 10
    ensures Digit(d) == "0123456789"[d]
  {
  }

  predicate AllDigits(s: string) {
    forall i :: 0 <= i < |s| ==> IsDigit(s[i])
  }

  /** The canonical numeral of n: no leading zero except for zero itself. */
  function Dec(n: nat): (s: string)
    ensures s != "" && AllDigits(s)
  {
    if n < 10 then [Digit(n)] else Dec(n / 10) + [Digit(n % 10)]
  }

  /** What a digit string denotes. */
  function Val(s: string): nat
    requires AllDigits(s)
  {
    if s == "" then 0 else Val(s[..|s| - 1]) * 10 + DigitVal(s[|s| - 1])
  }

  lemma {:induction false} ValDec(n: nat)
    ensures Val(Dec(n)) == n
  {
    if n < 10 {
      assert Dec(n)[..0] == "";
    } else {
      ValDec(n / 10);
      var s := Dec(n / 10);
      assert (s + [Digit(n % 10)])[..|s|] == s;
    }
  }

  /** Canonical numerals start with 0 only for zero. */
  lemma {:induction false} DecLeads(n: nat)
    ensures n > 0 ==> Dec(n)[0] != '0'
  {
    if n >= 10 {
      DecLeads(n / 10);
    }
  }

  /** A numeral of at most k digits is below 10 to the k, and the other way around. */
  function Pow10(k: nat): nat {
    if k == 0 then 1 else 10 * Pow10(k - 1)
  }

  lemma {:induction false} DecLength(n: nat, k: nat)
    requires k > 0
    ensures |Dec(n)| <= k <==> n < Pow10(k)
  {
    if n < 10 {
      PowPositive(k - 1);
    } else if k == 1 {
    } else {
      DecLength(n / 10, k - 1);
      assert n / 10 < Pow10(k - 1) <==> n < 10 * Pow10(k - 1);
    }
  }

  lemma {:induction false} PowPositive(k: nat)
    ensures Pow10(k) >= 1
  {
    if k > 0 {
      PowPositive(k - 1);
    }
  }

  /** Any digit string without a leading zero is the numeral of its value. */
  lemma {:induction false} DecVal(s: string)
    requires s != "" && AllDigits(s) && (|s| > 1 ==> s[0] != '0')
    ensures Dec(Val(s)) == s
  {
    var init, last := s[..|s| - 1], s[|s| - 1];
    assert s == init + [last];
    if init != "" {
      DecVal(init);
      ValPositive(init);
      var v, d := Val(init), DigitVal(last);
      assert Val(s) == v * 10 + d && (v * 10 + d) / 10 == v && (v * 10 + d) % 10 == d;
    }
  }

  lemma {:induction false} ValPositive(s: string)
    requires s != "" && AllDigits(s) && s[0] != '0'
    ensures Val(s) > 0
  {
    if |s| > 1 {
      ValPositive(s[..|s| - 1]);
    }
  }

  /** A torn numeral denotes no more than the whole. */
  lemma {:induction false} ValPrefix(s: string, k: nat)
    requires AllDigits(s) && k <= |s|
    ensures Val(s[..k]) <= Val(s)
    decreases |s|
  {
    if k < |s| {
      assert s[..|s| - 1][..k] == s[..k];
      ValPrefix(s[..|s| - 1], k);
    } else {
      assert s[..k] == s;
    }
  }

  /** Reading digits from the front: the longest digit prefix. */
  function DigitRun(s: string): (k: nat)
    ensures k <= |s| && AllDigits(s[..k]) && (k < |s| ==> !IsDigit(s[k]))
  {
    if s == "" || !IsDigit(s[0]) then 0
    else
      var k := 1 + DigitRun(s[1..]);
      assert forall i :: 1 <= i < k ==> s[..k][i] == s[1..][..k - 1][i - 1];
      k
  }

  lemma {:induction false} DigitRunOf(s: string, t: string)
    requires AllDigits(s) && (t == "" || !IsDigit(t[0]))
    ensures DigitRun(s + t) == |s|
  {
    if s == "" {
      assert s + t == t;
    } else {
      assert (s + t)[1..] == s[1..] + t;
      DigitRunOf(s[1..], t);
    }
  }

  /** What printf prints for "%d" or "%ld". */
  function LongText(n: int): (s: string)
    ensures s != ""
  {
    if n < 0 then "-" + Dec(-n) else Dec(n)
  }

  lemma NotEmpty(n: nat)
    ensures Dec(n) != ""
  {
  }

  /** A numeral is that of the number without its last digit, if that is not zero, and the digit. */
  lemma LastDigit(m: nat)
    ensures var d := Dec(m);
      d == (if m / 10 == 0 then "" else Dec(m / 10)) + [Digit(m % 10)]
  {
  }

  /** The digits of n, least significant first, into the front of the buffer. */
  method DigitsBackward(n: nat, s: array<char>) returns (i: nat)
    requires |Dec(n)| <= s.Length
    modifies s
    ensures i == |Dec(n)|
    ensures forall k :: 0 <= k < i ==> s[k] == Dec(n)[i - 1 - k]
    ensures forall k :: i <= k < s.Length ==> s[k] == old(s[k])
  {
    hide Dec;
    i := 0;
    var m := n;
    ghost var all := Dec(n);
    NotEmpty(n);
    while true
      invariant 0 <= i < |all| && Dec(m) == all[..|all| - i]
      invariant forall k :: 0 <= k < i ==> s[k] == all[|all| - 1 - k]
      invariant forall k :: i <= k < s.Length ==> s[k] == old(s[k])
      decreases m
    {
      LastDigit(m);
      s[i] := Digit(m % 10);
      i := i + 1;
      m := m / 10;
      if m == 0 {
        return;
      }
    }
  }

  /** Swap the two ends inward. */
  method ReverseInPlace(s: array<char>, len: nat, ghost all: string)
    requires len == |all| <= s.Length
    requires forall k :: 0 <= k < len ==> s[k] == all[len - 1 - k]
    modifies s
    ensures forall k :: 0 <= k < len ==> s[k] == all[k]
    ensures forall k :: len <= k < s.Length ==> s[k] == old(s[k])
  {
    var p, j := 0, len - 1;
    while p < j
      invariant 0 <= p <= len && -1 <= j < len && p + j == len - 1
      invariant forall k :: 0 <= k < p || j < k < len ==> s[k] == all[k]
      invariant forall k :: p <= k <= j ==> s[k] == all[len - 1 - k]
      invariant forall k :: len <= k < s.Length ==> s[k] == old(s[k])
    {
      s[p], s[j] := s[j], s[p];
      p, j := p + 1, j - 1;
    }
  }

  /** Printing the digits backward and then reversing them in place, as a C itoa does. */
  method Itoa(n: nat, s: array<char>) returns (len: nat)
    requires |Dec(n)| < s.Length
    modifies s
    ensures len == |Dec(n)| && s[len] == '\0'
    ensures forall k :: 0 <= k < len ==> s[k] == Dec(n)[k]
    ensures forall k :: len < k < s.Length ==> s[k] == old(s[k])
  {
    len := DigitsBackward(n, s);
    s[len] := '\0';
    ReverseInPlace(s, len, Dec(n));
  }
}
