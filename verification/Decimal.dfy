/** Decimal numerals: what str(int) writes and int(str) reads. */
module Decimal {

  predicate IsDigit(c: char) {
    '0' <= c <= '9'
  }

  predicate Digits(s: string) {
    s != [] && forall i :: 0 <= i < |s| ==> IsDigit(s[i])
  }

  function Write(n: nat): (s: string)
    ensures Digits(s)
  {
    var last := '0' + (n % 10) as char;
    if n < 10 then [last] else Write(n / 10) + [last]
  }

  function Read(s: string): nat
    requires Digits(s)
  {
    var last := (s[|s| - 1] - '0') as nat;
    if |s| == 1 then last else 10 * Read(s[..|s| - 1]) + last
  }

  lemma {:induction false} RoundTrip(n: nat)
    ensures Read(Write(n)) == n
  {
    if n >= 10 {
      RoundTrip(n / 10);
      var s := Write(n);
      assert s[..|s| - 1] == Write(n / 10);
    }
  }

  lemma {:induction false} Injective(m: nat, n: nat)
    requires Write(m) == Write(n)
    ensures m == n
  {
    RoundTrip(m);
    RoundTrip(n);
  }

  /** A numeral written for a number has no leading zero unless it is "0". */
  lemma {:induction false} NoLeadingZero(n: nat)
    ensures n > 0 ==> Write(n)[0] != '0'
  {
    if n >= 10 {
      NoLeadingZero(n / 10);
    }
  }

  /** Cutting digits off the end makes a positive number smaller, but not zero. */
  lemma {:induction false} PrefixIsSmaller(n: nat, q: nat)
    requires n > 0 && 0 < q < |Write(n)|
    ensures Digits(Write(n)[..q]) && 0 < Read(Write(n)[..q]) < n
  {
    var front := Write(n / 10);
    assert Write(n)[..q] == front[..q];
    if q == |front| {
      assert front[..q] == front;
      RoundTrip(n / 10);
    } else {
      PrefixIsSmaller(n / 10, q);
    }
  }
}
