/** Decimal notation of natural numbers, shared by the JSON number code and by
    the length header of the socket messages. */
module Decimal {

  predicate IsDigit(c: char) {
    '0' <= c <= '9'
  }

  predicate AllDigits(s: string) {
    forall i :: 0 <= i < |s| ==> IsDigit(s[i])
  }

  /** The number a digit string denotes, most significant digit first. */
  function ValueOf(s: string): nat
    requires AllDigits(s)
  {
    if s == "" then 0 else ValueOf(s[..|s| - 1]) * 10 + (s[|s| - 1] as int - '0' as int)
  }

  /** The ten digits, and the weight of their places. */
  lemma DigitIff(c: char, d: nat)
    requires d < 10
    ensures IsDigit(c) && ValueOf([c]) == d <==> c == "0123456789"[d]
  {
    assert [c][..0] == "";
  }

  lemma PlacesExample()
    ensures AllDigits("305") && ValueOf("305") == 305
  {
    assert "305"[..2] == "30" && "30"[..1] == "3" && "3"[..0] == "";
  }

  function DigitChar(d: nat): (c: char)
    requires d < 10
    ensures IsDigit(c) && c as int - '0' as int == d
  {
    ('0' as int + d) as char
  }

  /** Decimal notation without leading zeros. */
  function Print(n: nat): string {
    if n < 10 then [DigitChar(n)] else Print(n / 10) + [DigitChar(n % 10)]
  }

  /** Printing then reading gives the number back. */
  lemma {:induction false} PrintRoundTrip(n: nat)
    ensures Print(n) != "" && AllDigits(Print(n)) && ValueOf(Print(n)) == n
    ensures Print(n)[0] == '0' ==> n == 0
  {
    if n < 10 {
      assert Print(n)[..0] == "";
    } else {
      PrintRoundTrip(n / 10);
      var s := Print(n / 10);
      assert Print(n)[..|Print(n)| - 1] == s;
      assert Print(n)[0] == s[0];
    }
  }

  /** Appending digits never lowers the value below the shifted prefix. */
  lemma {:induction false} ValueOfPrefix(s: string, k: nat)
    requires AllDigits(s) && k < |s|
    ensures ValueOf(s) >= 10 * ValueOf(s[..k])
    ensures ValueOf(s) >= ValueOf(s[..k + 1])
    decreases |s|
  {
    var front := s[..|s| - 1];
    if k + 1 == |s| {
      assert s[..k] == front && s[..k + 1] == s;
    } else {
      assert front[..k] == s[..k] && front[..k + 1] == s[..k + 1];
      ValueOfPrefix(front, k);
    }
  }

  /** A number below 10^d has at most d digits. */
  lemma {:induction false} PrintLength(n: nat, d: nat)
    requires d > 0 && n < Power10(d)
    ensures |Print(n)| <= d
    decreases d
  {
    if n >= 10 {
      if d > 1 {
        PrintLength(n / 10, d - 1);
      }
    }
  }

  function Power10(d: nat): nat {
    if d == 0 then 1 else 10 * Power10(d - 1)
  }
}
