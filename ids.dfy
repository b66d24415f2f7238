/**
 * Fresh section identifiers. The application draws a random UUID per
 * section; the model draws from a counter instead, `IdOf(n)` being the
 * identifier handed out n-th. Distinct counter values give distinct
 * identifiers, which is all the application relies on.
 */
module Ids {

  predicate IsDigit(c: char) {
    '0' <= c <= '9'
  }

  function DigitChar(d: nat): (c: char)
    requires d < 10
    ensures IsDigit(c) && c as int - '0' as int == d
  {
    ('0' as int + d) as char
  }

  /** Decimal notation of `n`, most significant digit first. */
  function Digits(n: nat): (r: string)
    ensures r != []
    ensures forall k :: 0 <= k < |r| ==> IsDigit(r[k])
    decreases n
  {
    if n < 10 then [DigitChar(n)] else Digits(n / 10) + [DigitChar(n % 10)]
  }

  /** The number a string of decimal digits denotes. */
  function Value(s: string): nat
    requires forall k :: 0 <= k < |s| ==> IsDigit(s[k])
  {
    if s == [] then 0
    else
      assert IsDigit(s[|s| - 1]);
      10 * Value(s[..|s| - 1]) + (s[|s| - 1] as int - '0' as int)
  }

  /** Reading back the decimal notation of `n` gives `n`. */
  lemma {:induction false} ValueOfDigits(n: nat)
    ensures Value(Digits(n)) == n
    decreases n
  {
    if n >= 10 {
      var d := Digits(n);
      assert d[..|d| - 1] == Digits(n / 10);
      ValueOfDigits(n / 10);
    }
  }

  const IdPrefix: string := "sec-"

  /** The identifier handed out for counter value `n`. */
  function IdOf(n: nat): (id: string)
    ensures |id| > |IdPrefix| && id[..|IdPrefix|] == IdPrefix
  {
    IdPrefix + Digits(n)
  }

  /** Different counter values never give the same identifier. */
  lemma IdOfInjective(m: nat, n: nat)
    ensures IdOf(m) == IdOf(n) <==> m == n
  {
    if IdOf(m) == IdOf(n) {
      assert Digits(m) == IdOf(m)[|IdPrefix|..];
      assert Digits(n) == IdOf(n)[|IdPrefix|..];
      ValueOfDigits(m);
      ValueOfDigits(n);
    }
  }

  /** `id` was handed out before the counter reached `next`. */
  ghost predicate IssuedBelow(id: string, next: nat) {
    exists k: nat :: k < next && IdOf(k) == id
  }

  /** An identifier issued below `next` differs from the one issued at `next`. */
  lemma IssuedBelowIsNotNext(id: string, next: nat)
    requires IssuedBelow(id, next)
    ensures id != IdOf(next)
  {
    var k: nat :| k < next && IdOf(k) == id;
    IdOfInjective(k, next);
  }
}
