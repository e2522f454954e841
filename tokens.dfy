/** The token record the exporter decodes from each listing page, and the
    label triple that names a token's gauge series. */
module Tokens {

  /** One personal access token as the listing reports it. Only the fields
      the exporter reads are kept (see README, "Left out"). */
  datatype Token = Token(id: int, name: string, expiresAt: string, username: string)

  /** The label values of one gauge series, in the order the gauge vector
      declares them: token_name, token_id, token_owner. */
  datatype Labels = Labels(tokenName: string, tokenId: string, tokenOwner: string)

  predicate IsDigit(c: char) {
    '0' <= c <= '9'
  }

  function DigitChar(d: nat): (c: char)
    requires d < 10
    ensures IsDigit(c) && c as int - '0' as int == d
  {
    ('0' as int + d) as char
  }

  /** Decimal digits of a non-negative number, most significant first. */
  function NatDigits(n: nat): (s: string)
    ensures |s| >= 1
    ensures forall i :: 0 <= i < |s| ==> IsDigit(s[i])
    decreases n
  {
    if n < 10 then [DigitChar(n)] else NatDigits(n / 10) + [DigitChar(n % 10)]
  }

  /** Go's "%d" verb on an int: a minus sign for negative values, then the
      decimal digits of the magnitude. */
  function DecimalString(n: int): (s: string)
    ensures |s| >= 1
    ensures s[0] == '-' <==> n < 0
    ensures forall i :: 0 <= i < |s| && (i > 0 || n >= 0) ==> IsDigit(s[i])
  {
    if n < 0 then "-" + NatDigits(-n) else NatDigits(n)
  }

  /** The number a string of decimal digits denotes. */
  function DigitsValue(s: string): nat
    requires forall i :: 0 <= i < |s| ==> IsDigit(s[i])
  {
    if s == [] then 0
    else
      assert IsDigit(s[|s| - 1]);
      DigitsValue(s[..|s| - 1]) * 10 + (s[|s| - 1] as int - '0' as int)
  }

  lemma {:induction false} DigitsValueOfNatDigits(n: nat)
    ensures DigitsValue(NatDigits(n)) == n
    decreases n
  {
    var s := NatDigits(n);
    if n >= 10 {
      DigitsValueOfNatDigits(n / 10);
      assert s[..|s| - 1] == NatDigits(n / 10);
    }
  }

  /** Different ids never print the same: the token_id label identifies the id. */
  lemma DecimalStringInjective(a: int, b: int)
    ensures DecimalString(a) == DecimalString(b) <==> a == b
  {
    if DecimalString(a) == DecimalString(b) {
      DigitsValueOfNatDigits(if a < 0 then -a else a);
      DigitsValueOfNatDigits(if b < 0 then -b else b);
      if a < 0 {
        assert DecimalString(a)[1..] == NatDigits(-a);
        assert DecimalString(b)[1..] == NatDigits(-b);
      }
    }
  }

  /** The label triple a token's gauge is published under. */
  function KeyOf(t: Token): (k: Labels)
    ensures k.tokenName == t.name && k.tokenOwner == t.username
    ensures |k.tokenId| >= 1 && (k.tokenId[0] == '-' <==> t.id < 0)
  {
    Labels(t.name, DecimalString(t.id), t.username)
  }

  /** Two tokens share a gauge series exactly when they agree on name, id
      and owner; the expiry never takes part in the key. */
  lemma KeyOfIdentifies(a: Token, b: Token)
    ensures KeyOf(a) == KeyOf(b) <==> (a.name == b.name && a.id == b.id && a.username == b.username)
  {
    DecimalStringInjective(a.id, b.id);
  }
}
