/** Strings as the server handles them: substring search, lower case, decimals. */
module Text {
  import opened Common

  predicate OccursAt(s: string, pat: string, i: nat) {
    i + |pat| <= |s| && s[i..i + |pat|] == pat
  }

  /** `std::string::find`: the first occurrence at or after position i. */
  function Find(s: string, pat: string, i: nat): (r: Option<nat>)
    ensures r.Some? ==> i <= r.value && OccursAt(s, pat, r.value)
                        && forall j | i <= j < r.value :: !OccursAt(s, pat, j)
    ensures r.None? ==> forall j | i <= j :: !OccursAt(s, pat, j)
    decreases |s| - i
  {
    if i + |pat| > |s| then None
    else if OccursAt(s, pat, i) then Some(i)
    else if i == |s| then None
    else Find(s, pat, i + 1)
  }

  lemma FindIs(s: string, pat: string, i: nat, p: nat)
    requires i <= p && OccursAt(s, pat, p) && forall j | i <= j < p :: !OccursAt(s, pat, j)
    ensures Find(s, pat, i) == Some(p)
  {
  }

  lemma OccursInPrefix(s: string, pat: string, n: nat, j: nat)
    requires n <= |s|
    ensures OccursAt(s[..n], pat, j) <==> OccursAt(s, pat, j) && j + |pat| <= n
  {
    if j + |pat| <= n { assert s[..n][j..j + |pat|] == s[j..j + |pat|]; }
  }

  /** The first occurrence is stable: in every prefix it is found at the same place
      once the prefix is long enough, and not at all before. */
  lemma {:induction false} FindInPrefix(s: string, pat: string, n: nat, p: nat)
    requires Find(s, pat, 0) == Some(p) && n <= |s|
    ensures Find(s[..n], pat, 0) == (if p + |pat| <= n then Some(p) else None)
  {
    hide OccursAt;
    var r := Find(s[..n], pat, 0);
    OccursInPrefix(s, pat, n, p);
    if r.Some? {
      OccursInPrefix(s, pat, n, r.value);
    }
  }

  function LowerChar(c: char): char {
    if 'A' <= c <= 'Z' then c + 32 as char else c
  }

  /** `std::transform` with `tolower`, in the C locale. */
  function Lower(s: string): (r: string)
    ensures |r| == |s| && forall i | 0 <= i < |s| :: r[i] == LowerChar(s[i])
  {
    seq(|s|, i requires 0 <= i < |s| => LowerChar(s[i]))
  }

  predicate IsDigit(c: char) { '0' <= c <= '9' }

  function DigitValue(c: char): nat
    requires IsDigit(c)
  {
    c as int - '0' as int
  }

  function DigitChar(d: nat): (c: char)
    requires d < 10
    ensures IsDigit(c) && DigitValue(c) == d
  {
    '0' + d as char
  }

  /** The decimal digits of n, as `std::to_string` prints them. */
  function Decimal(n: nat): (s: string)
    ensures s != "" && forall i | 0 <= i < |s| :: IsDigit(s[i])
  {
    if n < 10 then [DigitChar(n)] else Decimal(n / 10) + [DigitChar(n % 10)]
  }

  /** The number a string of digits denotes. */
  function Value(s: string): nat
    requires forall i | 0 <= i < |s| :: IsDigit(s[i])
  {
    if s == "" then 0 else 10 * Value(s[..|s| - 1]) + DigitValue(s[|s| - 1])
  }

  lemma {:induction false} ValueOfDecimal(n: nat)
    ensures Value(Decimal(n)) == n
  {
    if n >= 10 {
      ValueOfDecimal(n / 10);
      assert Decimal(n)[..|Decimal(n)| - 1] == Decimal(n / 10);
    }
  }
}
