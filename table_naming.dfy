/**
 * The name of a project's table: the fixed prefix `Sections_` followed by
 * Python's `str(project_id)`, the decimal rendering of the identifier.
 */
module TableNaming {

  const Prefix: string := "Sections_"

  function DigitChar(d: nat): (c: char)
    requires d < 10
    ensures '0' <= c <= '9'
    ensures c as int - '0' as int == d
  {
    ('0' as int + d) as char
  }

  /** Decimal digits of `n`, most significant first, without leading zeros. */
  function NatToString(n: nat): (s: string)
    ensures 1 <= |s|
    ensures n >= 10 <==> |s| >= 2
    ensures forall i :: 0 <= i < |s| ==> '0' <= s[i] <= '9'
    ensures s[|s| - 1] == DigitChar(n % 10)
  {
    if n < 10 then [DigitChar(n)] else NatToString(n / 10) + [DigitChar(n % 10)]
  }

  /** Python's `str(i)` for an integer. */
  function IntToString(i: int): (s: string)
    ensures 1 <= |s|
    ensures s[0] == '-' <==> i < 0
  {
    if i < 0 then "-" + NatToString(-i) else NatToString(i)
  }

  /** `self.dbtablename`: the prefix followed by the project identifier. */
  function TableName(projectId: int): (name: string)
    ensures |name| > |Prefix|
    ensures name[..|Prefix|] == Prefix
    ensures name[|Prefix|..] == IntToString(projectId)
  {
    Prefix + IntToString(projectId)
  }

  lemma {:induction false} NatToStringInjective(n: nat, m: nat)
    requires NatToString(n) == NatToString(m)
    ensures n == m
  {
    if n >= 10 {
      var s := NatToString(n);
      assert m >= 10;
      assert s[..|s| - 1] == NatToString(n / 10);
      assert s[..|s| - 1] == NatToString(m / 10);
      NatToStringInjective(n / 10, m / 10);
    }
  }

  lemma IntToStringInjective(i: int, j: int)
    requires IntToString(i) == IntToString(j)
    ensures i == j
  {
    var s := IntToString(i);
    if i < 0 {
      assert s[1..] == NatToString(-i) == NatToString(-j);
      NatToStringInjective(-i, -j);
    } else {
      NatToStringInjective(i, j);
    }
  }

  /** Distinct projects never share a table. */
  lemma TableNameInjective(p: int, q: int)
    requires TableName(p) == TableName(q)
    ensures p == q
  {
    assert TableName(p)[|Prefix|..] == TableName(q)[|Prefix|..];
    IntToStringInjective(p, q);
  }
}
