/** Cache keys of the partition registry: the table name, a colon and the
    snapshot id in decimal, and the prefix test that invalidation uses. */
module CacheKeys {
  import opened Options

  function Digit(d: nat): char
    requires d < 10
  {
    '0' + d as char
  }

  /** std::to_string on an unsigned number. */
  function Decimal(n: nat): string {
    if n < 10 then [Digit(n)] else Decimal(n / 10) + [Digit(n % 10)]
  }

  /** Reads a string of decimal digits; None when it is empty or holds another character. */
  function ParseDecimal(s: string): Option<nat> {
    if s == [] then None
    else
      var c := s[|s| - 1];
      if !('0' <= c <= '9') then None
      else if |s| == 1 then Some((c - '0') as nat)
      else
        match ParseDecimal(s[..|s| - 1])
        case None => None
        case Some(high) => Some(10 * high + (c - '0') as nat)
  }

  lemma {:induction false} DecimalRoundTrip(n: nat)
    ensures ParseDecimal(Decimal(n)) == Some(n)
  {
    if n >= 10 {
      DecimalRoundTrip(n / 10);
      assert Decimal(n)[..|Decimal(n)| - 1] == Decimal(n / 10);
    }
  }

  /** The usual decimal notation: one more digit at the end is ten times as much and the digit. */
  lemma DecimalDigits(n: nat, d: nat)
    requires d < 10
    ensures Decimal(d) == ["0123456789"[d]]
    ensures n > 0 ==> Decimal(10 * n + d) == Decimal(n) + ["0123456789"[d]]
  {
    assert "0123456789"[d] == '0' + d as char;
    if n > 0 {
      assert (10 * n + d) / 10 == n && (10 * n + d) % 10 == d;
    }
  }

  lemma {:induction false} DecimalHasNoColon(n: nat)
    ensures ':' !in Decimal(n)
  {
    if n >= 10 {
      DecimalHasNoColon(n / 10);
    }
  }

  function TablePrefix(table: string): string {
    table + ":"
  }

  function CacheKey(table: string, snap: nat): string {
    TablePrefix(table) + Decimal(snap)
  }

  /** The colon after the table name is the last colon of a key. */
  lemma LastColon(t: string, s: nat)
    ensures CacheKey(t, s)[|t|] == ':'
    ensures forall i :: |t| < i < |CacheKey(t, s)| ==> CacheKey(t, s)[i] != ':'
  {
    DecimalHasNoColon(s);
    forall i | |t| < i < |CacheKey(t, s)| ensures CacheKey(t, s)[i] != ':' {
      assert CacheKey(t, s)[i] == Decimal(s)[i - |t| - 1];
    }
  }

  /** Two cache keys are equal only for the same table and snapshot, whatever
      characters the table names hold. */
  lemma KeyIsFaithful(t: string, s: nat, u: string, r: nat)
    requires CacheKey(t, s) == CacheKey(u, r)
    ensures t == u && s == r
  {
    var k := CacheKey(t, s);
    LastColon(t, s);
    LastColon(u, r);
    assert t == k[..|t|] == u;
    assert Decimal(s) == k[|t| + 1..] == Decimal(r);
    DecimalRoundTrip(s);
    DecimalRoundTrip(r);
  }

  /** Prefix invalidation of t reaches every key of t, and besides them exactly
      the keys of tables whose own name starts with "t:". */
  lemma PrefixReach(t: string, u: string, s: nat)
    ensures TablePrefix(t) <= CacheKey(u, s) <==> u == t || TablePrefix(t) <= u
  {
    var p, k := TablePrefix(t), CacheKey(u, s);
    LastColon(u, s);
    if p <= k {
      assert k[|t|] == ':';
      if |t| == |u| {
        assert u == k[..|u|] == p[..|u|] == t;
      } else {
        assert |t| < |u|;
        assert u[..|p|] == k[..|p|] == p;
      }
    }
  }
}
