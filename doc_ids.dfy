/** Identifiers of persisted state documents.
    The n-th document of one restore series is stored under the caller's prefix
    followed by n written in decimal, as Java's string concatenation `prefix + n`
    renders a non-negative int. */
module DocIds {

  /** The character for one decimal digit. */
  function Digit(d: nat): (c: char)
    requires d < 10
    ensures '0' <= c <= '9' && ValueOf(c) == d
  {
    (('0' as int) + d) as char
  }

  /** The value of a decimal digit character. */
  function ValueOf(c: char): int {
    (c as int) - ('0' as int)
  }

  /** n in decimal, most significant digit first, without leading zeros. */
  function Decimal(n: nat): (s: string)
    ensures |s| >= 1
    ensures forall i | 0 <= i < |s| :: '0' <= s[i] <= '9'
    ensures s[0] == '0' ==> n == 0
  {
    if n < 10 then [Digit(n)] else Decimal(n / 10) + [Digit(n % 10)]
  }

  /** Reads a string of decimal digits back as a number. */
  function ParseDecimal(s: string): int {
    if s == [] then 0 else 10 * ParseDecimal(s[..|s| - 1]) + ValueOf(s[|s| - 1])
  }

  lemma {:induction false} DecimalRoundTrip(n: nat)
    ensures ParseDecimal(Decimal(n)) == n
  {
    if n >= 10 {
      DecimalRoundTrip(n / 10);
      var s := Decimal(n);
      assert s[..|s| - 1] == Decimal(n / 10);
    }
  }

  /** The identifier of document number n of the series named by prefix. */
  function DocId(prefix: string, n: nat): string {
    prefix + Decimal(n)
  }

  /** Two sequence numbers name the same document only if they are equal. */
  lemma DocIdInjective(prefix: string, i: nat, j: nat)
    ensures DocId(prefix, i) == DocId(prefix, j) <==> i == j
  {
    if DocId(prefix, i) == DocId(prefix, j) {
      assert Decimal(i) == DocId(prefix, i)[|prefix|..];
      assert Decimal(j) == DocId(prefix, j)[|prefix|..];
      DecimalRoundTrip(i);
      DecimalRoundTrip(j);
    }
  }

  /** The identifiers of documents 1 to k of one series. */
  function Ids(prefix: string, k: nat): (ids: set<string>)
    ensures forall j | 1 <= j <= k :: DocId(prefix, j) in ids
  {
    if k == 0 then {} else Ids(prefix, k - 1) + {DocId(prefix, k)}
  }

  lemma {:induction false} IdsExclude(prefix: string, k: nat, m: nat)
    requires k < m
    ensures DocId(prefix, m) !in Ids(prefix, k)
  {
    if k > 0 {
      IdsExclude(prefix, k - 1, m);
      DocIdInjective(prefix, k, m);
    }
  }

  /** The first k identifiers of a series are k distinct strings. */
  lemma {:induction false} IdsCardinality(prefix: string, k: nat)
    ensures |Ids(prefix, k)| == k
  {
    if k > 0 {
      IdsCardinality(prefix, k - 1);
      IdsExclude(prefix, k - 1, k);
    }
  }

  lemma {:induction false} IdsWithin(keys: set<string>, prefix: string, k: nat)
    requires forall j | 1 <= j <= k :: DocId(prefix, j) in keys
    ensures Ids(prefix, k) <= keys
  {
    if k > 0 {
      IdsWithin(keys, prefix, k - 1);
    }
  }

  /** A store whose keys hold documents 1 to k of a series holds at least k keys:
      this bounds how long the restore loop can keep finding documents. */
  lemma RunBound(keys: set<string>, prefix: string, k: nat)
    requires forall j | 1 <= j <= k :: DocId(prefix, j) in keys
    ensures k <= |keys|
  {
    IdsWithin(keys, prefix, k);
    IdsCardinality(prefix, k);
    var ids := Ids(prefix, k);
    assert keys == ids + (keys - ids);
  }
}
