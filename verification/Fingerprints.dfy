/**
 * Order-free fingerprints of clickhouse/archive_daily.py: a row count, the sum
 * of the row hashes modulo 2^64 and their exclusive or.
 */
module Fingerprints {
  import opened Common

  const Modulus := 0x1_0000_0000_0000_0000

  /** A 64-bit sum, wrapped explicitly. */
  type Sum = n: nat | n < Modulus

  datatype Print = Print(rows: nat, sum: Sum, xor: bv64)

  const Nothing := Print(0, 0, 0)

  /** Addition modulo 2^64, as the database and the script both do it. */
  function Sum64(a: Sum, b: Sum): Sum { (a + b) % Modulus }

  function Xor64(a: bv64, b: bv64): bv64 { a ^ b }

  function Plus(a: Print, b: Print): Print {
    Print(a.rows + b.rows, Sum64(a.sum, b.sum), Xor64(a.xor, b.xor))
  }

  lemma PlusLaws(a: Print, b: Print, c: Print)
    ensures Plus(a, Nothing) == a && Plus(a, b) == Plus(b, a) && Plus(Plus(a, b), c) == Plus(a, Plus(b, c))
  {
    hide Sum64, Xor64;
    SumZero(a.sum);
    SumSwap(a.sum, b.sum);
    SumGroup(a.sum, b.sum, c.sum);
    XorZero(a.xor);
    XorSwap(a.xor, b.xor);
    XorGroup(a.xor, b.xor, c.xor);
  }

  lemma SumZero(a: Sum)
    ensures Sum64(a, 0) == a
  {
  }

  lemma SumSwap(a: Sum, b: Sum)
    ensures Sum64(a, b) == Sum64(b, a)
  {
  }

  lemma SumGroup(a: Sum, b: Sum, c: Sum)
    ensures Sum64(Sum64(a, b), c) == Sum64(a, Sum64(b, c))
  {
  }

  lemma XorZero(a: bv64)
    ensures Xor64(a, 0) == a
  {
  }

  lemma XorSwap(a: bv64, b: bv64)
    ensures Xor64(a, b) == Xor64(b, a)
  {
  }

  lemma XorGroup(a: bv64, b: bv64, c: bv64)
    ensures Xor64(Xor64(a, b), c) == Xor64(a, Xor64(b, c))
  {
  }

  lemma PlusSwap(a: Print, b: Print, c: Print)
    ensures Plus(Plus(a, b), c) == Plus(Plus(a, c), b)
  {
    hide Plus;
    PlusLaws(a, b, c);
    PlusLaws(a, c, b);
    PlusLaws(b, c, Nothing);
  }

  function Combined(parts: seq<Print>): Print {
    if parts == [] then Nothing else Plus(Combined(parts[..|parts| - 1]), parts[|parts| - 1])
  }

  /** `_combine_parts`: the sums are taken in full and reduced once at the end. */
  method CombineParts(parts: seq<Print>) returns (whole: Print)
    ensures whole == Combined(parts)
  {
    hide Xor64;
    var rows: nat, sum: nat, xor: bv64 := 0, 0, 0;
    for i := 0 to |parts|
      invariant Print(rows, sum % Modulus, xor) == Combined(parts[..i])
    {
      assert parts[..i + 1][..i] == parts[..i];
      ReduceLater(sum, parts[i].sum);
      rows, sum, xor := rows + parts[i].rows, sum + parts[i].sum, Xor64(xor, parts[i].xor);
    }
    assert parts[..|parts|] == parts;
    whole := Print(rows, sum % Modulus, xor);
  }

  lemma ReduceLater(sum: nat, n: Sum)
    ensures Sum64(sum % Modulus, n) == (sum + n) % Modulus
  {
  }

  /** Growing one part grows the whole by as much. */
  lemma {:induction false} CombinedGrows(parts: seq<Print>, k: nat, p: Print)
    requires k < |parts|
    ensures Combined(parts[k := Plus(parts[k], p)]) == Plus(Combined(parts), p)
  {
    hide Plus;
    var n := |parts| - 1;
    var more := parts[k := Plus(parts[k], p)];
    var before := Combined(parts[..n]);
    if k == n {
      assert more[..n] == parts[..n];
      PlusLaws(before, parts[n], p);
    } else {
      assert more[..n] == parts[..n][k := Plus(parts[k], p)];
      CombinedGrows(parts[..n], k, p);
      PlusSwap(before, p, parts[n]);
    }
  }

  // --- rows and their parts

  /** A row of a day: the hash of its shard column, and the hash of all its columns. */
  datatype Row = Row(shard: nat, hash: bv64)

  function One(row: Row): Print { Print(1, row.hash as int % Modulus, row.hash) }

  function Whole(rows: seq<Row>): Print {
    if rows == [] then Nothing else Plus(Whole(rows[..|rows| - 1]), One(rows[|rows| - 1]))
  }

  lemma {:induction false} WholeConcat(a: seq<Row>, b: seq<Row>)
    ensures Whole(a + b) == Plus(Whole(a), Whole(b))
  {
    hide Plus, One;
    if b == [] {
      assert a + b == a;
      PlusLaws(Whole(a), Nothing, Nothing);
    } else {
      var k := |b| - 1;
      assert (a + b)[..|a + b| - 1] == a + b[..k] && (a + b)[|a + b| - 1] == b[k];
      WholeConcat(a, b[..k]);
      PlusLaws(Whole(a), Whole(b[..k]), One(b[k]));
    }
  }

  lemma WholeInsert(a: seq<Row>, x: Row, b: seq<Row>)
    ensures Whole(a + [x] + b) == Plus(Whole(a + b), One(x))
  {
    hide Plus, One;
    WholeConcat(a + [x], b);
    assert (a + [x])[..|a|] == a;
    WholeConcat(a, b);
    PlusSwap(Whole(a), One(x), Whole(b));
  }

  /** The fingerprint depends on the rows and how often each occurs, not on their order. */
  lemma {:induction false} WholeIgnoresOrder(a: seq<Row>, b: seq<Row>)
    requires multiset(a) == multiset(b)
    ensures Whole(a) == Whole(b)
    decreases |a|
  {
    hide Plus, One, Whole;
    if a == [] {
      assert |b| == |multiset(b)|;
    } else {
      var n := |a| - 1;
      assert a == a[..n] + [a[n]] + [] && a[..n] + [] == a[..n];
      assert a[n] in multiset(b);
      var i :| 0 <= i < |b| && b[i] == a[n];
      assert b == b[..i] + [b[i]] + b[i + 1..];
      SameRest(a[..n], b[..i], b[i + 1..], a[n]);
      WholeIgnoresOrder(a[..n], b[..i] + b[i + 1..]);
      WholeInsert(a[..n], a[n], []);
      WholeInsert(b[..i], a[n], b[i + 1..]);
    }
  }

  /** The rows `export_parts` writes to one of `n` parts. */
  function PartOf(rows: seq<Row>, n: nat, k: nat): seq<Row>
    requires n > 0
  {
    if rows == [] then [] else
    var last := rows[|rows| - 1];
    PartOf(rows[..|rows| - 1], n, k) + if last.shard % n == k then [last] else []
  }

  function PartPrints(rows: seq<Row>, n: nat): (prints: seq<Print>)
    ensures |prints| == n
  {
    seq(n, k requires 0 <= k < n => Whole(PartOf(rows, n, k)))
  }

  /** Splitting the rows by shard hash and combining the fingerprints of the parts is the fingerprint of the rows. */
  lemma {:induction false} PartsMakeWhole(rows: seq<Row>, n: nat)
    requires n > 0
    ensures Combined(PartPrints(rows, n)) == Whole(rows)
  {
    hide Plus, One, Combined;
    if rows == [] {
      assert PartPrints([], n) == seq(n, _ => Nothing);
      NothingCombined(n);
    } else {
      var m := |rows| - 1;
      PartsMakeWhole(rows[..m], n);
      var k := rows[m].shard % n;
      var fewer := PartPrints(rows[..m], n);
      PartGrows(rows, n);
      CombinedGrows(fewer, k, One(rows[m]));
    }
  }

  lemma PartGrows(rows: seq<Row>, n: nat)
    requires n > 0 && rows != []
    ensures var last := rows[|rows| - 1]; var fewer := PartPrints(rows[..|rows| - 1], n); var k := last.shard % n;
      PartPrints(rows, n) == fewer[k := Plus(fewer[k], One(last))]
  {
    hide Plus, One;
    var m := |rows| - 1;
    var last := rows[m];
    forall k | 0 <= k < n
      ensures Whole(PartOf(rows, n, k)) ==
        var part := Whole(PartOf(rows[..m], n, k)); if k == last.shard % n then Plus(part, One(last)) else part
    {
      var part := PartOf(rows[..m], n, k);
      assert (part + [last])[..|part|] == part && part + [] == part;
    }
  }

  lemma {:induction false} NothingCombined(n: nat)
    ensures Combined(seq(n, _ => Nothing)) == Nothing
  {
    hide Plus;
    if n > 0 {
      NothingCombined(n - 1);
      assert seq(n, _ => Nothing)[..n - 1] == seq(n - 1, _ => Nothing);
      PlusLaws(Nothing, Nothing, Nothing);
    }
  }

  lemma {:induction false} WholeCounts(rows: seq<Row>)
    ensures Whole(rows).rows == |rows|
  {
    if rows != [] { WholeCounts(rows[..|rows| - 1]); }
  }

  lemma NothingIsWhole()
    ensures Combined([]) == Whole([])
  {
  }

  /** The number of parts: rows divided by rows per part, rounded up. */
  function PartCount(rows: nat, perPart: nat): nat
    requires perPart > 0
  {
    CeilDiv(rows, perPart)
  }

  lemma NoPartsOnlyIfEmpty(rows: nat, perPart: nat)
    requires perPart > 0
    ensures PartCount(rows, perPart) == 0 <==> rows == 0
  {
    var q := PartCount(rows, perPart);
    assert rows + perPart - 1 == q * perPart + (rows + perPart - 1) % perPart;
  }

  /**
   * Files that hold the parts of some rows, each in whatever order, combine to
   * the fingerprint of the rows and count them; without files, if there are no rows.
   */
  lemma FilesMakeWhole(rows: seq<Row>, written: seq<seq<Row>>)
    requires written == [] ==> rows == []
    requires forall k :: 0 <= k < |written| ==> multiset(written[k]) == multiset(PartOf(rows, |written|, k))
    ensures var combined := Combined(seq(|written|, k requires 0 <= k < |written| => Whole(written[k])));
      combined == Whole(rows) && combined.rows == |rows|
  {
    hide Plus, One, Whole, Combined, PartOf;
    var n := |written|;
    WholeCounts(rows);
    var prints := seq(n, k requires 0 <= k < n => Whole(written[k]));
    if n > 0 {
      forall k | 0 <= k < n ensures prints[k] == PartPrints(rows, n)[k] {
        WholeIgnoresOrder(written[k], PartOf(rows, n, k));
      }
      assert prints == PartPrints(rows, n);
      PartsMakeWhole(rows, n);
    } else {
      NothingIsWhole();
    }
  }

  /**
   * A day that does not change between the fingerprint and the export always
   * passes the parity check, whatever the part size and whatever order each
   * part file is written in; an empty day does so with no parts at all. The
   * number of parts comes from the fingerprint, whose row count is the rows.
   */
  lemma StableDayHasParity(rows: seq<Row>, perPart: nat, written: seq<seq<Row>>)
    requires perPart > 0 && |written| == PartCount(Whole(rows).rows, perPart)
    requires forall k :: 0 <= k < |written| ==> multiset(written[k]) == multiset(PartOf(rows, |written|, k))
    ensures var combined := Combined(seq(|written|, k requires 0 <= k < |written| => Whole(written[k])));
      combined == Whole(rows) && combined.rows == |rows|
  {
    hide Plus, One, Whole, Combined, PartOf, PartCount;
    WholeCounts(rows);
    NoPartsOnlyIfEmpty(|rows|, perPart);
    FilesMakeWhole(rows, written);
  }
}
