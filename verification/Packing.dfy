/** How compaction charges each input row a share of its segment's bytes and packs the merged rows
    greedily into outputs. */
module Packing {
  import opened Basics
  import opened StableOrder
  import opened Segments

  /** A row together with the uncompressed bytes charged for it. */
  datatype Item = Item(row: Row, bytes: nat)

  function ItemKey(item: Item): RowKey {
    Key(item.row)
  }

  function Rows(items: seq<Item>): seq<Row> {
    seq(|items|, i requires 0 <= i < |items| => items[i].row)
  }

  function Bytes(items: seq<Item>): nat {
    if items == [] then 0 else Bytes(items[..|items| - 1]) + items[|items| - 1].bytes
  }

  /** The bytes an input charges in all: at least one byte for every row. */
  function ChargedBytes(d: SegmentDescriptor): nat {
    if d.uncompressedBytes < d.rowCount then d.rowCount else d.uncompressedBytes
  }

  /** The share of the row at `position`: the quotient, and one more for the first rows until the
      remainder is used up. */
  function EstimatedRowBytes(d: SegmentDescriptor, position: nat): nat
    requires d.rowCount > 0
  {
    ChargedBytes(d) / d.rowCount + if position < ChargedBytes(d) % d.rowCount then 1 else 0
  }

  function Items(d: SegmentDescriptor, rows: seq<Row>): seq<Item>
    requires d.rowCount > 0
  {
    seq(|rows|, i requires 0 <= i < |rows| => Item(rows[i], EstimatedRowBytes(d, i)))
  }

  lemma {:induction false} BytesAppend(a: seq<Item>, b: seq<Item>)
    ensures Bytes(a + b) == Bytes(a) + Bytes(b)
  {
    if b == [] {
      assert a + b == a;
    } else {
      var init, last := b[..|b| - 1], b[|b| - 1];
      BytesAppend(a, init);
      assert (a + b)[..|a + b| - 1] == a + init;
      assert (a + b)[|a + b| - 1] == last;
    }
  }

  lemma {:induction false} PrefixShares(d: SegmentDescriptor, rows: seq<Row>, n: nat)
    requires d.rowCount > 0 && n <= |rows|
    ensures Bytes(Items(d, rows)[..n]) ==
            n * (ChargedBytes(d) / d.rowCount) + Min(n, ChargedBytes(d) % d.rowCount)
  {
    if n > 0 {
      PrefixShares(d, rows, n - 1);
      var items := Items(d, rows);
      assert items[n - 1].bytes == EstimatedRowBytes(d, n - 1) && |items| == |rows|;
      hide Items, ChargedBytes;
      TakeSnoc(items, n);
      MultipleStep(n, ChargedBytes(d) / d.rowCount);
    }
  }

  lemma MultipleStep(n: nat, base: nat)
    requires n > 0
    ensures n * base == (n - 1) * base + base
  {
  }

  /** Apportioning is exact: the shares of a segment's rows add up to all of its charged bytes. */
  lemma SharesAreExact(d: SegmentDescriptor, rows: seq<Row>)
    requires d.rowCount > 0 && |rows| == d.rowCount
    ensures Bytes(Items(d, rows)) == Max(d.uncompressedBytes, d.rowCount)
  {
    PrefixShares(d, rows, |rows|);
    assert Items(d, rows)[..|rows|] == Items(d, rows);
    QuotientAndRemainder(ChargedBytes(d), d.rowCount);
  }

  lemma QuotientAndRemainder(total: nat, count: nat)
    requires count > 0
    ensures total == count * (total / count) + total % count
  {
  }

  /** A row is charged something, and never more than the whole of its segment. */
  lemma ShareRange(d: SegmentDescriptor, position: nat)
    requires position < d.rowCount
    ensures 1 <= EstimatedRowBytes(d, position) <= ChargedBytes(d)
  {
    QuotientRange(ChargedBytes(d), d.rowCount);
  }

  lemma QuotientRange(total: nat, count: nat)
    requires 1 <= count <= total
    ensures 1 <= total / count
    ensures total / count + (if total % count > 0 then 1 else 0) <= total
  {
    QuotientAtLeast(1, count, total);
    var q, r := total / count, total % count;
    assert total == count * q + r;
    MultipleAtLeast(count, q);
  }

  lemma MultipleAtLeast(count: nat, q: nat)
    requires 1 <= count
    ensures q <= count * q
  {
  }

  /** Lengthens an output that holds the first `n` items while the next one still fits. */
  function Grow(items: seq<Item>, n: nat, targetRows: nat, targetBytes: nat): (length: nat)
    requires n <= |items|
    ensures n <= length <= |items|
    ensures length < |items| ==> length >= targetRows || Bytes(items[..length]) + items[length].bytes > targetBytes
    decreases |items| - n
  {
    if n < |items| && n < targetRows && Bytes(items[..n]) + items[n].bytes <= targetBytes
    then Grow(items, n + 1, targetRows, targetBytes)
    else n
  }

  /** The greedy packing: each output takes its first item unconditionally and then grows. */
  function Pack(items: seq<Item>, targetRows: nat, targetBytes: nat): seq<seq<Item>>
    decreases |items|
  {
    if items == [] then []
    else
      var n := Grow(items, 1, targetRows, targetBytes);
      [items[..n]] + Pack(items[n..], targetRows, targetBytes)
  }

  /** The byte sums that are looked at between an output and the first item after it stay in 64 bits. */
  predicate SumsFit(packed: seq<seq<Item>>) {
    forall k :: 0 <= k < |packed| ==> SumFits(packed, k)
  }

  predicate SumFits(packed: seq<seq<Item>>, k: nat)
    requires k < |packed|
  {
    k + 1 < |packed| && packed[k + 1] != [] ==> Bytes(packed[k]) + packed[k + 1][0].bytes <= U64_MAX
  }

  /** A packing begins with the first item. */
  lemma PackBegins(items: seq<Item>, targetRows: nat, targetBytes: nat)
    requires items != []
    ensures var packed := Pack(items, targetRows, targetBytes);
            packed != [] && packed[0] != [] && packed[0][0] == items[0]
  {
  }

  /** No item is lost, doubled or moved by packing. */
  lemma {:induction false} PackKeepsItems(items: seq<Item>, targetRows: nat, targetBytes: nat)
    ensures Flatten(Pack(items, targetRows, targetBytes)) == items
    ensures items != [] ==> Pack(items, targetRows, targetBytes) != []
    decreases |items|
  {
    hide Grow, Bytes;
    if items != [] {
      var n := Grow(items, 1, targetRows, targetBytes);
      PackKeepsItems(items[n..], targetRows, targetBytes);
      assert Pack(items, targetRows, targetBytes)[1..] == Pack(items[n..], targetRows, targetBytes);
      assert items[..n] + items[n..] == items;
    }
  }

  predicate WithinTargets(output: seq<Item>, targetRows: nat, targetBytes: nat) {
    output != [] && |output| <= targetRows && Bytes(output) <= targetBytes
  }

  lemma {:induction false} GrowWithinTargets(items: seq<Item>, n: nat, targetRows: nat, targetBytes: nat)
    requires 1 <= n <= |items| && WithinTargets(items[..n], targetRows, targetBytes)
    ensures WithinTargets(items[..Grow(items, n, targetRows, targetBytes)], targetRows, targetBytes)
    decreases |items| - n
  {
    if n < |items| && n < targetRows && Bytes(items[..n]) + items[n].bytes <= targetBytes {
      assert items[..n + 1][..n] == items[..n];
      GrowWithinTargets(items, n + 1, targetRows, targetBytes);
    }
  }

  /** When every single row fits the byte target, every output fits both targets. */
  lemma {:induction false} PackWithinTargets(items: seq<Item>, targetRows: nat, targetBytes: nat)
    requires targetRows > 0
    requires forall i :: 0 <= i < |items| ==> items[i].bytes <= targetBytes
    ensures forall k :: 0 <= k < |Pack(items, targetRows, targetBytes)| ==>
              WithinTargets(Pack(items, targetRows, targetBytes)[k], targetRows, targetBytes)
    decreases |items|
  {
    if items != [] {
      var n := Grow(items, 1, targetRows, targetBytes);
      assert items[..1][..0] == [];
      GrowWithinTargets(items, 1, targetRows, targetBytes);
      PackWithinTargets(items[n..], targetRows, targetBytes);
    }
  }

  /** The counting argument behind the output bound: of the outputs before the last, `byRows` closed
      at the row target and `byBytes` because the next row would have passed the byte target. */
  lemma {:induction false} ClosedOutputs(items: seq<Item>, targetRows: nat, targetBytes: nat)
    returns (byRows: nat, byBytes: nat)
    requires items != []
    ensures |Pack(items, targetRows, targetBytes)| == 1 + byRows + byBytes
    ensures byRows * targetRows <= |items|
    ensures byBytes * targetBytes <= 2 * Bytes(items) - Bytes(Pack(items, targetRows, targetBytes)[0])
    decreases |items|
  {
    var n := Grow(items, 1, targetRows, targetBytes);
    var first, rest := items[..n], items[n..];
    assert items == first + rest;
    BytesAppend(first, rest);
    if rest == [] {
      byRows, byBytes := 0, 0;
    } else {
      byRows, byBytes := ClosedOutputs(rest, targetRows, targetBytes);
      var second := Pack(rest, targetRows, targetBytes)[0];
      assert second[0] == items[n];
      assert |Pack(items, targetRows, targetBytes)| == 1 + |Pack(rest, targetRows, targetBytes)|;
      assert n >= targetRows || Bytes(first) + items[n].bytes > targetBytes;
      FirstItemBytes(second);
      hide Pack, Grow, Bytes;
      if n >= targetRows {
        MultipleStep(byRows + 1, targetRows);
        byRows := byRows + 1;
      } else {
        MultipleStep(byBytes + 1, targetBytes);
        byBytes := byBytes + 1;
      }
    }
  }

  lemma FirstItemBytes(items: seq<Item>)
    requires items != []
    ensures items[0].bytes <= Bytes(items)
  {
    assert items == items[..1] + items[1..];
    BytesAppend(items[..1], items[1..]);
    assert items[..1][..0] == [];
  }

  /** Greedy packing is never far from the ideal number of outputs. */
  lemma OutputCountBound(items: seq<Item>, targetRows: nat, targetBytes: nat)
    requires targetRows > 0 && targetBytes > 0
    ensures |Pack(items, targetRows, targetBytes)|
            <= 1 + |items| / targetRows + (2 * Bytes(items)) / targetBytes
  {
    if items != [] {
      var byRows, byBytes := ClosedOutputs(items, targetRows, targetBytes);
      QuotientAtLeast(byRows, targetRows, |items|);
      QuotientAtLeast(byBytes, targetBytes, 2 * Bytes(items));
    }
  }

  lemma QuotientAtLeast(q: nat, d: nat, n: nat)
    requires d > 0 && q * d <= n
    ensures q <= n / d
  {
    var k := n / d;
    MultiplesOrdered(k + 1, q, d);
    assert (k + 1) * d == k * d + d;
    assert n == d * k + n % d;
  }

  lemma MultiplesOrdered(a: nat, b: nat, d: nat)
    ensures a <= b ==> a * d <= b * d
  {
  }
}
