/** The aggregate cell: one signed 64-bit number that holds a 16-bit count above a 48-bit
    sum and is only ever changed by adding an encoded price to it. */
module PackedCounter {
  import opened GoInts
  import opened Types

  datatype SumCount = SumCount(sum: uint64, count: uint16)

  /** One tag of this price. */
  function EncodeSumAndCount(price: uint32): uint64 { 0x1_0000_0000_0000 + price }

  function DecodeSumAndCount(v: uint64): SumCount { SumCount(v % 0x1_0000_0000_0000, v / 0x1_0000_0000_0000) }

  /** Both are the code's shifts and bitwise or. */
  lemma EncodeIsShiftAndOr(price: uint32)
    ensures EncodeSumAndCount(price) == Or(Shl64(1, 48), price)
  {
    PowersOfTwo();
    OrDisjoint(48, 1, price);
  }

  /** The two shifts of the decoder cut the number at bit 48. */
  lemma DecodeIsShifts(v: uint64)
    ensures DecodeSumAndCount(v) == SumCount(Shr64(Shl64(v, 16), 16), ToUint16(Shr64(v, 48)))
  {
    PowersOfTwo();
    var q, r := v / 0x1_0000_0000_0000, v % 0x1_0000_0000_0000;
    assert v * 0x1_0000 == q * 0x1_0000_0000_0000_0000 + r * 0x1_0000;
    CutMultiple(q, r * 0x1_0000);
  }

  /** The database's add operation: a missing bin counts as zero, and the sum wraps around
      in two's complement. */
  function AddOp(cell: Option<int64>, delta: int64): int64 {
    ToInt64((if cell.Some? then cell.value else 0) + delta)
  }

  /** The bin after the encoded prices have been added one by one. */
  function Cell(prices: seq<uint32>): Option<int64> {
    if prices == [] then None
    else Some(AddOp(Cell(prices[..|prices| - 1]), ToInt64(EncodeSumAndCount(prices[|prices| - 1]))))
  }

  lemma CellSnoc(prices: seq<uint32>, price: uint32)
    ensures Cell(prices + [price]) == Some(AddOp(Cell(prices), ToInt64(EncodeSumAndCount(price))))
  {
    assert (prices + [price])[..|prices|] == prices;
  }

  lemma AddToMissing(delta: int64)
    ensures AddOp(None, delta) == delta
  {
  }

  function SumPrices(prices: seq<uint32>): nat {
    if prices == [] then 0
    else SumPrices(prices[..|prices| - 1]) + prices[|prices| - 1]
  }

  lemma {:induction false} SumPricesBound(prices: seq<uint32>)
    ensures SumPrices(prices) <= |prices| * 0xFFFF_FFFF
  {
    if prices != [] {
      SumPricesBound(prices[..|prices| - 1]);
    }
  }

  /** The cell, read as an unsigned number, is the wrapped total of n encoded prices. */
  ghost predicate HoldsTotal(cell: int64, n: nat, sum: nat) {
    ToUint64(cell) == (n * 0x1_0000_0000_0000 + sum) % 0x1_0000_0000_0000_0000
  }

  /** Wrapping additions commute with reading the cell as an unsigned number. */
  lemma {:induction false} CellAsUnsigned(prices: seq<uint32>)
    requires prices != []
    ensures Cell(prices).Some? && HoldsTotal(Cell(prices).value, |prices|, SumPrices(prices))
  {
    var front, last := prices[..|prices| - 1], prices[|prices| - 1];
    if front != [] {
      CellAsUnsigned(front);
    }
    AddToBin(Cell(front), |front|, SumPrices(front), last);
  }

  lemma AddToBin(bin: Option<int64>, n: nat, sum: nat, price: uint32)
    requires if bin.Some? then HoldsTotal(bin.value, n, sum) else n == 0 && sum == 0
    ensures HoldsTotal(AddOp(bin, ToInt64(EncodeSumAndCount(price))), n + 1, sum + price)
  {
    AddToTotal(if bin.Some? then bin.value else 0, n, sum, price);
  }

  lemma AddToTotal(cell: int64, n: nat, sum: nat, price: uint32)
    requires HoldsTotal(cell, n, sum)
    ensures HoldsTotal(AddOp(Some(cell), ToInt64(EncodeSumAndCount(price))), n + 1, sum + price)
  {
    WrapThenAdd(cell, n * 0x1_0000_0000_0000 + sum, 0x1_0000_0000_0000 + price);
    assert n * 0x1_0000_0000_0000 + sum + (0x1_0000_0000_0000 + price)
        == (n + 1) * 0x1_0000_0000_0000 + (sum + price);
  }

  lemma WrapThenAdd(cell: int64, total: nat, delta: nat)
    requires ToUint64(cell) == total % 0x1_0000_0000_0000_0000
    requires delta < 0x8000_0000_0000_0000
    ensures ToUint64(AddOp(Some(cell), ToInt64(delta))) == (total + delta) % 0x1_0000_0000_0000_0000
  {
    assert ToInt64(delta) == delta;
    SignIsLost(cell + delta);
    var a, b, r := cell / 0x1_0000_0000_0000_0000, total / 0x1_0000_0000_0000_0000, total % 0x1_0000_0000_0000_0000;
    assert cell + delta == a * 0x1_0000_0000_0000_0000 + (r + delta);
    assert total + delta == b * 0x1_0000_0000_0000_0000 + (r + delta);
    CutAnyMultiple(a, r + delta);
    CutAnyMultiple(b, r + delta);
  }

  lemma SignIsLost(x: int)
    ensures ToUint64(ToInt64(x)) == ToUint64(x)
  {
    var q := (x + 0x8000_0000_0000_0000) / 0x1_0000_0000_0000_0000;
    assert ToInt64(x) == -q * 0x1_0000_0000_0000_0000 + x;
    CutAnyMultiple(-q, x);
  }

  /** Cutting a wrapped total of n encoded prices at bit 48. */
  lemma CutWrapped(n: nat, sum: nat)
    ensures var v := (n * 0x1_0000_0000_0000 + sum) % 0x1_0000_0000_0000_0000;
            v % 0x1_0000_0000_0000 == sum % 0x1_0000_0000_0000
            && v / 0x1_0000_0000_0000 == (n + sum / 0x1_0000_0000_0000) % 0x1_0000
  {
    var q, r := n + sum / 0x1_0000_0000_0000, sum % 0x1_0000_0000_0000;
    assert n * 0x1_0000_0000_0000 + sum == q * 0x1_0000_0000_0000 + r;
    WrapThenCut(q, r);
  }

  lemma WrapThenCut(q: nat, r: nat)
    requires r < 0x1_0000_0000_0000
    ensures (q * 0x1_0000_0000_0000 + r) % 0x1_0000_0000_0000_0000 == q % 0x1_0000 * 0x1_0000_0000_0000 + r
  {
    var a, b := q / 0x1_0000, q % 0x1_0000;
    assert q == a * 0x1_0000 + b;
    assert q * 0x1_0000_0000_0000 + r == a * 0x1_0000_0000_0000_0000 + (b * 0x1_0000_0000_0000 + r);
    CutMultiple(a, b * 0x1_0000_0000_0000 + r);
  }

  /** What the decoder reads after any number of additions: overflow of the sum carries into
      the count, overflow of the count is lost. */
  lemma CellDecodes(prices: seq<uint32>)
    requires prices != []
    ensures Cell(prices).Some?
    ensures DecodeSumAndCount(ToUint64(Cell(prices).value)).sum == SumPrices(prices) % 0x1_0000_0000_0000
    ensures DecodeSumAndCount(ToUint64(Cell(prices).value)).count
            == (|prices| + SumPrices(prices) / 0x1_0000_0000_0000) % 0x1_0000
  {
    CellAsUnsigned(prices);
    CutWrapped(|prices|, SumPrices(prices));
  }

  /** The packed cell is exact for every list of prices up to 65,535 of them, and for no
      longer list. */
  lemma CellExactIff(prices: seq<uint32>)
    requires prices != []
    ensures Cell(prices).Some?
    ensures var read := DecodeSumAndCount(ToUint64(Cell(prices).value));
            (read.sum == SumPrices(prices) && read.count == |prices|) <==> |prices| <= 65535
    ensures var read := DecodeSumAndCount(ToUint64(Cell(prices).value));
            read.sum <= SumPrices(prices) && (read.count == |prices| <==> |prices| <= 65535)
            && (|prices| > 65535 ==> read.count < |prices|)
  {
    CellDecodes(prices);
    SumPricesBound(prices);
    CutExactIff(|prices|, SumPrices(prices));
  }

  lemma CutExactIff(n: nat, sum: nat)
    requires sum <= n * 0xFFFF_FFFF
    ensures n <= 65535 ==> sum < 0x1_0000_0000_0000
    ensures sum % 0x1_0000_0000_0000 <= sum
    ensures n <= 65535 ==> (n + sum / 0x1_0000_0000_0000) % 0x1_0000 == n && sum % 0x1_0000_0000_0000 == sum
    ensures 0 <= (n + sum / 0x1_0000_0000_0000) % 0x1_0000 <= 65535
  {
  }

  lemma SignOfSmallTotal(cell: int64, n: nat, sum: nat)
    requires n <= 65535 && sum < 0x1_0000_0000_0000
    requires HoldsTotal(cell, n, sum)
    ensures cell < 0 <==> n >= 32768
  {
    assert ToUint64(cell) == n * 0x1_0000_0000_0000 + sum;
    assert ToUint64(cell) == if cell < 0 then cell + 0x1_0000_0000_0000_0000 else cell;
  }

  /** Within the exact range the stored number is negative from 32,768 tags on, and reading
      it back is exact all the same. */
  lemma NegativeCellIff(prices: seq<uint32>)
    requires 0 < |prices| <= 65535
    ensures Cell(prices).Some?
    ensures Cell(prices).value < 0 <==> |prices| >= 32768
  {
    CellAsUnsigned(prices);
    SumPricesBound(prices);
    SignOfSmallTotal(Cell(prices).value, |prices|, SumPrices(prices));
  }
}
