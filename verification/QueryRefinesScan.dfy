/** A query over the packed cells and a naive scan of the log of applied tags give the same
    totals, exactly as long as no cell has overflowed. */
module QueryRefinesScan {
  import opened GoInts
  import opened Types
  import opened PackedCounter
  import opened KeyCodec
  import opened AggregatesDb
  import opened AggregatesQuery

  // ---------- the query over the stored cells and the scan of the log ----------

  predicate Asked(wanted: Option<string>, s: string) {
    wanted.Some? ==> wanted.value == s
  }

  predicate Fits(q: Params, tag: UserTag) {
    && Asked(q.origin, tag.origin)
    && Asked(q.brandId, tag.productInfo.brandId)
    && Asked(q.categoryId, tag.productInfo.categoryId)
  }

  /** The simple thing a row must agree with: go through the applied tags, and add up those
      of the minute, the action and the strings. */
  function Scan(log: seq<Entry>, minute: int, action: Action, q: Params): Totals {
    if log == [] then Totals(0, 0)
    else
      var before, tag := Scan(log[..|log| - 1], minute, action, q), log[|log| - 1].tag;
      if ToTs(tag.time) == minute && tag.action == action && Fits(q, tag)
      then Totals(before.sum + tag.productInfo.price, before.count + 1)
      else before
  }

  /** The same scan with ids in the place of strings. */
  function ScanIds(log: seq<Entry>, minute: int, action: Action, f: Filters): Totals {
    if log == [] then Totals(0, 0)
    else
      var before, e := ScanIds(log[..|log| - 1], minute, action, f), log[|log| - 1];
      if ToTs(e.tag.time) == minute && e.tag.action == action && Match(f, e.key)
      then Totals(before.sum + e.tag.productInfo.price, before.count + 1)
      else before
  }

  lemma {:induction false} ScanBound(log: seq<Entry>, minute: int, action: Action, f: Filters)
    ensures ScanIds(log, minute, action, f).count <= |log|
    ensures ScanIds(log, minute, action, f).sum <= |log| * 0xFFFF_FFFF
  {
    if log != [] {
      ScanBound(log[..|log| - 1], minute, action, f);
    }
  }

  function KeyOf(name: string): AggregateKey {
    var decoded := DecodeKey(name);
    if decoded.Ok? then Unpack(decoded.value.1) else AggregateKey(0, 0, 0)
  }

  /** What the cells of the named records should count. */
  function Counted(log: seq<Entry>, names: seq<string>, action: Action, f: Filters): Totals {
    if names == [] then Totals(0, 0)
    else
      var before, n := Counted(log, names[..|names| - 1], action, f), names[|names| - 1];
      var prices := PricesOf(log, n, action);
      if Match(f, KeyOf(n)) then Totals(before.sum + SumPrices(prices), before.count + |prices|) else before
  }

  lemma {:induction false} CountedNothing(names: seq<string>, action: Action, f: Filters)
    ensures Counted([], names, action, f) == Totals(0, 0)
  {
    if names != [] {
      CountedNothing(names[..|names| - 1], action, f);
    }
  }

  ghost predicate Distinct(names: seq<string>) {
    forall i, j :: 0 <= i < j < |names| ==> names[i] != names[j]
  }

  /** One more tag is counted once, under its own name, if that is among the names. */
  lemma {:induction false} CountedSnoc(log: seq<Entry>, e: Entry, names: seq<string>, action: Action, f: Filters)
    requires Distinct(names)
    ensures var counts := Name(e) in names && e.tag.action == action && Match(f, e.key);
            && Counted(log + [e], names, action, f).sum
               == Counted(log, names, action, f).sum + (if counts then e.tag.productInfo.price else 0)
            && Counted(log + [e], names, action, f).count
               == Counted(log, names, action, f).count + (if counts then 1 else 0)
  {
    if names != [] {
      var front, n := names[..|names| - 1], names[|names| - 1];
      CountedSnoc(log, e, front, action, f);
      assert names == front + [n];
      assert n !in front;
      assert (log + [e])[..|log|] == log;
      KeyRoundTrip(ToTs(e.tag.time), e.key);
      PricesSnoc(log, e, n, action);
    }
  }

  lemma PricesSnoc(log: seq<Entry>, e: Entry, name: string, action: Action)
    ensures var counts := Name(e) == name && e.tag.action == action;
            && |PricesOf(log + [e], name, action)| == |PricesOf(log, name, action)| + (if counts then 1 else 0)
            && SumPrices(PricesOf(log + [e], name, action))
               == SumPrices(PricesOf(log, name, action)) + (if counts then e.tag.productInfo.price else 0)
  {
    assert (log + [e])[..|log|] == log;
    var before := PricesOf(log, name, action);
    assert (before + [e.tag.productInfo.price])[..|before|] == before;
  }

  /** Cell by cell or tag by tag: the records of a minute count what a scan of the log by
      ids finds in that minute, whatever order they come in. */
  lemma {:induction false} CountedIsScan(log: seq<Entry>, names: seq<string>, minute: int64, action: Action, f: Filters)
    requires Distinct(names)
    requires forall n :: n in names ==> WellNamed(n, minute)
    requires forall e :: e in log && ToTs(e.tag.time) == minute ==> Name(e) in names
    ensures Counted(log, names, action, f) == ScanIds(log, minute, action, f)
  {
    if log == [] {
      CountedNothing(names, action, f);
    } else {
      var front, e := log[..|log| - 1], log[|log| - 1];
      assert log == front + [e];
      CountedIsScan(front, names, minute, action, f);
      CountedSnoc(front, e, names, action, f);
      KeyRoundTrip(ToTs(e.tag.time), e.key);
      assert Name(e) in names ==> WellNamed(Name(e), minute);
      assert e in log;
    }
  }

  lemma LoggedIsStored(log: seq<Entry>, e: Entry)
    requires e in log
    ensures Name(e) in StoreOf(log) && StoreOf(log)[Name(e)].ts == ToTs(e.tag.time)
  {
    LoggedIsPriced(log, e);
    StoreHoldsNames(log, Name(e));
    StoredMinute(log, Name(e), ToTs(e.tag.time), e.key);
  }

  lemma StoredMinute(log: seq<Entry>, name: string, minute: int64, key: AggregateKey)
    requires name in StoreOf(log) && name == ToKey(minute, key)
    ensures StoreOf(log)[name].ts == minute
  {
    StoreIsWellKeyed(log);
    NameTellsMinute(StoreOf(log), name, minute, key);
  }

  lemma NameTellsMinute(records: Records, name: string, minute: int64, key: AggregateKey)
    requires WellKeyed(records) && name in records && name == ToKey(minute, key)
    ensures records[name].ts == minute
  {
    assert WellNamed(name, records[name].ts);
    KeyRoundTrip(minute, key);
  }

  lemma {:induction false} LoggedIsPriced(log: seq<Entry>, e: Entry)
    requires e in log
    ensures PricesOf(log, Name(e), e.tag.action) != []
  {
    var front, last := log[..|log| - 1], log[|log| - 1];
    if e != last {
      assert log == front + [last];
      LoggedIsPriced(front, e);
    }
  }

  // ---------- reading packed cells ----------

  /** What the decoder makes of a cell. */
  function CellReads(prices: seq<uint32>): Totals {
    if Cell(prices).None? then Totals(0, 0)
    else
      var read := DecodeSumAndCount(ToUint64(Cell(prices).value));
      Totals(read.sum, read.count)
  }

  lemma CellReadsExactIff(prices: seq<uint32>)
    ensures CellReads(prices) == Totals(SumPrices(prices), |prices|) <==> |prices| <= 65535
    ensures CellReads(prices).sum <= SumPrices(prices) && CellReads(prices).count <= |prices|
    ensures |prices| > 65535 ==> CellReads(prices).count < |prices|
  {
    if prices != [] {
      CellExactIff(prices);
    }
  }

  /** What is read from the cells of the named records. */
  function ReadCells(log: seq<Entry>, names: seq<string>, action: Action, f: Filters): Totals {
    if names == [] then Totals(0, 0)
    else
      var before, n := ReadCells(log, names[..|names| - 1], action, f), names[|names| - 1];
      var read := CellReads(PricesOf(log, n, action));
      if Match(f, KeyOf(n)) then Totals(before.sum + read.sum, before.count + read.count) else before
  }

  lemma {:induction false} CollectReadsCells(records: Records, log: seq<Entry>, names: seq<string>,
                                             minute: int64, action: Action, f: Filters)
    requires forall n :: n in names ==> n in records
    requires forall n :: n in names ==> RecordFits(records, log, n, minute, action)
    ensures var aggs := Collect(records, names, action, minute);
            aggs.Ok? && FilterTotals(aggs.value, f) == ReadCells(log, names, action, f)
  {
    if names != [] {
      CollectReadsCells(records, log, names[..|names| - 1], minute, action, f);
      CollectOneMore(records, log, names, names[|names| - 1], minute, action, f);
    }
  }

  lemma CollectOneMore(records: Records, log: seq<Entry>, names: seq<string>, n: string,
                       minute: int64, action: Action, f: Filters)
    requires names != [] && n == names[|names| - 1]
    requires forall m :: m in names ==> m in records
    requires Collect(records, names[..|names| - 1], action, minute).Ok?
    requires RecordFits(records, log, n, minute, action)
    ensures Collect(records, names, action, minute).Ok?
    ensures var before := FilterTotals(Collect(records, names[..|names| - 1], action, minute).value, f);
            var read := CellReads(PricesOf(log, n, action));
            FilterTotals(Collect(records, names, action, minute).value, f)
            == if Match(f, KeyOf(n)) then Totals(before.sum + read.sum, before.count + read.count) else before
  {
    OneRecordReads(records, n, minute, action, PricesOf(log, n, action));
    CollectStep(records, names, action, minute, f);
  }

  ghost predicate RecordFits(records: Records, log: seq<Entry>, n: string, minute: int64, action: Action) {
    n in records && WellNamed(n, minute) && BinOrNone(records, n, action) == Cell(PricesOf(log, n, action))
  }

  lemma CollectStep(records: Records, names: seq<string>, action: Action, ts: int64, f: Filters)
    requires names != [] && forall n :: n in names ==> n in records
    requires Collect(records, names[..|names| - 1], action, ts).Ok?
    requires ReadRecord(names[|names| - 1], records[names[|names| - 1]], action, ts).Ok?
    ensures Collect(records, names, action, ts).Ok?
    ensures var before := FilterTotals(Collect(records, names[..|names| - 1], action, ts).value, f);
            var r := ReadRecord(names[|names| - 1], records[names[|names| - 1]], action, ts).value;
            FilterTotals(Collect(records, names, action, ts).value, f)
            == if r.Some? && Match(f, r.value.key)
               then Totals(before.sum + r.value.sum, before.count + r.value.count)
               else before
  {
    var aggs := Collect(records, names[..|names| - 1], action, ts).value;
    var r := ReadRecord(names[|names| - 1], records[names[|names| - 1]], action, ts).value;
    if r.Some? {
      TotalsSnoc(aggs, r.value, f);
    }
  }

  lemma OneRecordReads(records: Records, n: string, minute: int64, action: Action, prices: seq<uint32>)
    requires n in records && WellNamed(n, minute)
    requires BinOrNone(records, n, action) == Cell(prices)
    ensures var r := ReadRecord(n, records[n], action, minute);
            && r.Ok?
            && (r.value.None? ==> CellReads(prices) == Totals(0, 0))
            && (r.value.Some? ==> r.value.value.key == KeyOf(n)
                                  && CellReads(prices) == Totals(r.value.value.sum, r.value.value.count))
  {
  }

  ghost predicate SmallCell(log: seq<Entry>, name: string, action: Action) {
    |PricesOf(log, name, action)| <= 65535
  }

  /** Reading loses exactly when some matching cell holds more than 65,535 tags, and then it
      loses for good: no other cell can make up for it. */
  lemma {:induction false} ReadCellsExactIff(log: seq<Entry>, names: seq<string>, action: Action, f: Filters)
    ensures ReadCells(log, names, action, f).sum <= Counted(log, names, action, f).sum
    ensures ReadCells(log, names, action, f).count <= Counted(log, names, action, f).count
    ensures ReadCells(log, names, action, f) == Counted(log, names, action, f)
            <==> forall n :: n in names && Match(f, KeyOf(n)) ==> SmallCell(log, n, action)
  {
    if names != [] {
      var front, n := names[..|names| - 1], names[|names| - 1];
      ReadCellsExactIff(log, front, action, f);
      CellReadsExactIff(PricesOf(log, n, action));
      assert forall m :: m in names <==> m in front || m == n;
      assert SmallCell(log, n, action) <==> |PricesOf(log, n, action)| <= 65535;
      if Match(f, KeyOf(n)) && !SmallCell(log, n, action) {
        assert ReadCells(log, names, action, f).count < Counted(log, names, action, f).count;
      }
    }
  }

  /** Every id triple the filters let through has at most 65,535 tags of the action in the
      minute. */
  ghost predicate SmallCells(log: seq<Entry>, minute: int64, action: Action, f: Filters) {
    forall key :: Match(f, key) ==> SmallCell(log, ToKey(minute, key), action)
  }

  /** Over the records that a log has made, in whatever order they are scanned: the total
      read is the scan of the log just when no matching cell has overflowed. */
  lemma ReadIsScanIff(log: seq<Entry>, names: seq<string>, minute: int64, action: Action, f: Filters)
    requires Enumerates(StoreOf(log), minute, names)
    ensures var aggs := Collect(StoreOf(log), names, action, minute);
            && aggs.Ok?
            && FilterTotals(aggs.value, f).sum <= ScanIds(log, minute, action, f).sum
            && FilterTotals(aggs.value, f).count <= ScanIds(log, minute, action, f).count
            && (FilterTotals(aggs.value, f) == ScanIds(log, minute, action, f) <==> SmallCells(log, minute, action, f))
  {
    StoreIsWellKeyed(log);
    forall n | n in names ensures RecordFits(StoreOf(log), log, n, minute, action) {
      assert WellNamed(n, StoreOf(log)[n].ts);
      StoreHoldsCells(log, n, action);
    }
    forall e | e in log && ToTs(e.tag.time) == minute ensures Name(e) in names {
      LoggedIsStored(log, e);
    }
    CollectReadsCells(StoreOf(log), log, names, minute, action, f);
    CountedIsScan(log, names, minute, action, f);
    ReadCellsExactIff(log, names, action, f);
    SmallCellsAmongNames(log, names, minute, action, f);
  }

  lemma SmallCellsAmongNames(log: seq<Entry>, names: seq<string>, minute: int64, action: Action, f: Filters)
    requires Enumerates(StoreOf(log), minute, names)
    requires forall n :: n in names ==> WellNamed(n, minute)
    ensures (forall n :: n in names && Match(f, KeyOf(n)) ==> SmallCell(log, n, action))
            <==> SmallCells(log, minute, action, f)
  {
    if forall n :: n in names && Match(f, KeyOf(n)) ==> SmallCell(log, n, action) {
      forall key | Match(f, key) ensures SmallCell(log, ToKey(minute, key), action) {
        var n := ToKey(minute, key);
        KeyRoundTrip(minute, key);
        StoreHoldsNames(log, n);
        StoreIsWellKeyed(log);
        if n in StoreOf(log) {
          assert WellNamed(n, StoreOf(log)[n].ts);
          assert n in names;
        }
      }
    }
    if SmallCells(log, minute, action, f) {
      forall n | n in names && Match(f, KeyOf(n)) ensures SmallCell(log, n, action) {
        assert WellNamed(n, minute);
        assert SmallCell(log, ToKey(minute, KeyOf(n)), action);
      }
    }
  }

  /** The two numbers of a row are these totals, modulo 2^64. */
  ghost predicate Shows(row: Row, totals: Totals) {
    row.sum == ToUint64(totals.sum) && row.count == ToUint64(totals.count)
  }

  /** A row over the records of a log, for any scan order, is the scan of the log by ids. */
  lemma RowIsScan(log: seq<Entry>, action: Action, f: Filters, row: Row)
    requires AnswersRow(StoreOf(log), action, f, row)
    requires SmallCells(log, ToTs(row.t), action, f)
    ensures Shows(row, ScanIds(log, ToTs(row.t), action, f))
  {
    var names :| Enumerates(StoreOf(log), ToTs(row.t), names) && AnswersRowBy(StoreOf(log), action, f, row, names);
    ReadIsScanIff(log, names, ToTs(row.t), action, f);
  }

  /** And the other way round: a row that shows the scan is one the endpoint may give. */
  lemma ScanIsARow(log: seq<Entry>, names: seq<string>, action: Action, f: Filters, row: Row)
    requires Enumerates(StoreOf(log), ToTs(row.t), names)
    requires SmallCells(log, ToTs(row.t), action, f)
    requires Shows(row, ScanIds(log, ToTs(row.t), action, f))
    ensures AnswersRow(StoreOf(log), action, f, row)
  {
    ReadIsScanIff(log, names, ToTs(row.t), action, f);
    assert AnswersRowBy(StoreOf(log), action, f, row, names);
  }

  /** There is such an order of the scan, and so a row. */
  lemma ScanHasARow(log: seq<Entry>, f: Filters, t: Time, action: Action) returns (row: Row)
    requires SmallCells(log, ToTs(t), action, f)
    ensures row.t == t && AnswersRow(StoreOf(log), action, f, row)
    ensures Shows(row, ScanIds(log, ToTs(t), action, f))
  {
    var records, totals := StoreOf(log), ScanIds(log, ToTs(t), action, f);
    var names := SomeOrder(set n | n in records && records[n].ts == ToTs(t));
    row := Row(t, ToUint64(totals.sum), ToUint64(totals.count));
    ScanIsARow(log, names, action, f, row);
  }

  lemma {:induction false} SomeOrder(left: set<string>) returns (names: seq<string>)
    ensures Distinct(names) && forall n :: n in names <==> n in left
    decreases |left|
  {
    names := [];
    if left != {} {
      var n :| n in left;
      names := SomeOrder(left - {n});
      names := names + [n];
    }
  }

  /** Without wrap-around, just when no cell has overflowed. */
  lemma RowIsScanIff(log: seq<Entry>, action: Action, f: Filters, row: Row)
    requires AnswersRow(StoreOf(log), action, f, row)
    requires |log| < 0x1_0000_0000
    ensures Totals(row.sum, row.count) == ScanIds(log, ToTs(row.t), action, f)
            <==> SmallCells(log, ToTs(row.t), action, f)
  {
    var names :| Enumerates(StoreOf(log), ToTs(row.t), names) && AnswersRowBy(StoreOf(log), action, f, row, names);
    ReadIsScanIff(log, names, ToTs(row.t), action, f);
    ScanBound(log, ToTs(row.t), action, f);
    var read := FilterTotals(Collect(StoreOf(log), names, action, ToTs(row.t)).value, f);
    NoWrapBelow(|log|, read.sum);
    NoWrapBelow(|log|, read.count);
  }

  lemma NoWrapBelow(n: nat, x: nat)
    requires n < 0x1_0000_0000 && x <= n * 0xFFFF_FFFF
    ensures ToUint64(x) == x
  {
    assert n * 0xFFFF_FFFF <= 0xFFFF_FFFF * 0xFFFF_FFFF;
  }

  /** The scan by clock: the applied tags of the seconds from `lo` up to but not including `hi`. */
  function ScanSeconds(log: seq<Entry>, lo: int, hi: int, action: Action, q: Params): Totals {
    if log == [] then Totals(0, 0)
    else
      var before, tag := ScanSeconds(log[..|log| - 1], lo, hi, action, q), log[|log| - 1].tag;
      if lo <= Unix(tag.time) < hi && tag.action == action && Fits(q, tag)
      then Totals(before.sum + tag.productInfo.price, before.count + 1)
      else before
  }

  ghost predicate NoneJustBeforeEpoch(log: seq<Entry>, action: Action, q: Params) {
    forall e :: e in log && e.tag.action == action && Fits(q, e.tag) ==> !(-60 < Unix(e.tag.time) < 0)
  }

  /** Bucket and clock agree for every minute from the epoch on, except that minute zero does
      just when no matching tag lies in the last minute before the epoch: the bucket only ever
      has more. */
  lemma {:induction false} BucketScanIsClockScan(log: seq<Entry>, minute: nat, action: Action, q: Params)
    ensures var bucket, clock := Scan(log, minute, action, q),
                                 ScanSeconds(log, 60 * minute, 60 * minute + 60, action, q);
            && bucket.sum >= clock.sum && bucket.count >= clock.count
            && (bucket == clock <==> minute > 0 || NoneJustBeforeEpoch(log, action, q))
  {
    if log != [] {
      var front, e := log[..|log| - 1], log[|log| - 1];
      assert log == front + [e];
      BucketScanIsClockScan(front, minute, action, q);
      BucketInterval(e.tag.time, minute);
    }
  }
}
