/** The aggregates endpoint: one row a minute, each the filtered total of that minute's
    records. */
module AggregatesQuery {
  import opened GoInts
  import opened Types
  import opened KeyCodec
  import opened AggregatesDb
  import opened IdService

  datatype Filters = Filters(originId: Option<uint16>, brandId: Option<uint16>, categoryId: Option<uint16>)

  predicate CheckFilter(f: Option<uint16>, k: uint16) {
    f.Some? ==> f.value == k
  }

  predicate Match(f: Filters, key: AggregateKey) {
    && CheckFilter(f.originId, key.origin)
    && CheckFilter(f.brandId, key.brandId)
    && CheckFilter(f.categoryId, key.categoryId)
  }

  /** The optional strings of a query. */
  datatype Params = Params(origin: Option<string>, brandId: Option<string>, categoryId: Option<string>)

  /** No string, no filter; otherwise the id of the string, if there is one that fits. */
  function FilterId(lookup: (string, string) -> Option<int>, collection: string, wanted: Option<string>)
    : Result<Option<uint16>, ()>
  {
    if wanted.None? then Ok(None)
    else
      var id := GetU16ID(lookup(collection, wanted.value));
      if id.None? then Err(()) else Ok(id)
  }

  /** The filters of a query, from the answers of the id service to lookups that must not
      create anything; the first string without an id fails the query. */
  function NewFilters(lookup: (string, string) -> Option<int>, q: Params): Result<Filters, ()> {
    var originId := FilterId(lookup, ORIGIN, q.origin);
    if originId.Err? then Err(())
    else
      var categoryId := FilterId(lookup, CATEGORY, q.categoryId);
      if categoryId.Err? then Err(())
      else
        var brandId := FilterId(lookup, BRAND, q.brandId);
        if brandId.Err? then Err(()) else Ok(Filters(originId.value, brandId.value, categoryId.value))
  }

  /** A string that is asked for has an id, and one that a filter can hold. */
  predicate HasFilter(lookup: (string, string) -> Option<int>, collection: string, wanted: Option<string>) {
    wanted.Some? ==>
      var answer := lookup(collection, wanted.value);
      answer.Some? && 0 <= answer.value <= 65535
  }

  predicate CanBeAsked(lookup: (string, string) -> Option<int>, q: Params) {
    && HasFilter(lookup, ORIGIN, q.origin)
    && HasFilter(lookup, BRAND, q.brandId)
    && HasFilter(lookup, CATEGORY, q.categoryId)
  }

  /** What a filter lets through: everything without a string, and otherwise its id. */
  predicate FiltersFor(lookup: (string, string) -> Option<int>, collection: string, wanted: Option<string>,
                       filter: Option<uint16>) {
    filter == if wanted.None? then None else lookup(collection, wanted.value)
  }

  /** The filters exist exactly if every string asked for has such an id, always for the query
      without strings, and each is the id of its own string in its own collection. */
  lemma FiltersExistIff(lookup: (string, string) -> Option<int>, q: Params)
    ensures var filters := NewFilters(lookup, q);
            && (filters.Ok? <==> CanBeAsked(lookup, q))
            && (filters.Ok? ==>
                  && FiltersFor(lookup, ORIGIN, q.origin, filters.value.originId)
                  && FiltersFor(lookup, BRAND, q.brandId, filters.value.brandId)
                  && FiltersFor(lookup, CATEGORY, q.categoryId, filters.value.categoryId))
  {
  }

  datatype Aggregate = Count | Sum

  function ToAggregate(s: string): Option<Aggregate> {
    match s
    case "COUNT" => Some(Count)
    case "SUM_PRICE" => Some(Sum)
    case _ => None
  }

  /** The requested aggregates in their order; an unknown one or one asked for twice is an
      error. A set of them shows the duplicates by its size. */
  method ConvertAggregates(req: seq<string>) returns (res: Option<seq<Aggregate>>)
    ensures res.Some? <==> (forall i :: 0 <= i < |req| ==> req[i] == "COUNT" || req[i] == "SUM_PRICE")
                           && (forall i, j :: 0 <= i < j < |req| ==> req[i] != req[j])
    ensures res.Some? ==> |res.value| == |req| <= 2
    ensures res.Some? ==> forall i :: 0 <= i < |req| ==>
                (res.value[i] == Count <==> req[i] == "COUNT") && (res.value[i] == Sum <==> req[i] == "SUM_PRICE")
  {
    var aggregates := [];
    for i := 0 to |req|
      invariant |aggregates| == i
      invariant forall k :: 0 <= k < i ==> ToAggregate(req[k]) == Some(aggregates[k])
    {
      var a := ToAggregate(req[i]);
      if a.None? {
        return None;
      }
      aggregates := aggregates + [a.value];
    }
    var agg := {};
    for i := 0 to |aggregates|
      invariant agg == SetOf(aggregates[..i])
    {
      assert aggregates[..i + 1] == aggregates[..i] + [aggregates[i]];
      SetOfSnoc(aggregates[..i], aggregates[i]);
      agg := agg + {aggregates[i]};
    }
    assert aggregates[..|aggregates|] == aggregates;
    DistinctIffSameSize(aggregates);
    if |aggregates| != |agg| {
      return None;
    }
    AtMostTwo(agg);
    res := Some(aggregates);
  }

  function SetOf(s: seq<Aggregate>): set<Aggregate> { set a | a in s }

  lemma SetOfSnoc(front: seq<Aggregate>, last: Aggregate)
    ensures SetOf(front + [last]) == SetOf(front) + {last}
  {
  }

  lemma {:induction false} DistinctIffSameSize(s: seq<Aggregate>)
    ensures |SetOf(s)| <= |s|
    ensures |SetOf(s)| == |s| <==> forall i, j :: 0 <= i < j < |s| ==> s[i] != s[j]
  {
    if s != [] {
      var front, last := s[..|s| - 1], s[|s| - 1];
      DistinctIffSameSize(front);
      assert s == front + [last];
      SetOfSnoc(front, last);
      if last in front {
        var i :| 0 <= i < |front| && front[i] == last;
        assert s[i] == s[|s| - 1];
        assert SetOf(front) + {last} == SetOf(front);
      }
    }
  }

  lemma AtMostTwo(agg: set<Aggregate>)
    ensures |agg| <= 2
  {
    forall a | a in agg ensures a in {Count, Sum} {
      assert a.Count? || a.Sum?;
    }
    assert agg == (if Count in agg then {Count} else {}) + (if Sum in agg then {Sum} else {});
  }

  /** A price sum and a count, exact. */
  datatype Totals = Totals(sum: nat, count: nat)

  function FilterTotals(aggs: seq<ActionAggregates>, f: Filters): Totals {
    if aggs == [] then Totals(0, 0)
    else
      var last := aggs[|aggs| - 1];
      var before := FilterTotals(aggs[..|aggs| - 1], f);
      if Match(f, last.key) then Totals(before.sum + last.sum, before.count + last.count) else before
  }

  /** The two accumulators are unsigned 64-bit numbers that wrap around. */
  method FilterAggregates(aggs: seq<ActionAggregates>, f: Filters) returns (sum: uint64, count: uint64)
    ensures sum == ToUint64(FilterTotals(aggs, f).sum)
    ensures count == ToUint64(FilterTotals(aggs, f).count)
  {
    sum, count := 0, 0;
    for i := 0 to |aggs|
      invariant sum == ToUint64(FilterTotals(aggs[..i], f).sum)
      invariant count == ToUint64(FilterTotals(aggs[..i], f).count)
    {
      assert aggs[..i + 1] == aggs[..i] + [aggs[i]];
      TotalsSnoc(aggs[..i], aggs[i], f);
      if Match(f, aggs[i].key) {
        WrappedAdd(FilterTotals(aggs[..i], f).sum, aggs[i].sum);
        WrappedAdd(FilterTotals(aggs[..i], f).count, aggs[i].count);
        sum := ToUint64(sum + aggs[i].sum);
        count := ToUint64(count + aggs[i].count);
      }
    }
    assert aggs[..|aggs|] == aggs;
  }

  lemma WrappedAdd(a: nat, b: nat)
    ensures ToUint64(ToUint64(a) + b) == ToUint64(a + b)
  {
    var q, r := a / 0x1_0000_0000_0000_0000, a % 0x1_0000_0000_0000_0000;
    assert a + b == q * 0x1_0000_0000_0000_0000 + (r + b);
    CutAnyMultiple(q, r + b);
  }

  /** No wrap-around happens for up to 65,536 records a minute. */
  lemma {:induction false} NoWrapForFewRecords(aggs: seq<ActionAggregates>, f: Filters)
    requires |aggs| <= 0x1_0000
    requires forall i :: 0 <= i < |aggs| ==> aggs[i].sum < 0x1_0000_0000_0000
    ensures FilterTotals(aggs, f).sum <= |aggs| * 0xFFFF_FFFF_FFFF
    ensures ToUint64(FilterTotals(aggs, f).sum) == FilterTotals(aggs, f).sum
    ensures FilterTotals(aggs, f).count <= |aggs| * 0xFFFF
    ensures ToUint64(FilterTotals(aggs, f).count) == FilterTotals(aggs, f).count
  {
    if aggs != [] {
      NoWrapForFewRecords(aggs[..|aggs| - 1], f);
    }
  }

  datatype Dimension = Origin | Brand | Category

  function Restrict(f: Filters, d: Dimension, id: uint16): Filters {
    match d
    case Origin => f.(originId := Some(id))
    case Brand => f.(brandId := Some(id))
    case Category => f.(categoryId := Some(id))
  }

  predicate Unrestricted(f: Filters, d: Dimension) {
    match d
    case Origin => f.originId == None
    case Brand => f.brandId == None
    case Category => f.categoryId == None
  }

  function IdOf(key: AggregateKey, d: Dimension): uint16 {
    match d
    case Origin => key.origin
    case Brand => key.brandId
    case Category => key.categoryId
  }

  /** The answers for the ids 0, 1, ..., n-1 of one dimension, added up. */
  function SumOverIds(aggs: seq<ActionAggregates>, f: Filters, d: Dimension, n: nat): Totals
    requires n <= 0x1_0000
  {
    if n == 0 then Totals(0, 0)
    else
      var before, own := SumOverIds(aggs, f, d, n - 1), FilterTotals(aggs, Restrict(f, d, n - 1));
      Totals(before.sum + own.sum, before.count + own.count)
  }

  /** Nothing is lost or counted twice: over all values of one id dimension the filtered
      answers add up to the answer without that filter. */
  lemma {:induction false} FilterConservation(aggs: seq<ActionAggregates>, f: Filters, d: Dimension)
    requires Unrestricted(f, d)
    ensures SumOverIds(aggs, f, d, 0x1_0000) == FilterTotals(aggs, f)
  {
    if aggs == [] {
      SumOverNothing(f, d, 0x1_0000);
    } else {
      var front, last := aggs[..|aggs| - 1], aggs[|aggs| - 1];
      assert aggs == front + [last];
      FilterConservation(front, f, d);
      SumOverIdsSnoc(front, last, f, d, 0x1_0000);
    }
  }

  lemma {:induction false} TotalsConcat(a: seq<ActionAggregates>, b: seq<ActionAggregates>, f: Filters)
    ensures FilterTotals(a + b, f).sum == FilterTotals(a, f).sum + FilterTotals(b, f).sum
    ensures FilterTotals(a + b, f).count == FilterTotals(a, f).count + FilterTotals(b, f).count
  {
    if b == [] {
      assert a + b == a;
    } else {
      var front, last := b[..|b| - 1], b[|b| - 1];
      TotalsConcat(a, front, f);
      assert a + b == (a + front) + [last];
      TotalsSnoc(a + front, last, f);
    }
  }

  lemma TakeOut<T>(front: seq<T>, last: T, b: seq<T>) returns (before: seq<T>, after: seq<T>)
    requires multiset(front + [last]) == multiset(b)
    ensures b == before + [last] + after && multiset(front) == multiset(before + after)
  {
    var a := front + [last];
    assert a[|front|] == last;
    assert last in multiset(a);
    var i :| 0 <= i < |b| && b[i] == last;
    before, after := b[..i], b[i + 1..];
    assert b == before + [last] + after;
    SameRest(multiset(front), multiset(before + after), last);
  }

  lemma SameRest<T>(a: multiset<T>, b: multiset<T>, x: T)
    requires a + multiset{x} == b + multiset{x}
    ensures a == b
  {
    assert a == (a + multiset{x}) - multiset{x};
    assert b == (b + multiset{x}) - multiset{x};
  }

  /** Nor does the order of the records matter. */
  lemma {:induction false} OrderDoesNotMatter(a: seq<ActionAggregates>, b: seq<ActionAggregates>, f: Filters)
    requires multiset(a) == multiset(b)
    ensures FilterTotals(a, f) == FilterTotals(b, f)
  {
    if a == [] {
      assert |multiset(b)| == 0;
    } else {
      var front, last := a[..|a| - 1], a[|a| - 1];
      assert a == front + [last];
      var before, after := TakeOut(front, last, b);
      OrderDoesNotMatter(front, before + after, f);
      OneInTheMiddle(before, last, after, f);
      TotalsSnoc(front, last, f);
      TotalsSnoc(before + after, last, f);
    }
  }

  lemma OneInTheMiddle(before: seq<ActionAggregates>, a: ActionAggregates, after: seq<ActionAggregates>, f: Filters)
    ensures FilterTotals(before + [a] + after, f) == FilterTotals(before + after + [a], f)
  {
    TotalsConcat(before + [a], after, f);
    TotalsConcat(before, [a], f);
    TotalsConcat(before + after, [a], f);
    TotalsConcat(before, after, f);
  }

  lemma {:induction false} SumOverNothing(f: Filters, d: Dimension, n: nat)
    requires n <= 0x1_0000
    ensures SumOverIds([], f, d, n) == Totals(0, 0)
  {
    if n > 0 {
      SumOverNothing(f, d, n - 1);
    }
  }

  /** One more element adds to the sum over ids exactly when its own id has been reached. */
  lemma {:induction false} SumOverIdsSnoc(aggs: seq<ActionAggregates>, a: ActionAggregates, f: Filters,
                                          d: Dimension, n: nat)
    requires n <= 0x1_0000 && Unrestricted(f, d)
    ensures var counts := Match(f, a.key) && IdOf(a.key, d) < n;
            && SumOverIds(aggs + [a], f, d, n).sum == SumOverIds(aggs, f, d, n).sum + (if counts then a.sum else 0)
            && SumOverIds(aggs + [a], f, d, n).count
               == SumOverIds(aggs, f, d, n).count + (if counts then a.count else 0)
  {
    if n > 0 {
      SumOverIdsSnoc(aggs, a, f, d, n - 1);
      TotalsSnoc(aggs, a, Restrict(f, d, n - 1));
      MatchRestricted(f, d, n - 1, a.key);
    }
  }

  lemma MatchRestricted(f: Filters, d: Dimension, id: uint16, key: AggregateKey)
    requires Unrestricted(f, d)
    ensures Match(Restrict(f, d, id), key) <==> Match(f, key) && IdOf(key, d) == id
  {
  }

  lemma TotalsSnoc(aggs: seq<ActionAggregates>, a: ActionAggregates, f: Filters)
    ensures FilterTotals(aggs + [a], f).sum == FilterTotals(aggs, f).sum + (if Match(f, a.key) then a.sum else 0)
    ensures FilterTotals(aggs + [a], f).count == FilterTotals(aggs, f).count + (if Match(f, a.key) then a.count else 0)
  {
    assert (aggs + [a])[..|aggs|] == aggs;
  }

  datatype RangeError = FromAfterTo | LongerThanTenMinutes | FromNotAligned | ToNotAligned

  function ValidateTimeRange(from: Time, to: Time): Result<(), RangeError> {
    if from > to then Err(FromAfterTo)
    else if to - from > 10 * MINUTE then Err(LongerThanTenMinutes)
    else if Second(from) > 0 then Err(FromNotAligned)
    else if Second(to) > 0 then Err(ToNotAligned)
    else Ok(())
  }

  /** How many minute steps from `from` stay before `to`: the ceiling of their distance. */
  function RowCount(from: int, to: int): nat {
    if from >= to then 0 else (to - from + MINUTE - 1) / MINUTE
  }

  function RowTimes(from: int, to: int): seq<int> {
    seq(RowCount(from, to), k => from + k * MINUTE)
  }

  datatype Row = Row(t: Time, sum: uint64, count: uint64)

  /** The row is the filtered total of its minute's records, in some order of the scan. */
  ghost predicate AnswersRow(records: Records, action: Action, f: Filters, row: Row) {
    exists names :: Enumerates(records, ToTs(row.t), names) && AnswersRowBy(records, action, f, row, names)
  }

  ghost predicate AnswersRowBy(records: Records, action: Action, f: Filters, row: Row, names: seq<string>)
    requires Enumerates(records, ToTs(row.t), names)
  {
    var aggs := Collect(records, names, action, ToTs(row.t));
    && aggs.Ok?
    && row.sum == ToUint64(FilterTotals(aggs.value, f).sum)
    && row.count == ToUint64(FilterTotals(aggs.value, f).count)
  }

  /** One answered row for each minute step from `from` on that stays before `to`. */
  ghost predicate Answers(records: Records, action: Action, f: Filters, from: int, to: int, rows: seq<Row>) {
    && |rows| == |RowTimes(from, to)|
    && forall k :: 0 <= k < |rows| ==> rows[k].t == RowTimes(from, to)[k] && AnswersRow(records, action, f, rows[k])
  }

  /** One of the reads of the loop ended in this error. */
  ghost predicate ReadFailed(records: Records, action: Action, t: Time, fault: QueryFault, e: GetError) {
    exists names ::
      Enumerates(records, ToTs(t), names) && CollectUntil(records, names, action, ToTs(t), fault) == Err(e)
  }

  datatype AnswerError = NoFilters | NoRow(reason: GetError)

  /** The endpoint on an unchanging set: the filters first, then the minute loop; `faults` says
      how the read of each row goes. */
  method Aggregates(db: AggregatesClient, lookup: (string, string) -> Option<int>, q: Params,
                    from: Time, to: Time, action: Action, faults: nat -> QueryFault)
    returns (res: Result<seq<Row>, AnswerError>)
    ensures NewFilters(lookup, q).Err? <==> res == Err(NoFilters)
    ensures res == Err(NoFilters) <==> !CanBeAsked(lookup, q)
    ensures CanBeAsked(lookup, q) && WellKeyed(db.records) && (forall k :: faults(k) == NoFault) ==> res.Ok?
    ensures res.Ok? ==> Answers(db.records, action, NewFilters(lookup, q).value, from, to, res.value)
    ensures res.Err? && res.error.NoRow? ==> exists k: nat, t: Time ::
                && k < RowCount(from, to) && t == from + k * MINUTE
                && ReadFailed(db.records, action, t, faults(k), res.error.reason)
  {
    var filters := NewFilters(lookup, q);
    FiltersExistIff(lookup, q);
    if filters.Err? {
      return Err(NoFilters);
    }
    var f := filters.value;
    var rows: seq<Row> := [];
    var t: int := from;
    while t < to
      invariant t == from + |rows| * MINUTE
      invariant |rows| <= RowCount(from, to)
      invariant t < to <==> |rows| < RowCount(from, to)
      invariant forall k :: 0 <= k < |rows| ==>
                  rows[k].t == from + k * MINUTE && AnswersRow(db.records, action, f, rows[k])
      decreases (to - t)
    {
      var aggs := db.Get(t, action, faults(|rows|));
      if aggs.Err? {
        assert ReadFailed(db.records, action, t, faults(|rows|), aggs.error);
        return Err(NoRow(aggs.error));
      }
      var sum, count := FilterAggregates(aggs.value, f);
      var row := Row(t, sum, count);
      AnswerOf(db.records, action, f, row, faults(|rows|), aggs.value);
      rows := rows + [row];
      t := t + MINUTE;
    }
    res := Ok(rows);
  }

  lemma AnswerOf(records: Records, action: Action, f: Filters, row: Row, fault: QueryFault, aggs: seq<ActionAggregates>)
    requires exists names :: Enumerates(records, ToTs(row.t), names)
                               && CollectUntil(records, names, action, ToTs(row.t), fault) == Ok(aggs)
    requires row.sum == ToUint64(FilterTotals(aggs, f).sum) && row.count == ToUint64(FilterTotals(aggs, f).count)
    ensures AnswersRow(records, action, f, row)
  {
    var names :| Enumerates(records, ToTs(row.t), names)
                   && CollectUntil(records, names, action, ToTs(row.t), fault) == Ok(aggs);
    assert AnswersRowBy(records, action, f, row, names);
  }

  /** A validated range has at most ten rows, and their buckets are consecutive minutes,
      before the epoch as after it. */
  lemma ValidatedRowsAreConsecutive(from: Time, to: Time)
    requires ValidateTimeRange(from, to).Ok?
    ensures |RowTimes(from, to)| <= 10
    ensures forall k :: 0 <= k < |RowTimes(from, to)| ==> ToTs(RowTimes(from, to)[k]) == ToTs(from) + k
  {
    forall k | 0 <= k < |RowTimes(from, to)|
      ensures ToTs(RowTimes(from, to)[k]) == ToTs(from) + k
    {
      MinutesLater(from, k);
    }
  }

  lemma MinutesLater(from: int, k: nat)
    requires Second(from) == 0
    ensures Unix(from + k * MINUTE) == Unix(from) + 60 * k
    ensures TruncDiv(Unix(from + k * MINUTE), 60) == TruncDiv(Unix(from), 60) + k
  {
    assert from + k * MINUTE == (from / SECOND + 60 * k) * SECOND + from % SECOND;
    var m := Unix(from) / 60;
    assert Unix(from) == 60 * m;
  }

  /** A range is accepted exactly if both ends lie in the first second of a minute, in order, at
      most ten minutes apart; for whole seconds these are whole minutes. */
  lemma ValidatedIff(from: Time, to: Time)
    ensures ValidateTimeRange(from, to).Ok?
            <==> from % MINUTE < SECOND && to % MINUTE < SECOND && from <= to <= from + 10 * MINUTE
  {
    AlignedIff(from);
    AlignedIff(to);
  }

  lemma AlignedIff(t: int)
    ensures Second(t) == 0 <==> t % MINUTE < SECOND
    ensures t % SECOND == 0 ==> (Second(t) == 0 <==> t % MINUTE == 0)
  {
    var s := t / SECOND;
    var m, r := s / 60, s % 60;
    assert t == s * SECOND + t % SECOND && s == m * 60 + r;
    assert t == m * MINUTE + (r * SECOND + t % SECOND);
    MinuteRest(m, r * SECOND + t % SECOND, t);
  }

  lemma MinuteRest(m: int, rest: int, t: int)
    requires t == m * MINUTE + rest && 0 <= rest < MINUTE
    ensures t % MINUTE == rest
  {
  }

  lemma ValidatedEndsAreAligned(from: Time, to: Time)
    requires from % SECOND == 0 && to % SECOND == 0
    ensures ValidateTimeRange(from, to).Ok?
            <==> from % MINUTE == 0 && to % MINUTE == 0 && from <= to <= from + 10 * MINUTE
  {
    AlignedIff(from);
    AlignedIff(to);
  }

  /** For ends in whole seconds the buckets of the rows partition the half-open range: a time
      lies in the range just when it falls into the bucket of one of the rows. */
  lemma RowsPartitionRange(from: Time, to: Time, t: Time)
    requires ValidateTimeRange(from, to).Ok? && from % SECOND == 0 && to % SECOND == 0
    requires 0 <= from && 0 <= t
    ensures from <= t < to <==> 0 <= ToTs(t) - ToTs(from) < |RowTimes(from, to)|
  {
    ValidatedEndsAreAligned(from, to);
    var a, b := from / MINUTE, to / MINUTE;
    assert from == a * MINUTE && to == b * MINUTE;
    WholeMinutes(from);
    WholeMinutes(t);
    if from < to {
      assert to - from + MINUTE - 1 == (b - a) * MINUTE + (MINUTE - 1);
      assert RowCount(from, to) == b - a;
    }
  }

  lemma WholeMinutes(t: int)
    requires 0 <= t
    ensures TruncDiv(Unix(t), 60) == t / MINUTE
  {
    var s := t / SECOND;
    assert t == (s / 60) * MINUTE + (s % 60) * SECOND + t % SECOND;
  }

  /** Splitting a range at a whole number of minutes after its start splits its row times. */
  lemma SplitRange(from: int, mid: int, to: int)
    requires from <= mid <= to && (mid - from) % MINUTE == 0
    ensures RowTimes(from, to) == RowTimes(from, mid) + RowTimes(mid, to)
  {
    var j := (mid - from) / MINUTE;
    assert mid == from + j * MINUTE;
    assert RowCount(from, mid) == j;
    if mid < to {
      assert to - from + MINUTE - 1 == j * MINUTE + (to - mid + MINUTE - 1);
      assert RowCount(from, to) == j + RowCount(mid, to);
    }
  }

  // ---------- the order of the scan does not show ----------

  function Joined(a: Result<seq<ActionAggregates>, GetError>, b: Result<seq<ActionAggregates>, GetError>)
    : Result<seq<ActionAggregates>, GetError>
  {
    if a.Err? then a else if b.Err? then b else Ok(a.value + b.value)
  }

  lemma CollectSnoc(records: Records, front: seq<string>, n: string, action: Action, ts: int64)
    requires (forall m :: m in front ==> m in records) && n in records
    ensures Collect(records, front + [n], action, ts)
            == Joined(Collect(records, front, action, ts), Collect(records, [n], action, ts))
  {
    assert (front + [n])[..|front|] == front;
    assert [n][..0] == [] && Collect(records, [n][..0], action, ts) == Ok([]);
    JoinedNothing(Collect(records, front, action, ts));
    var read := ReadRecord(n, records[n], action, ts);
    if read.Ok? && read.value.Some? {
      assert [] + [read.value.value] == [read.value.value];
    }
  }

  lemma JoinedAssociates(a: Result<seq<ActionAggregates>, GetError>, b: Result<seq<ActionAggregates>, GetError>,
                         c: Result<seq<ActionAggregates>, GetError>)
    ensures Joined(Joined(a, b), c) == Joined(a, Joined(b, c))
  {
    if a.Ok? && b.Ok? && c.Ok? {
      assert a.value + b.value + c.value == a.value + (b.value + c.value);
    }
  }

  lemma {:induction false} CollectConcat(records: Records, a: seq<string>, b: seq<string>, action: Action, ts: int64)
    requires (forall n :: n in a ==> n in records) && (forall n :: n in b ==> n in records)
    ensures Collect(records, a + b, action, ts)
            == Joined(Collect(records, a, action, ts), Collect(records, b, action, ts))
  {
    if b == [] {
      assert a + b == a;
      JoinedNothing(Collect(records, a, action, ts));
    } else {
      var front, last := b[..|b| - 1], b[|b| - 1];
      assert b == front + [last] && a + b == a + front + [last];
      CollectConcat(records, a, front, action, ts);
      CollectSnoc(records, a + front, last, action, ts);
      CollectSnoc(records, front, last, action, ts);
      JoinedAssociates(Collect(records, a, action, ts), Collect(records, front, action, ts),
                       Collect(records, [last], action, ts));
    }
  }

  lemma JoinedNothing(a: Result<seq<ActionAggregates>, GetError>)
    ensures Joined(a, Ok([])) == a
  {
    if a.Ok? {
      assert a.value + [] == a.value;
    }
  }

  lemma CollectInTheMiddle(records: Records, before: seq<string>, n: string, after: seq<string>, action: Action,
                           ts: int64)
    requires (forall m :: m in before ==> m in records) && (forall m :: m in after ==> m in records) && n in records
    requires Collect(records, before + [n] + after, action, ts).Ok?
    ensures Collect(records, before + after, action, ts).Ok? && Collect(records, [n], action, ts).Ok?
    ensures multiset(Collect(records, before + [n] + after, action, ts).value)
            == multiset(Collect(records, before + after, action, ts).value)
               + multiset(Collect(records, [n], action, ts).value)
  {
    CollectConcat(records, before + [n], after, action, ts);
    CollectConcat(records, before, [n], action, ts);
    CollectConcat(records, before, after, action, ts);
  }

  /** Whatever the order of the names, the same records are read. */
  lemma {:induction false} CollectPermutes(records: Records, a: seq<string>, b: seq<string>, action: Action, ts: int64)
    requires (forall n :: n in a ==> n in records) && (forall n :: n in b ==> n in records)
    requires multiset(a) == multiset(b)
    requires Collect(records, a, action, ts).Ok? && Collect(records, b, action, ts).Ok?
    ensures multiset(Collect(records, a, action, ts).value) == multiset(Collect(records, b, action, ts).value)
  {
    if a == [] {
      assert |multiset(b)| == 0;
    } else {
      var front, last := a[..|a| - 1], a[|a| - 1];
      assert a == front + [last] + [] && front + [] == front && front + [last] == a;
      var before, after := TakeOut(front, last, b);
      CollectInTheMiddle(records, front, last, [], action, ts);
      CollectInTheMiddle(records, before, last, after, action, ts);
      CollectPermutes(records, front, before + after, action, ts);
    }
  }

  lemma {:induction false} EachOnce(names: seq<string>, n: string)
    requires forall i, j :: 0 <= i < j < |names| ==> names[i] != names[j]
    ensures multiset(names)[n] == if n in names then 1 else 0
  {
    if names != [] {
      var front, last := names[..|names| - 1], names[|names| - 1];
      assert names == front + [last];
      EachOnce(front, n);
    }
  }

  /** A store and a minute determine the row: in whatever order two scans find the records,
      they answer the same. */
  lemma RowIsDetermined(records: Records, action: Action, f: Filters, row: Row, other: Row)
    requires AnswersRow(records, action, f, row) && AnswersRow(records, action, f, other) && row.t == other.t
    ensures row == other
  {
    var ts := ToTs(row.t);
    var a :| Enumerates(records, ts, a) && AnswersRowBy(records, action, f, row, a);
    var b :| Enumerates(records, ts, b) && AnswersRowBy(records, action, f, other, b);
    forall n ensures multiset(a)[n] == multiset(b)[n] {
      EachOnce(a, n);
      EachOnce(b, n);
    }
    CollectPermutes(records, a, b, action, ts);
    OrderDoesNotMatter(Collect(records, a, action, ts).value, Collect(records, b, action, ts).value, f);
  }

  /** And so the answer to a range. */
  lemma AnswerIsDetermined(records: Records, action: Action, f: Filters, from: int, to: int,
                           rows: seq<Row>, other: seq<Row>)
    requires Answers(records, action, f, from, to, rows) && Answers(records, action, f, from, to, other)
    ensures rows == other
  {
    forall k | 0 <= k < |rows| ensures rows[k] == other[k] {
      RowIsDetermined(records, action, f, rows[k], other[k]);
    }
  }

  /** Splitting a range at a whole number of minutes after its start: the answer to the whole is
      the concatenation of the answers to the parts, and nothing else is. */
  lemma AnswerSplits(records: Records, action: Action, f: Filters, from: int, mid: int, to: int,
                     first: seq<Row>, second: seq<Row>, rows: seq<Row>)
    requires from <= mid <= to && (mid - from) % MINUTE == 0
    requires Answers(records, action, f, from, mid, first) && Answers(records, action, f, mid, to, second)
    ensures Answers(records, action, f, from, to, rows) <==> rows == first + second
  {
    SplitRange(from, mid, to);
    assert Answers(records, action, f, from, to, first + second);
    if Answers(records, action, f, from, to, rows) {
      AnswerIsDetermined(records, action, f, from, to, rows, first + second);
    }
  }
}
