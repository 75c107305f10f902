/** The aggregates set of the database. One record a minute and id triple, one cell an
    action. The database is trusted for this: an operation on one record is atomic, an
    update-only or create-only operation refuses the record it must not find, and an
    operation that reports an error has changed nothing. */
module AggregatesDb {
  import opened GoInts
  import opened Types
  import opened PackedCounter
  import opened KeyCodec

  datatype Record = Record(ts: int64, views: Option<int64>, buys: Option<int64>) {
    function Bin(action: Action): Option<int64> {
      match action
      case View => views
      case Buy => buys
    }

    function WithBin(action: Action, value: int64): Record {
      match action
      case View => this.(views := Some(value))
      case Buy => this.(buys := Some(value))
    }
  }

  type Records = map<string, Record>

  datatype OpResult = Done | KeyNotFound | KeyExists | Unavailable

  /** Operate under UPDATE_ONLY with one add operation. `up` is false when the database
      cannot be reached. */
  function UpdateOnlyAdd(records: Records, name: string, action: Action, delta: int64, up: bool): (Records, OpResult) {
    if !up then (records, Unavailable)
    else if name !in records then (records, KeyNotFound)
    else (records[name := records[name].WithBin(action, AddOp(records[name].Bin(action), delta))], Done)
  }

  /** Put under CREATE_ONLY of the value and the minute. */
  function CreateOnlyPut(records: Records, name: string, ts: int64, action: Action, value: int64, up: bool)
    : (Records, OpResult)
  {
    if !up then (records, Unavailable)
    else if name in records then (records, KeyExists)
    else (records[name := Record(ts, None, None).WithBin(action, value)], Done)
  }

  /** A tag together with the id triple it is counted under. */
  datatype Entry = Entry(key: AggregateKey, tag: UserTag)

  function Name(e: Entry): string { ToKey(ToTs(e.tag.time), e.key) }

  function Delta(e: Entry): int64 { ToInt64(EncodeSumAndCount(e.tag.productInfo.price)) }

  /** The effect of the one write that succeeds for a tag: an add to the record that is
      there, or the creation of the one that is not. */
  function Land(records: Records, e: Entry): Records {
    if Name(e) in records
    then UpdateOnlyAdd(records, Name(e), e.tag.action, Delta(e), true).0
    else CreateOnlyPut(records, Name(e), ToTs(e.tag.time), e.tag.action, Delta(e), true).0
  }

  function LandAll(records: Records, log: seq<Entry>): Records {
    if log == [] then records else Land(LandAll(records, log[..|log| - 1]), log[|log| - 1])
  }

  /** The records after the writes of a log, in its order, on an empty set. */
  function StoreOf(log: seq<Entry>): Records { LandAll(map[], log) }

  lemma {:induction false} LandAllConcat(records: Records, a: seq<Entry>, b: seq<Entry>)
    ensures LandAll(records, a + b) == LandAll(LandAll(records, a), b)
  {
    if b == [] {
      assert a + b == a;
    } else {
      assert (a + b)[..|a + b| - 1] == a + b[..|b| - 1];
      LandAllConcat(records, a, b[..|b| - 1]);
    }
  }

  lemma {:induction false} LandAllKeepsNames(records: Records, log: seq<Entry>)
    ensures records.Keys <= LandAll(records, log).Keys
  {
    if log != [] {
      LandAllKeepsNames(records, log[..|log| - 1]);
    }
  }

  datatype ActionAggregates = ActionAggregates(key: AggregateKey, sum: uint64, count: uint16)

  datatype GetError = QueryFailed | StreamBroken | BadKey(reason: KeyError) | TsMismatch

  /** How a query goes wrong, if it does: not at all, before the first record, or after some
      number of records has been read. */
  datatype QueryFault = NoFault | QueryFails | StreamFails(after: nat)

  /** The names of all records of a minute, each once, in whatever order the scan finds them. */
  ghost predicate Enumerates(records: Records, ts: int64, names: seq<string>) {
    && (forall i, j :: 0 <= i < j < |names| ==> names[i] != names[j])
    && (forall n :: n in names <==> n in records && records[n].ts == ts)
  }

  /** What one record adds to the answer. */
  function ReadRecord(name: string, record: Record, action: Action, ts: int64)
    : Result<Option<ActionAggregates>, GetError>
  {
    match record.Bin(action)
    case None => Ok(None)
    case Some(cell) =>
      match DecodeKey(name)
      case Err(e) => Err(BadKey(e))
      case Ok((rTs, packed)) =>
        if ts != rTs then Err(TsMismatch)
        else
          var read := DecodeSumAndCount(ToUint64(cell));
          Ok(Some(ActionAggregates(Unpack(packed), read.sum, read.count)))
  }

  /** The answer from the records of the given names, in their order; the first error wins. */
  function Collect(records: Records, names: seq<string>, action: Action, ts: int64)
    : Result<seq<ActionAggregates>, GetError>
    requires forall n :: n in names ==> n in records
  {
    if names == [] then Ok([])
    else
      var last := names[|names| - 1];
      match Collect(records, names[..|names| - 1], action, ts)
      case Err(e) => Err(e)
      case Ok(aggs) =>
        match ReadRecord(last, records[last], action, ts)
        case Err(e) => Err(e)
        case Ok(None) => Ok(aggs)
        case Ok(Some(a)) => Ok(aggs + [a])
  }

  function CollectUntil(records: Records, names: seq<string>, action: Action, ts: int64, fault: QueryFault)
    : Result<seq<ActionAggregates>, GetError>
    requires forall n :: n in names ==> n in records
  {
    match fault
    case NoFault => Collect(records, names, action, ts)
    case QueryFails => Err(QueryFailed)
    case StreamFails(after) =>
      if after >= |names| then Collect(records, names, action, ts)
      else if Collect(records, names[..after], action, ts).Err? then Collect(records, names[..after], action, ts)
      else Err(StreamBroken)
  }

  lemma {:induction false} CollectPrefixError(records: Records, names: seq<string>, i: nat, action: Action, ts: int64)
    requires forall n :: n in names ==> n in records
    requires i <= |names| && Collect(records, names[..i], action, ts).Err?
    ensures Collect(records, names, action, ts) == Collect(records, names[..i], action, ts)
  {
    if i == |names| {
      assert names[..i] == names;
    } else {
      assert names[..|names| - 1][..i] == names[..i];
      CollectPrefixError(records, names[..|names| - 1], i, action, ts);
    }
  }

  class AggregatesClient {
    var records: Records

    constructor ()
      ensures records == StoreOf([])
    {
      records := map[];
    }

    /** Update, and create only if there was nothing to update. Between the two operations
        the tags `rivals` of other processors land. */
    method Add(aKey: AggregateKey, tag: UserTag, up1: bool, rivals: seq<Entry>, up2: bool) returns (err: OpResult)
      modifies this
      ensures !up1 ==> err == Unavailable && records == old(records)
      ensures up1 && Name(Entry(aKey, tag)) in old(records) ==>
                err == Done && records == Land(old(records), Entry(aKey, tag))
      ensures up1 && Name(Entry(aKey, tag)) !in old(records) ==>
                var mid := LandAll(old(records), rivals);
                if up2 && Name(Entry(aKey, tag)) !in mid then err == Done && records == Land(mid, Entry(aKey, tag))
                else err == (if up2 then KeyExists else Unavailable) && records == mid
    {
      var ts := ToTs(tag.time);
      var name := ToKey(ts, aKey);
      var encoded := EncodeSumAndCount(tag.productInfo.price);
      var updated := UpdateOnlyAdd(records, name, tag.action, ToInt64(encoded), up1);
      records, err := updated.0, updated.1;
      if err == KeyNotFound {
        records := LandAll(records, rivals);
        var created := CreateOnlyPut(records, name, ts, tag.action, ToInt64(encoded), up2);
        records, err := created.0, created.1;
      }
    }

    /** The equality query on the minute bin. */
    method Query(ts: int64) returns (names: seq<string>)
      ensures Enumerates(records, ts, names)
    {
      var left := set n | n in records && records[n].ts == ts;
      names := [];
      while left != {}
        invariant forall i, j :: 0 <= i < j < |names| ==> names[i] != names[j]
        invariant forall n :: n in names ==> n !in left
        invariant forall n :: n in names || n in left <==> n in records && records[n].ts == ts
        decreases left
      {
        var n :| n in left;
        names := names + [n];
        left := left - {n};
      }
    }

    method Get(t: Time, action: Action, fault: QueryFault) returns (res: Result<seq<ActionAggregates>, GetError>)
      ensures exists names :: Enumerates(records, ToTs(t), names)
                && res == CollectUntil(records, names, action, ToTs(t), fault)
      ensures fault == QueryFails ==> res == Err(QueryFailed)
      ensures fault == NoFault && WellKeyed(records) ==> res.Ok?
    {
      var ts := ToTs(t);
      var names := Query(ts);
      if fault == QueryFails {
        return Err(QueryFailed);
      }
      WellKeyedIsReadable(records, names, action, ts);
      var agg := [];
      var i := 0;
      while i < |names|
        invariant i <= |names|
        invariant fault.StreamFails? ==> i <= fault.after
        invariant Collect(records, names[..i], action, ts) == Ok(agg)
      {
        if fault == StreamFails(i) {
          return Err(StreamBroken);
        }
        assert names[..i + 1][..i] == names[..i];
        var a := Parse(names[i], records[names[i]], action, ts);
        if a.Err? {
          ErrorEndsCollect(records, names, i + 1, action, ts, fault);
          return Err(a.error);
        }
        if a.value.Some? {
          agg := agg + [a.value.value];
        }
        i := i + 1;
      }
      assert names[..i] == names;
      res := Ok(agg);
    }

    /** The body of the loop: one record, its bin, its key and its minute. */
    method Parse(name: string, record: Record, action: Action, ts: int64)
      returns (a: Result<Option<ActionAggregates>, GetError>)
      ensures a == ReadRecord(name, record, action, ts)
      ensures record.Bin(action) == None ==> a == Ok(None)
      ensures record.Bin(action).Some? && DecodeKey(name).Err? ==> a == Err(BadKey(DecodeKey(name).error))
      ensures record.Bin(action).Some? && DecodeKey(name).Ok? && DecodeKey(name).value.0 != ts ==> a == Err(TsMismatch)
    {
      var raw := record.Bin(action);
      if raw.None? {
        return Ok(None);
      }
      var decoded := DecodeKey(name);
      if decoded.Err? {
        return Err(BadKey(decoded.error));
      }
      var (rTs, key) := decoded.value;
      if ts != rTs {
        return Err(TsMismatch);
      }
      var read := DecodeSumAndCount(ToUint64(raw.value));
      var fields := new KeyFields();
      fields.Decode(key);
      a := Ok(Some(ActionAggregates(fields.Value(), read.sum, read.count)));
    }
  }

  /** Reading a record undoes its naming and packing: without the bin it is skipped; if up to
      65,535 tags made the cell, the ids, the price sum and the number of tags come back in the
      minute of the name, and the mismatch error in any other. */
  lemma RecordReadsBack(record: Record, minute: int64, key: AggregateKey, action: Action, prices: seq<uint32>,
                        ts: int64)
    requires record.Bin(action) == Cell(prices) && |prices| <= 65535
    ensures var read := ReadRecord(ToKey(minute, key), record, action, ts);
            if prices == [] then read == Ok(None)
            else if ts != minute then read == Err(TsMismatch)
            else
              && read.Ok? && read.value.Some? && read.value.value.key == key
              && read.value.value.sum == SumPrices(prices) && read.value.value.count == |prices|
  {
    KeyRoundTrip(minute, key);
    if prices != [] {
      CellExactIff(prices);
    }
  }

  lemma ErrorEndsCollect(records: Records, names: seq<string>, i: nat, action: Action, ts: int64, fault: QueryFault)
    requires forall n :: n in names ==> n in records
    requires fault != QueryFails && (fault.StreamFails? ==> i <= fault.after)
    requires i <= |names| && Collect(records, names[..i], action, ts).Err?
    ensures CollectUntil(records, names, action, ts, fault) == Collect(records, names[..i], action, ts)
  {
    CollectPrefixError(records, names, i, action, ts);
    if fault.StreamFails? && fault.after < |names| {
      assert names[..fault.after][..i] == names[..i];
      CollectPrefixError(records, names[..fault.after], i, action, ts);
    }
  }

  /** The prices a log counts in one cell, in its order. */
  function PricesOf(log: seq<Entry>, name: string, action: Action): seq<uint32> {
    if log == [] then []
    else
      var e := log[|log| - 1];
      var before := PricesOf(log[..|log| - 1], name, action);
      if Name(e) == name && e.tag.action == action then before + [e.tag.productInfo.price] else before
  }

  /** Every cell is the fold of exactly the tags of its record and action. */
  lemma {:induction false} StoreHoldsCells(log: seq<Entry>, name: string, action: Action)
    ensures BinOrNone(StoreOf(log), name, action) == Cell(PricesOf(log, name, action))
  {
    if log != [] {
      var front, e := log[..|log| - 1], log[|log| - 1];
      StoreHoldsCells(front, name, action);
      LandChangesOneCell(StoreOf(front), e, name, action);
      CellSnoc(PricesOf(front, name, action), e.tag.productInfo.price);
    }
  }

  /** A record exists just when some tag has landed in it. */
  lemma {:induction false} StoreHoldsNames(log: seq<Entry>, name: string)
    ensures name in StoreOf(log) <==> PricesOf(log, name, View) != [] || PricesOf(log, name, Buy) != []
  {
    if log != [] {
      var front, e := log[..|log| - 1], log[|log| - 1];
      StoreHoldsNames(front, name);
      LandAddsName(StoreOf(front), e, name);
    }
  }

  lemma LandAddsName(records: Records, e: Entry, name: string)
    ensures name in Land(records, e) <==> name in records || name == Name(e)
  {
  }

  function BinOrNone(records: Records, name: string, action: Action): Option<int64> {
    if name in records then records[name].Bin(action) else None
  }

  /** A landing tag adds its delta to its own cell and leaves every other cell alone. */
  lemma LandChangesOneCell(records: Records, e: Entry, name: string, action: Action)
    ensures BinOrNone(Land(records, e), name, action)
            == if name == Name(e) && action == e.tag.action
               then Some(AddOp(BinOrNone(records, name, action), Delta(e)))
               else BinOrNone(records, name, action)
  {
    AddToMissing(Delta(e));
  }

  /** A record's minute bin equals the minute in its name, and its name is the canonical one. */
  ghost predicate WellKeyed(records: Records) {
    forall n :: n in records ==> WellNamed(n, records[n].ts)
  }

  ghost predicate WellNamed(name: string, ts: int64) {
    && DecodeKey(name).Ok?
    && DecodeKey(name).value.0 == ts
    && name == ToKey(ts, Unpack(DecodeKey(name).value.1))
  }

  lemma {:induction false} StoreIsWellKeyed(log: seq<Entry>)
    ensures WellKeyed(StoreOf(log))
  {
    if log != [] {
      StoreIsWellKeyed(log[..|log| - 1]);
      var e := log[|log| - 1];
      KeyRoundTrip(ToTs(e.tag.time), e.key);
    }
  }

  /** On well-keyed records neither the key error nor the minute mismatch can occur. */
  lemma {:induction false} WellKeyedNeverMismatches(records: Records, names: seq<string>, action: Action, ts: int64)
    requires WellKeyed(records)
    requires forall n :: n in names ==> n in records && records[n].ts == ts
    ensures Collect(records, names, action, ts).Ok?
  {
    if names != [] {
      WellKeyedNeverMismatches(records, names[..|names| - 1], action, ts);
      var last := names[|names| - 1];
      assert last in names && WellNamed(last, records[last].ts);
    }
  }

  lemma WellKeyedIsReadable(records: Records, names: seq<string>, action: Action, ts: int64)
    requires Enumerates(records, ts, names)
    ensures WellKeyed(records) ==> Collect(records, names, action, ts).Ok?
  {
    if WellKeyed(records) {
      WellKeyedNeverMismatches(records, names, action, ts);
    }
  }

  /** On such a store a query fails exactly if the query itself or the stream of its results
      does, and then with that error; a stream that breaks behind the last record is no fault. */
  lemma OnlyFaultsShow(records: Records, names: seq<string>, action: Action, ts: int64, fault: QueryFault)
    requires WellKeyed(records) && Enumerates(records, ts, names)
    ensures var res := CollectUntil(records, names, action, ts, fault);
            if fault == QueryFails then res == Err(QueryFailed)
            else if fault.StreamFails? && fault.after < |names| then res == Err(StreamBroken)
            else res.Ok? && res == Collect(records, names, action, ts)
  {
    WellKeyedNeverMismatches(records, names, action, ts);
    if fault.StreamFails? && fault.after < |names| {
      forall n | n in names[..fault.after] ensures n in records && records[n].ts == ts {
        assert n in names;
      }
      WellKeyedNeverMismatches(records, names[..fault.after], action, ts);
    }
  }
}
