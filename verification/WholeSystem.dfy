/** The worker and the id service running together, every step of the one interleaved with
    every step of the other, and what the aggregates endpoint then answers. */
module WholeSystem {
  import opened GoInts
  import opened Types
  import opened KeyCodec
  import opened AggregatesDb
  import opened AggregatesQuery
  import opened IdService
  import opened QueryRefinesScan
  import Processor = AggregatesProcessor
  import Ids = IdMachine
  import Worker = Pipeline

  datatype State = State(worker: Worker.State, ids: Ids.State)

  datatype Step = WorkerStep(work: Worker.Step) | IdStep(id: Ids.Step)

  /** A client only ever hears an id that was issued, at once or from its cache, cut to 32
      bits on the way. */
  ghost predicate Answered(issued: set<Ids.Issue>, collection: string, element: string, answer: int) {
    exists id :: Ids.Issue(collection, element, id) in issued && answer == ToInt32(id)
  }

  ghost predicate Enabled(s: State, step: Step) {
    match step
    case WorkerStep(w) =>
      && Worker.Enabled(s.worker, w)
      && (w.GotId? && w.answer.Some? ==>
            var (collection, element) := Worker.Wanted(s.worker.procs[w.p]);
            Answered(s.ids.issued, collection, element, w.answer.value))
    case IdStep(i) => Ids.Enabled(s.ids, i)
  }

  ghost function After(base: nat, s: State, step: Step): State
    requires Enabled(s, step)
  {
    match step
    case WorkerStep(w) => s.(worker := Worker.After(s.worker, w))
    case IdStep(i) => s.(ids := Ids.After(base, s.ids, i))
  }

  /** The state after a run, if every step of it was enabled. */
  ghost function Exec(base: nat, s: State, steps: seq<Step>): Option<State> {
    if steps == [] then Some(s)
    else
      var before := Exec(base, s, steps[..|steps| - 1]);
      if before.Some? && Enabled(before.value, steps[|steps| - 1])
      then Some(After(base, before.value, steps[|steps| - 1]))
      else None
  }

  /** Empty databases, with any number of consumers and processors. */
  function Init(consumers: nat, processors: nat): State {
    State(Worker.Init(consumers, processors), Ids.INIT)
  }

  /** The ids of a triple were issued for the strings of the tag. */
  ghost predicate EntryAnswered(issued: set<Ids.Issue>, e: Entry) {
    && Answered(issued, CATEGORY, e.tag.productInfo.categoryId, e.key.categoryId)
    && Answered(issued, BRAND, e.tag.productInfo.brandId, e.key.brandId)
    && Answered(issued, ORIGIN, e.tag.origin, e.key.origin)
  }

  /** The ids a processor has gathered so far were. */
  ghost predicate ProcAnswered(issued: set<Ids.Issue>, p: Worker.Proc) {
    match p
    case NeedBrand(tag, category) => Answered(issued, CATEGORY, tag.productInfo.categoryId, category)
    case NeedOrigin(tag, category, brand) =>
      && Answered(issued, CATEGORY, tag.productInfo.categoryId, category)
      && Answered(issued, BRAND, tag.productInfo.brandId, brand)
    case Updating(e) => EntryAnswered(issued, e)
    case Creating(e) => EntryAnswered(issued, e)
    case _ => true
  }

  ghost predicate WorkerInv(s: Worker.State) {
    s.records == StoreOf(s.log) && Worker.Conserved(s) && |s.channel| <= Worker.CHAN_SIZE
  }

  ghost predicate AllAnswered(issued: set<Ids.Issue>, worker: Worker.State) {
    && (forall e :: e in worker.log ==> EntryAnswered(issued, e))
    && (forall p :: 0 <= p < |worker.procs| ==> ProcAnswered(issued, worker.procs[p]))
  }

  lemma AnsweredStays(issued: set<Ids.Issue>, more: set<Ids.Issue>, worker: Worker.State)
    requires AllAnswered(issued, worker) && issued <= more
    ensures AllAnswered(more, worker)
  {
    forall c, e, a | Answered(issued, c, e, a) ensures Answered(more, c, e, a) {
      var id :| Ids.Issue(c, e, id) in issued && a == ToInt32(id);
      assert Ids.Issue(c, e, id) in more;
    }
    forall e | e in worker.log ensures EntryAnswered(more, e) {
      assert EntryAnswered(issued, e);
    }
    forall p | 0 <= p < |worker.procs| ensures ProcAnswered(more, worker.procs[p]) {
      assert ProcAnswered(issued, worker.procs[p]);
    }
  }

  /** The one processor that moves gathers or keeps answered ids. */
  lemma ProcStepAnswered(issued: set<Ids.Issue>, worker: Worker.State, w: Worker.Step)
    requires Worker.Enabled(worker, w) && !w.Receive? && !w.Push?
    requires ProcAnswered(issued, worker.procs[w.p])
    requires w.GotId? && w.answer.Some? ==>
               var (collection, element) := Worker.Wanted(worker.procs[w.p]);
               Answered(issued, collection, element, w.answer.value)
    ensures ProcAnswered(issued, Worker.After(worker, w).procs[w.p])
    ensures Worker.After(worker, w).procs == worker.procs[w.p := Worker.After(worker, w).procs[w.p]]
  {
    match w
    case GotId(p, answer) =>
      if GetU16ID(answer).Some? {
        var q := worker.procs[p];
        assert Worker.After(worker, w).procs[p] == Worker.WithId(q, GetU16ID(answer).value);
      }
    case Update(p, _) =>
    case Create(p, _) =>
    case _ =>
  }

  lemma WorkerStepAnswered(issued: set<Ids.Issue>, worker: Worker.State, w: Worker.Step)
    requires Worker.Enabled(worker, w) && AllAnswered(issued, worker)
    requires w.GotId? && w.answer.Some? ==>
               var (collection, element) := Worker.Wanted(worker.procs[w.p]);
               Answered(issued, collection, element, w.answer.value)
    ensures AllAnswered(issued, Worker.After(worker, w))
  {
    Worker.StepLands(worker, w);
    if !w.Receive? && !w.Push? {
      assert ProcAnswered(issued, worker.procs[w.p]);
      ProcStepAnswered(issued, worker, w);
    }
  }

  lemma {:induction false} RunKeepsInv(base: nat, consumers: nat, processors: nat, steps: seq<Step>)
    requires Exec(base, Init(consumers, processors), steps).Some?
    ensures var s := Exec(base, Init(consumers, processors), steps).value;
            WorkerInv(s.worker) && Ids.Inv(base, s.ids) && AllAnswered(s.ids.issued, s.worker)
  {
    if steps == [] {
      Worker.RunKeepsInvariant(consumers, processors, []);
      Ids.RunKeepsInv(base, []);
    } else {
      var front := steps[..|steps| - 1];
      RunKeepsInv(base, consumers, processors, front);
      var s := Exec(base, Init(consumers, processors), front).value;
      match steps[|steps| - 1]
      case WorkerStep(w) =>
        Worker.StepKeepsInvariant(s.worker, w);
        WorkerStepAnswered(s.ids.issued, s.worker, w);
      case IdStep(i) =>
        Ids.StepKeepsInv(base, s.ids, i);
        AnsweredStays(s.ids.issued, Ids.After(base, s.ids, i).issued, s.worker);
    }
  }

  // ---------- what a query answers ----------

  /** Some run goes from the one state to the other. */
  ghost predicate Leads(base: nat, s: State, t: State) {
    exists steps :: Exec(base, s, steps) == Some(t)
  }

  /** Some run of some number of consumers and processors ends here. */
  ghost predicate Reachable(base: nat, s: State) {
    exists consumers, processors :: Leads(base, Init(consumers, processors), s)
  }

  lemma ReachableKeepsInv(base: nat, s: State)
    requires Reachable(base, s)
    ensures WorkerInv(s.worker) && Ids.Inv(base, s.ids) && AllAnswered(s.ids.issued, s.worker)
  {
    var consumers, processors :| Leads(base, Init(consumers, processors), s);
    var steps :| Exec(base, Init(consumers, processors), steps) == Some(s);
    RunKeepsInv(base, consumers, processors, steps);
  }

  lemma AnswersAreInjective(base: nat, ids: Ids.State, c: string, e1: string, a1: int, e2: string, a2: int)
    requires base <= 1 && Ids.Inv(base, ids) && Ids.Dictionary(ids)
    requires Answered(ids.issued, c, e1, a1) && Answered(ids.issued, c, e2, a2)
    ensures e1 == e2 <==> a1 == a2
  {
    var id1 :| Ids.Issue(c, e1, id1) in ids.issued && a1 == ToInt32(id1);
    var id2 :| Ids.Issue(c, e2, id2) in ids.issued && a2 == ToInt32(id2);
    var x, y := Ids.Issue(c, e1, id1), Ids.Issue(c, e2, id2);
    IssuedFits(base, ids, x);
    IssuedFits(base, ids, y);
    assert x.element == y.element <==> x.id == y.id;
  }

  lemma IssuedFits(base: nat, ids: Ids.State, x: Ids.Issue)
    requires base <= 1 && Ids.Inv(base, ids) && x in ids.issued
    ensures ToInt32(x.id) == x.id
  {
    assert Ids.Sound(base, ids, x);
    PositionFits(ids.lists, x.collection, x.element);
  }

  /** The endpoint's own lookups are answered by the id service, too. */
  ghost predicate LookupAnswered(issued: set<Ids.Issue>, lookup: (string, string) -> Option<int>) {
    forall c, e :: lookup(c, e).Some? ==> Answered(issued, c, e, lookup(c, e).value)
  }

  /** A number that a key or a filter can hold. */
  predicate Usable(id: int) { 0 <= id <= 65535 }

  /** The key a processor makes from such answers is one whose ids were issued for the tag. */
  lemma AttemptIsAnswered(issued: set<Ids.Issue>, lookup: (string, string) -> Option<int>, tag: UserTag,
                          key: AggregateKey)
    requires LookupAnswered(issued, lookup) && Processor.KeyFor(lookup, tag) == Some(key)
    ensures EntryAnswered(issued, Entry(key, tag))
  {
    Processor.KeyIsHeard(lookup, tag, key);
    assert lookup(CATEGORY, tag.productInfo.categoryId).Some?;
    assert lookup(BRAND, tag.productInfo.brandId).Some? && lookup(ORIGIN, tag.origin).Some?;
  }

  /** Among the usable ids the string has one, and shares it with no other string of the
      collection. */
  ghost predicate Unambiguous(issued: set<Ids.Issue>, collection: string, element: string) {
    forall x, y :: x in issued && y in issued && x.collection == collection && y.collection == collection
                   && x.element == element && Usable(x.id) && Usable(y.id) ==>
                     (y.element == element <==> y.id == x.id)
  }

  /** So does every string the query asks for. What it does not ask for may be ambiguous. */
  ghost predicate UnambiguousFor(issued: set<Ids.Issue>, q: Params) {
    && (q.origin.Some? ==> Unambiguous(issued, ORIGIN, q.origin.value))
    && (q.brandId.Some? ==> Unambiguous(issued, BRAND, q.brandId.value))
    && (q.categoryId.Some? ==> Unambiguous(issued, CATEGORY, q.categoryId.value))
  }

  lemma DictionaryIsUnambiguous(ids: Ids.State, q: Params)
    requires Ids.Dictionary(ids)
    ensures UnambiguousFor(ids.issued, q)
  {
  }

  lemma AnswerIsIssued(base: nat, ids: Ids.State, c: string, e: string, answer: int)
    requires base <= 1 && Ids.Inv(base, ids)
    ensures Answered(ids.issued, c, e, answer) <==> Ids.Issue(c, e, answer) in ids.issued
  {
    if Answered(ids.issued, c, e, answer) {
      var id :| Ids.Issue(c, e, id) in ids.issued && answer == ToInt32(id);
      IssuedFits(base, ids, Ids.Issue(c, e, id));
    }
    if Ids.Issue(c, e, answer) in ids.issued {
      IssuedFits(base, ids, Ids.Issue(c, e, answer));
    }
  }

  lemma FilterMatchesString(base: nat, ids: Ids.State, lookup: (string, string) -> Option<int>, c: string,
                            wanted: Option<string>, e: string, id: uint16)
    requires base <= 1 && Ids.Inv(base, ids) && LookupAnswered(ids.issued, lookup)
    requires wanted.Some? ==> Unambiguous(ids.issued, c, wanted.value)
    requires Answered(ids.issued, c, e, id)
    requires FilterId(lookup, c, wanted).Ok?
    ensures CheckFilter(FilterId(lookup, c, wanted).value, id) <==> Asked(wanted, e)
  {
    if wanted.Some? {
      var asked := lookup(c, wanted.value).value;
      AnswerIsIssued(base, ids, c, wanted.value, asked);
      AnswerIsIssued(base, ids, c, e, id);
      var x, y := Ids.Issue(c, wanted.value, asked), Ids.Issue(c, e, id);
      assert x in ids.issued && y in ids.issued && Usable(x.id) && Usable(y.id);
    }
  }

  lemma FiltersMatchStrings(base: nat, ids: Ids.State, lookup: (string, string) -> Option<int>, q: Params, e: Entry)
    requires base <= 1 && Ids.Inv(base, ids) && LookupAnswered(ids.issued, lookup)
    requires UnambiguousFor(ids.issued, q)
    requires EntryAnswered(ids.issued, e)
    requires NewFilters(lookup, q).Ok?
    ensures Match(NewFilters(lookup, q).value, e.key) <==> Fits(q, e.tag)
  {
    FilterMatchesString(base, ids, lookup, ORIGIN, q.origin, e.tag.origin, e.key.origin);
    FilterMatchesString(base, ids, lookup, BRAND, q.brandId, e.tag.productInfo.brandId, e.key.brandId);
    FilterMatchesString(base, ids, lookup, CATEGORY, q.categoryId, e.tag.productInfo.categoryId, e.key.categoryId);
  }

  lemma {:induction false} ScanByIdsIsScan(log: seq<Entry>, minute: int, action: Action, f: Filters, q: Params)
    requires forall e :: e in log ==> (Match(f, e.key) <==> Fits(q, e.tag))
    ensures ScanIds(log, minute, action, f) == Scan(log, minute, action, q)
  {
    if log != [] {
      assert log[|log| - 1] in log;
      ScanByIdsIsScan(log[..|log| - 1], minute, action, f, q);
    }
  }

  /** A row of an answer: computed by the endpoint on the records of a state, for filters it
      got from the id service, whose ids for the strings of the query are unambiguous. */
  ghost predicate AnsweredRow(s: State, lookup: (string, string) -> Option<int>, q: Params, action: Action, row: Row) {
    && UnambiguousFor(s.ids.issued, q)
    && LookupAnswered(s.ids.issued, lookup)
    && NewFilters(lookup, q).Ok?
    && AnswersRow(s.worker.records, action, NewFilters(lookup, q).value, row)
  }

  lemma RunScansAgree(base: nat, s: State,
                      lookup: (string, string) -> Option<int>, q: Params, action: Action, row: Row)
    requires base <= 1 && Reachable(base, s)
    requires AnsweredRow(s, lookup, q, action, row)
    ensures var f := NewFilters(lookup, q).value;
            && s.worker.records == StoreOf(s.worker.log)
            && ScanIds(s.worker.log, ToTs(row.t), action, f) == Scan(s.worker.log, ToTs(row.t), action, q)
  {
    ReachableKeepsInv(base, s);
    forall e | e in s.worker.log ensures Match(NewFilters(lookup, q).value, e.key) <==> Fits(q, e.tag) {
      FiltersMatchStrings(base, s.ids, lookup, q, e);
    }
    ScanByIdsIsScan(s.worker.log, ToTs(row.t), action, NewFilters(lookup, q).value, q);
  }

  /** The end-to-end theorem, for one row. Take any run of any number of consumers and
      processors against the id service, as written or normalised, with requests, restarts and
      faults interleaved at will, in which the ids of the strings asked for are unambiguous, if
      any are asked for. A row the endpoint then computes, from the packed cells and by ids, is
      the naive scan of the applied tags by strings (modulo 2^64), if no cell it adds up holds
      more than 65,535 tags. */
  lemma RowEqualsScan(base: nat, s: State, lookup: (string, string) -> Option<int>, q: Params, action: Action, row: Row)
    requires base <= 1 && Reachable(base, s)
    requires AnsweredRow(s, lookup, q, action, row)
    requires SmallCells(s.worker.log, ToTs(row.t), action, NewFilters(lookup, q).value)
    ensures Shows(row, Scan(s.worker.log, ToTs(row.t), action, q))
  {
    RunScansAgree(base, s, lookup, q, action, row);
    RowIsScan(s.worker.log, action, NewFilters(lookup, q).value, row);
  }

  /** The bound of 65,535 is exact: with fewer than 2^32 tags applied in all, the row agrees
      with the scan if and only if no cell it adds up holds more. */
  lemma RowEqualsScanIff(base: nat, s: State, lookup: (string, string) -> Option<int>, q: Params,
                         action: Action, row: Row)
    requires base <= 1 && Reachable(base, s)
    requires AnsweredRow(s, lookup, q, action, row)
    requires |s.worker.log| < 0x1_0000_0000
    ensures Totals(row.sum, row.count) == Scan(s.worker.log, ToTs(row.t), action, q)
            <==> SmallCells(s.worker.log, ToTs(row.t), action, NewFilters(lookup, q).value)
  {
    RunScansAgree(base, s, lookup, q, action, row);
    RowIsScanIff(s.worker.log, action, NewFilters(lookup, q).value, row);
  }

  /** And by the clock: the k-th row of a validated range from the epoch on is the scan of the
      k-th sixty seconds after its start. Only a range that begins in minute zero needs the
      log to be free of matching tags of the last minute before the epoch. */
  lemma AnswerEqualsClockScan(base: nat, s: State, lookup: (string, string) -> Option<int>, q: Params, action: Action,
                              from: Time, to: Time, k: nat, row: Row)
    requires base <= 1 && Reachable(base, s)
    requires ValidateTimeRange(from, to).Ok? && 0 <= from
    requires k < |RowTimes(from, to)| && row.t == RowTimes(from, to)[k]
    requires AnsweredRow(s, lookup, q, action, row)
    requires SmallCells(s.worker.log, ToTs(row.t), action, NewFilters(lookup, q).value)
    requires from >= MINUTE || NoneJustBeforeEpoch(s.worker.log, action, q)
    ensures Shows(row, ScanSeconds(s.worker.log, Unix(from) + 60 * k, Unix(from) + 60 * k + 60, action, q))
  {
    RowEqualsScan(base, s, lookup, q, action, row);
    RowByTheClock(s.worker.log, from, to, k, action, q, row);
  }

  lemma RowByTheClock(log: seq<Entry>, from: Time, to: Time, k: nat, action: Action, q: Params, row: Row)
    requires ValidateTimeRange(from, to).Ok? && 0 <= from
    requires k < |RowTimes(from, to)| && row.t == RowTimes(from, to)[k]
    requires from >= MINUTE || NoneJustBeforeEpoch(log, action, q)
    requires Shows(row, Scan(log, ToTs(row.t), action, q))
    ensures Shows(row, ScanSeconds(log, Unix(from) + 60 * k, Unix(from) + 60 * k + 60, action, q))
  {
    RowStart(from, to, k);
    BucketScanIsClockScan(log, ToTs(row.t), action, q);
  }

  /** The k-th row of a validated range starts k minutes after it, on the clock as in buckets. */
  lemma RowStart(from: Time, to: Time, k: nat)
    requires ValidateTimeRange(from, to).Ok? && 0 <= from
    requires k < |RowTimes(from, to)|
    ensures from <= RowTimes(from, to)[k] < to
    ensures 60 * ToTs(RowTimes(from, to)[k]) == Unix(from) + 60 * k
    ensures ToTs(RowTimes(from, to)[k]) > 0 || from < MINUTE
  {
    ValidatedRowsAreConsecutive(from, to);
    assert Unix(from) == 60 * ToTs(from);
  }

  /** What is scanned is what was received: at rest, with nothing given up, the applied tags
      are the received ones, each as often as it came. */
  lemma AtRestAllIsApplied(base: nat, s: State, tag: UserTag)
    requires Reachable(base, s) && Worker.Quiescent(s.worker) && s.worker.exhausted == multiset{}
    ensures Worker.AppliedCopies(s.worker.log, tag) == s.worker.decoded[tag]
  {
    ReachableKeepsInv(base, s);
    assert Worker.Copies(s.worker, tag) == s.worker.decoded[tag];
    Worker.NothingHeld(s.worker.held, tag);
    Worker.NothingInFlight(s.worker.procs, tag);
  }

  // ---------- when the ids are stable ----------

  function IdStepsOf(steps: seq<Step>): seq<Ids.Step> {
    if steps == [] then []
    else
      var before, last := IdStepsOf(steps[..|steps| - 1]), steps[|steps| - 1];
      if last.IdStep? then before + [last.id] else before
  }

  /** The id service does not notice the worker. */
  lemma {:induction false} IdRunProjects(base: nat, consumers: nat, processors: nat, steps: seq<Step>)
    requires Exec(base, Init(consumers, processors), steps).Some?
    ensures Ids.Exec(base, IdStepsOf(steps)) == Some(Exec(base, Init(consumers, processors), steps).value.ids)
  {
    if steps != [] {
      var front, last := steps[..|steps| - 1], steps[|steps| - 1];
      IdRunProjects(base, consumers, processors, front);
      if last.IdStep? {
        Ids.ExecSnoc(base, IdStepsOf(front), last.id);
      }
    }
  }

  /** With id requests one at a time and no restart of the id service, the ids are stable as
      the service is written, however the worker's own steps interleave. */
  lemma SerialIdsAreStable(base: nat, consumers: nat, processors: nat, steps: seq<Step>)
    requires Exec(base, Init(consumers, processors), steps).Some?
    requires Ids.Exec(base, IdStepsOf(steps)).Some? && Ids.Serial(base, IdStepsOf(steps))
    ensures Ids.Dictionary(Exec(base, Init(consumers, processors), steps).value.ids)
  {
    IdRunProjects(base, consumers, processors, steps);
    Ids.SerialRunsNeverServeFromList(base, IdStepsOf(steps));
    Ids.DictionaryIfNormalised(base, IdStepsOf(steps));
  }

  /** With the list path normalised they are stable in every run. */
  lemma NormalisedIdsAreStable(consumers: nat, processors: nat, steps: seq<Step>)
    requires Exec(1, Init(consumers, processors), steps).Some?
    ensures Ids.Dictionary(Exec(1, Init(consumers, processors), steps).value.ids)
  {
    IdRunProjects(1, consumers, processors, steps);
    Ids.DictionaryIfNormalised(1, IdStepsOf(steps));
  }
}
