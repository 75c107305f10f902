/** What ambiguous ids do to a query. A row that disagrees with the scan although no cell has
    overflowed lies ahead of a state of the whole system if and only if some continuation
    issues an ambiguous id for a string that the query asks for. */
module Ambiguity {
  import opened GoInts
  import opened Types
  import opened KeyCodec
  import opened AggregatesDb
  import opened AggregatesQuery
  import opened IdService
  import opened QueryRefinesScan
  import opened WholeSystem
  import Ids = IdMachine
  import Worker = Pipeline

  // ---------- continuing a run ----------

  lemma LeadsNowhere(base: nat, s: State)
    ensures Leads(base, s, s)
  {
    assert Exec(base, s, []) == Some(s);
  }

  lemma LeadsOn(base: nat, s0: State, s: State, step: Step)
    requires Leads(base, s0, s) && Enabled(s, step)
    ensures Leads(base, s0, After(base, s, step))
  {
    var steps :| Exec(base, s0, steps) == Some(s);
    assert (steps + [step])[..|steps|] == steps;
    assert Exec(base, s0, steps + [step]) == Some(After(base, s, step));
  }

  lemma {:induction false} LeadsFurther(base: nat, s0: State, s: State, more: seq<Step>)
    requires Leads(base, s0, s) && Exec(base, s, more).Some?
    ensures Leads(base, s0, Exec(base, s, more).value)
  {
    if more != [] {
      var front := more[..|more| - 1];
      LeadsFurther(base, s0, s, front);
      LeadsOn(base, s0, Exec(base, s, front).value, more[|more| - 1]);
    }
  }

  lemma ReachesFurther(base: nat, s: State, t: State)
    requires Reachable(base, s) && Leads(base, s, t)
    ensures Reachable(base, t)
  {
    var consumers, processors :| Leads(base, Init(consumers, processors), s);
    var more :| Exec(base, s, more) == Some(t);
    LeadsFurther(base, Init(consumers, processors), s, more);
  }

  lemma WorkerOn(base: nat, s0: State, s: State, w: Worker.Step, worker: Worker.State)
    requires Leads(base, s0, s) && Enabled(s, WorkerStep(w)) && Worker.After(s.worker, w) == worker
    ensures Leads(base, s0, s.(worker := worker))
  {
    LeadsOn(base, s0, s, WorkerStep(w));
  }

  lemma IdsOn(base: nat, s0: State, s: State, i: Ids.Step, ids: Ids.State)
    requires Leads(base, s0, s) && Ids.Enabled(s.ids, i) && Ids.After(base, s.ids, i) == ids
    ensures Leads(base, s0, s.(ids := ids))
  {
    LeadsOn(base, s0, s, IdStep(i));
  }

  // ---------- a processor can always be made free ----------

  function WithProc(w: Worker.State, p: Worker.Proc): Worker.State
    requires |w.procs| > 0
  {
    w.(procs := w.procs[0 := p])
  }

  function GivenUp(w: Worker.State, tag: UserTag): Worker.State {
    w.(exhausted := w.exhausted + multiset{tag})
  }

  /** The first processor can give up its tag. */
  lemma BackoffEnds(base: nat, s0: State, s: State) returns (t: State)
    requires Leads(base, s0, s) && |s.worker.procs| > 0 && s.worker.procs[0].Backoff?
    ensures Leads(base, s0, t) && t == s.(worker := GivenUp(WithProc(s.worker, Worker.Idle), s.worker.procs[0].tag))
  {
    t := s.(worker := GivenUp(WithProc(s.worker, Worker.Idle), s.worker.procs[0].tag));
    WorkerOn(base, s0, s, Worker.GiveUp(0), t.worker);
  }

  lemma ProcFails(base: nat, s0: State, s: State) returns (t: State)
    requires Leads(base, s0, s) && |s.worker.procs| > 0 && !s.worker.procs[0].Idle?
    ensures Leads(base, s0, t) && t == s.(worker := WithProc(s.worker, Worker.Backoff(Worker.TagOf(s.worker.procs[0]))))
  {
    var p := s.worker.procs[0];
    t := s.(worker := WithProc(s.worker, Worker.Backoff(Worker.TagOf(p))));
    if Worker.Waiting(p) {
      WorkerOn(base, s0, s, Worker.GotId(0, None), t.worker);
    } else if p.Updating? {
      WorkerOn(base, s0, s, Worker.Update(0, false), t.worker);
    } else if p.Creating? {
      WorkerOn(base, s0, s, Worker.Create(0, false), t.worker);
    } else {
      assert t.worker.procs == s.worker.procs;
    }
  }

  /** Nothing that a query or the id service sees has changed. */
  predicate Kept(s: State, t: State) {
    && t.ids == s.ids && t.worker.records == s.worker.records && t.worker.log == s.worker.log
    && |t.worker.procs| == |s.worker.procs| && |t.worker.held| == |s.worker.held|
  }

  lemma Freed(base: nat, s0: State, s: State) returns (t: State)
    requires Leads(base, s0, s) && |s.worker.procs| > 0
    ensures Leads(base, s0, t) && Kept(s, t)
    ensures t.worker.procs[0] == Worker.Idle && t.worker.channel == s.worker.channel && t.worker.held == s.worker.held
  {
    t := s;
    if !s.worker.procs[0].Idle? {
      t := ProcFails(base, s0, s);
      t := BackoffEnds(base, s0, t);
    }
  }

  lemma {:induction false} Drained(base: nat, s0: State, s: State) returns (t: State)
    requires Leads(base, s0, s) && |s.worker.procs| > 0
    ensures Leads(base, s0, t) && Kept(s, t)
    ensures t.worker.procs[0] == Worker.Idle && t.worker.channel == [] && t.worker.held == s.worker.held
    decreases |s.worker.channel|
  {
    t := Freed(base, s0, s);
    if t.worker.channel != [] {
      var taken := WithProc(t.worker, Worker.NeedCategory(t.worker.channel[0])).(channel := t.worker.channel[1..]);
      WorkerOn(base, s0, t, Worker.Take(0), taken);
      t := Drained(base, s0, t.(worker := taken));
    }
  }

  /** From every state the first consumer, the channel and the first processor can be emptied. */
  lemma Ready(base: nat, s0: State, s: State) returns (t: State)
    requires Leads(base, s0, s) && |s.worker.procs| > 0 && |s.worker.held| > 0
    ensures Leads(base, s0, t) && Kept(s, t)
    ensures t.worker.procs[0] == Worker.Idle && t.worker.channel == [] && t.worker.held[0] == None
  {
    t := Drained(base, s0, s);
    if t.worker.held[0].Some? {
      var pushed := t.worker.(held := t.worker.held[0 := None], channel := [t.worker.held[0].value]);
      WorkerOn(base, s0, t, Worker.Push(0), pushed);
      t := Drained(base, s0, t.(worker := pushed));
    }
  }

  // ---------- a tag whose ids have been issued can always be applied ----------

  /** The tag goes from the topic to the first processor, */
  lemma Taken(base: nat, s0: State, s: State, tag: UserTag) returns (t: State)
    requires Leads(base, s0, s) && |s.worker.procs| > 0 && |s.worker.held| > 0
    ensures Leads(base, s0, t) && Kept(s, t) && t.worker.procs[0] == Worker.NeedCategory(tag)
  {
    t := Ready(base, s0, s);
    var got := t.worker.(held := t.worker.held[0 := Some(tag)], decoded := t.worker.decoded + multiset{tag});
    WorkerOn(base, s0, t, Worker.Receive(0, tag), got);
    var pushed := got.(held := got.held[0 := None], channel := [tag]);
    WorkerOn(base, s0, t.(worker := got), Worker.Push(0), pushed);
    var taken := WithProc(pushed, Worker.NeedCategory(tag)).(channel := []);
    WorkerOn(base, s0, t.(worker := pushed), Worker.Take(0), taken);
    t := t.(worker := taken);
  }

  function WithProcAt(w: Worker.State, p: nat, proc: Worker.Proc): Worker.State
    requires p < |w.procs|
  {
    w.(procs := w.procs[p := proc])
  }

  /** which asks for one id after the other, */
  lemma IdHeard(base: nat, s0: State, s: State, p: nat, id: uint16) returns (t: State)
    requires Leads(base, s0, s) && p < |s.worker.procs| && Worker.Waiting(s.worker.procs[p])
    requires var (c, e) := Worker.Wanted(s.worker.procs[p]); Answered(s.ids.issued, c, e, id)
    ensures Leads(base, s0, t) && t == s.(worker := WithProcAt(s.worker, p, Worker.WithId(s.worker.procs[p], id)))
  {
    t := s.(worker := WithProcAt(s.worker, p, Worker.WithId(s.worker.procs[p], id)));
    WorkerOn(base, s0, s, Worker.GotId(p, Some(id)), t.worker);
  }

  lemma KeyHeard(base: nat, s0: State, s: State, p: nat, e: Entry) returns (t: State)
    requires Leads(base, s0, s) && p < |s.worker.procs| && s.worker.procs[p] == Worker.NeedCategory(e.tag)
    requires EntryAnswered(s.ids.issued, e)
    ensures Leads(base, s0, t) && Kept(s, t) && t.worker.procs[p] == Worker.Updating(e)
    ensures t.worker.exhausted == s.worker.exhausted
  {
    t := IdHeard(base, s0, s, p, e.key.categoryId);
    t := IdHeard(base, s0, t, p, e.key.brandId);
    t := IdHeard(base, s0, t, p, e.key.origin);
  }

  /** and counts the tag. */
  lemma Counted(base: nat, s0: State, s: State, p: nat, e: Entry) returns (t: State)
    requires Leads(base, s0, s) && p < |s.worker.procs| && s.worker.procs[p] == Worker.NeedCategory(e.tag)
    requires EntryAnswered(s.ids.issued, e)
    ensures Leads(base, s0, t) && t.ids == s.ids && t.worker.log == s.worker.log + [e]
    ensures |t.worker.procs| == |s.worker.procs| && t.worker.procs[p] == Worker.Idle
    ensures t.worker.exhausted == s.worker.exhausted
  {
    t := KeyHeard(base, s0, s, p, e);
    if Name(e) !in t.worker.records {
      var creating := WithProcAt(t.worker, p, Worker.Creating(e));
      WorkerOn(base, s0, t, Worker.Update(p, true), creating);
      t := t.(worker := creating);
      var created := Worker.After(t.worker, Worker.Create(p, true));
      WorkerOn(base, s0, t, Worker.Create(p, true), created);
      t := t.(worker := created);
    } else {
      var updated := Worker.After(t.worker, Worker.Update(p, true));
      WorkerOn(base, s0, t, Worker.Update(p, true), updated);
      t := t.(worker := updated);
    }
  }

  lemma Applied(base: nat, s0: State, s: State, e: Entry) returns (t: State)
    requires Leads(base, s0, s) && |s.worker.procs| > 0 && |s.worker.held| > 0
    requires EntryAnswered(s.ids.issued, e)
    ensures Leads(base, s0, t) && t.ids == s.ids && t.worker.log == s.worker.log + [e]
  {
    t := Taken(base, s0, s, e.tag);
    t := Counted(base, s0, t, 0, e);
  }

  /** A tag whose attempt has failed is not lost: the same processor can retry and count it. */
  lemma Retried(base: nat, s0: State, s: State, p: nat, e: Entry) returns (t: State)
    requires Leads(base, s0, s) && p < |s.worker.procs| && s.worker.procs[p] == Worker.Backoff(e.tag)
    requires EntryAnswered(s.ids.issued, e)
    ensures Leads(base, s0, After(base, s, WorkerStep(Worker.Retry(p))))
    ensures Leads(base, After(base, s, WorkerStep(Worker.Retry(p))), t)
    ensures t.ids == s.ids && t.worker.log == s.worker.log + [e]
    ensures |t.worker.procs| == |s.worker.procs| && t.worker.procs[p] == Worker.Idle
    ensures t.worker.exhausted == s.worker.exhausted
  {
    LeadsOn(base, s0, s, WorkerStep(Worker.Retry(p)));
    Worker.BackoffRetriesOrGivesUp(s.worker, p);
    var again := After(base, s, WorkerStep(Worker.Retry(p)));
    LeadsNowhere(base, again);
    t := Counted(base, again, again, p, e);
  }

  // ---------- some usable id of a collection can always be issued ----------

  lemma {:induction false} Above(taken: set<nat>) returns (r: nat)
    ensures forall x :: x in taken ==> x < r
    decreases |taken|
  {
    r := 0;
    if taken != {} {
      var x :| x in taken;
      var rest := taken - {x};
      r := Above(rest);
      assert forall y :: y in taken ==> y in rest || y == x;
      r := if x < r then r else x + 1;
    }
  }

  lemma Missed(base: nat, s0: State, s: State, c: string, e: string, r: nat) returns (t: State)
    requires Leads(base, s0, s) && r !in s.ids.reqs && CheckInCache(s.ids.cache, c, e) == None
    ensures Leads(base, s0, t) && t == s.(ids := Ids.Under(s.ids, r, Ids.Reading(c, e, true)))
  {
    var checking := Ids.Under(s.ids, r, Ids.Checking(c, e, true));
    IdsOn(base, s0, s, Ids.Start(r, c, e, true), checking);
    var reading := Ids.Under(s.ids, r, Ids.Reading(c, e, true));
    IdsOn(base, s0, s.(ids := checking), Ids.Check(r), reading);
    t := s.(ids := reading);
  }

  ghost predicate ReadyToSave(s: State, r: nat, c: string, e: string, id: int) {
    r in s.ids.reqs && s.ids.reqs[r].Saving? && s.ids.reqs[r].collection == c && s.ids.reqs[r].element == e
    && s.ids.reqs[r].id == id
  }

  /** A request for the first element of a collection, up to its save: if there is none yet it
      is appended, */
  lemma FirstAppended(base: nat, s0: State, s: State, c: string, e: string, r: nat) returns (t: State)
    requires Leads(base, s0, s) && r !in s.ids.reqs && CheckInCache(s.ids.cache, c, e) == None
    requires ListOf(s.ids.lists, c) == []
    ensures Leads(base, s0, t) && t.worker == s.worker && t.ids.issued == s.ids.issued && ReadyToSave(t, r, c, e, 1)
  {
    t := Missed(base, s0, s, c, e, r);
    var appending := Ids.Under(s.ids, r, Ids.Appending(c, e));
    IdsOn(base, s0, t, Ids.Read(r, true), appending);
    var appended := Ids.Appended(s.ids, r, c, e);
    IdsOn(base, s0, s.(ids := appending), Ids.AppendNew(r, true), appended);
    t := s.(ids := appended);
  }

  /** otherwise it is found at index 0. */
  lemma FirstFound(base: nat, s0: State, s: State, c: string, e: string, r: nat) returns (t: State)
    requires Leads(base, s0, s) && r !in s.ids.reqs && CheckInCache(s.ids.cache, c, e) == None
    requires Placed(s.ids.lists, c, e) && Position(s.ids.lists, c, e) == 0
    ensures Leads(base, s0, t) && t.worker == s.worker && t.ids.issued == s.ids.issued && ReadyToSave(t, r, c, e, base)
  {
    t := Missed(base, s0, s, c, e, r);
    var found := Ids.Under(s.ids, r, Ids.Saving(c, e, base, true));
    IdsOn(base, s0, t, Ids.Read(r, true), found);
    t := s.(ids := found);
  }

  lemma SomeId(base: nat, s0: State, s: State, c: string) returns (t: State, e: string, id: uint16)
    requires Leads(base, s0, s) && base <= 1 && Ids.Inv(base, s.ids)
    ensures Leads(base, s0, t) && t.worker == s.worker && s.ids.issued <= t.ids.issued
    ensures Ids.Issue(c, e, id) in t.ids.issued
  {
    var list := ListOf(s.ids.lists, c);
    e := if list == [] then "" else list[0];
    var cached := CheckInCache(s.ids.cache, c, e);
    if cached.Some? {
      assert Ids.Sound(base, s.ids, Ids.Issue(c, e, cached.value));
      t, id := s, cached.value;
    } else {
      var r := Above(s.ids.reqs.Keys);
      if list == [] {
        id := 1;
        t := FirstAppended(base, s0, s, c, e, r);
      } else {
        id := base;
        t := FirstFound(base, s0, s, c, e, r);
      }
      var saved := Ids.After(base, t.ids, Ids.Save(r));
      IdsOn(base, s0, t, Ids.Save(r), saved);
      t := t.(ids := saved);
    }
  }

  // ---------- an ambiguous id makes a wrong row ----------

  /** A row the endpoint can give, with no cell overflowed, that does not show the scan. */
  ghost predicate WrongRow(s: State, lookup: (string, string) -> Option<int>, q: Params, action: Action, row: Row) {
    && LookupAnswered(s.ids.issued, lookup)
    && NewFilters(lookup, q).Ok?
    && AnswersRow(s.worker.records, action, NewFilters(lookup, q).value, row)
    && SmallCells(s.worker.log, ToTs(row.t), action, NewFilters(lookup, q).value)
    && !Shows(row, Scan(s.worker.log, ToTs(row.t), action, q))
  }

  /** Every cell of the minute can take one more tag. */
  ghost predicate Room(log: seq<Entry>, t: Time, action: Action) {
    forall key :: |PricesOf(log, ToKey(ToTs(t), key), action)| < 65535
  }

  /** One more tag that counts for the row but not for the scan, or the other way round, makes
      the row wrong, if it was not wrong before. */
  lemma MismatchMiscounts(base: nat, s0: State, s: State, lookup: (string, string) -> Option<int>, q: Params, e: Entry)
    returns (t: State, row: Row)
    requires Reachable(base, s0) && Leads(base, s0, s) && |s.worker.procs| > 0 && |s.worker.held| > 0
    requires LookupAnswered(s.ids.issued, lookup) && NewFilters(lookup, q).Ok?
    requires EntryAnswered(s.ids.issued, e) && Room(s.worker.log, e.tag.time, e.tag.action)
    requires Match(NewFilters(lookup, q).value, e.key) != Fits(q, e.tag)
    ensures Leads(base, s0, t) && row.t == e.tag.time && WrongRow(t, lookup, q, e.tag.action, row)
  {
    var f := NewFilters(lookup, q).value;
    t := s;
    row := RightById(base, s0, s, f, e.tag.time, e.tag.action);
    if Shows(row, Scan(s.worker.log, ToTs(row.t), e.tag.action, q)) {
      t := Applied(base, s0, s, e);
      RoomForOne(s.worker.log, e);
      row := RightById(base, s0, t, f, e.tag.time, e.tag.action);
      OneCountsMore(s.worker.log, e, q, f);
    }
  }

  lemma RightById(base: nat, s0: State, s: State, f: Filters, t: Time, action: Action) returns (row: Row)
    requires Reachable(base, s0) && Leads(base, s0, s)
    requires SmallCells(s.worker.log, ToTs(t), action, f)
    ensures row.t == t && AnswersRow(s.worker.records, action, f, row)
    ensures Shows(row, ScanIds(s.worker.log, ToTs(t), action, f))
  {
    ReachesFurther(base, s0, s);
    ReachableKeepsInv(base, s);
    row := ScanHasARow(s.worker.log, f, t, action);
  }

  lemma RoomForOne(log: seq<Entry>, e: Entry)
    requires Room(log, e.tag.time, e.tag.action)
    ensures forall f :: SmallCells(log + [e], ToTs(e.tag.time), e.tag.action, f)
  {
    forall key ensures SmallCell(log + [e], ToKey(ToTs(e.tag.time), key), e.tag.action) {
      PricesSnoc(log, e, ToKey(ToTs(e.tag.time), key), e.tag.action);
    }
  }

  lemma OneCountsMore(log: seq<Entry>, e: Entry, q: Params, f: Filters)
    requires Match(f, e.key) != Fits(q, e.tag)
    ensures var minute, action := ToTs(e.tag.time), e.tag.action;
            ToUint64(ScanIds(log, minute, action, f).count) == ToUint64(Scan(log, minute, action, q).count) ==>
              ToUint64(ScanIds(log + [e], minute, action, f).count)
              != ToUint64(Scan(log + [e], minute, action, q).count)
  {
    assert (log + [e])[..|log|] == log;
  }

  /** What a tag has in one dimension: a string, an id it is counted under, and the id of the
      string that the query asks for, if it asks for one. */
  datatype Choice = Choice(element: string, id: uint16, asked: uint16)

  ghost predicate Chosen(issued: set<Ids.Issue>, c: string, wanted: Option<string>, choice: Choice) {
    && Ids.Issue(c, choice.element, choice.id) in issued
    && (wanted.Some? ==> Ids.Issue(c, wanted.value, choice.asked) in issued)
  }

  /** Whether string and id give the same answer to the query. */
  predicate Consistent(wanted: Option<string>, choice: Choice) {
    wanted.Some? ==> (choice.element == wanted.value <==> choice.id == choice.asked)
  }

  /** Whether both agree with the query. */
  predicate Agrees(wanted: Option<string>, choice: Choice) {
    wanted.Some? ==> choice.element == wanted.value && choice.id == choice.asked
  }

  ghost predicate HasId(issued: set<Ids.Issue>, c: string, e: string) {
    exists x :: x in issued && x.collection == c && x.element == e && Usable(x.id)
  }

  /** Every string of the query has an id to filter by. */
  ghost predicate Answerable(issued: set<Ids.Issue>, q: Params) {
    && (q.origin.Some? ==> HasId(issued, ORIGIN, q.origin.value))
    && (q.brandId.Some? ==> HasId(issued, BRAND, q.brandId.value))
    && (q.categoryId.Some? ==> HasId(issued, CATEGORY, q.categoryId.value))
  }

  /** The query can be asked, and one of its strings has two usable ids or one that another
      string of the collection has as well. */
  ghost predicate Ambiguous(issued: set<Ids.Issue>, q: Params) {
    Answerable(issued, q) && !UnambiguousFor(issued, q)
  }

  lemma ChooseAgreeing(base: nat, s0: State, s: State, c: string, wanted: Option<string>)
    returns (t: State, choice: Choice)
    requires Leads(base, s0, s) && base <= 1 && Reachable(base, s0)
    requires wanted.Some? ==> HasId(s.ids.issued, c, wanted.value)
    ensures Leads(base, s0, t) && t.worker == s.worker && s.ids.issued <= t.ids.issued
    ensures Chosen(t.ids.issued, c, wanted, choice) && Agrees(wanted, choice)
  {
    if wanted.Some? {
      var x :| x in s.ids.issued && x.collection == c && x.element == wanted.value && Usable(x.id);
      t, choice := s, Choice(wanted.value, x.id, x.id);
    } else {
      ReachesFurther(base, s0, s);
      ReachableKeepsInv(base, s);
      var e, id;
      t, e, id := SomeId(base, s0, s, c);
      choice := Choice(e, id, 0);
    }
  }

  lemma ChooseClash(issued: set<Ids.Issue>, c: string, wanted: string) returns (choice: Choice)
    requires !Unambiguous(issued, c, wanted)
    ensures Chosen(issued, c, Some(wanted), choice) && !Consistent(Some(wanted), choice)
  {
    var x, y :| x in issued && y in issued && x.collection == c && y.collection == c
                && x.element == wanted && Usable(x.id) && Usable(y.id)
                && !(y.element == wanted <==> y.id == x.id);
    choice := Choice(y.element, y.id, x.id);
  }

  function LookupOf(q: Params, o: Choice, b: Choice, k: Choice): (string, string) -> Option<int> {
    (c, e) => if c == ORIGIN && q.origin == Some(e) then Some(o.asked)
              else if c == BRAND && q.brandId == Some(e) then Some(b.asked)
              else if c == CATEGORY && q.categoryId == Some(e) then Some(k.asked)
              else None
  }

  function TagOf(t: Time, action: Action, o: Choice, b: Choice, k: Choice): UserTag {
    UserTag(t, "", "", Pc, action, o.element, ProductInfo(0, b.element, k.element, 0))
  }

  /** Exactly one dimension of the three is inconsistent, the others agree with the query. */
  predicate OneClash(q: Params, o: Choice, b: Choice, k: Choice) {
    || (!Consistent(q.origin, o) && Agrees(q.brandId, b) && Agrees(q.categoryId, k))
    || (Agrees(q.origin, o) && !Consistent(q.brandId, b) && Agrees(q.categoryId, k))
    || (Agrees(q.origin, o) && Agrees(q.brandId, b) && !Consistent(q.categoryId, k))
  }

  lemma ClashMismatches(q: Params, t: Time, action: Action, o: Choice, b: Choice, k: Choice)
    requires OneClash(q, o, b, k)
    ensures var filters := NewFilters(LookupOf(q, o, b, k), q);
            filters.Ok?
            && Match(filters.value, AggregateKey(k.id, b.id, o.id)) != Fits(q, TagOf(t, action, o, b, k))
  {
  }

  lemma ChoicesAnswered(issued: set<Ids.Issue>, q: Params, t: Time, action: Action, o: Choice, b: Choice, k: Choice)
    requires Chosen(issued, ORIGIN, q.origin, o) && Chosen(issued, BRAND, q.brandId, b)
    requires Chosen(issued, CATEGORY, q.categoryId, k)
    ensures LookupAnswered(issued, LookupOf(q, o, b, k))
    ensures EntryAnswered(issued, Entry(AggregateKey(k.id, b.id, o.id), TagOf(t, action, o, b, k)))
  {
    forall c, e, id: uint16 | Ids.Issue(c, e, id) in issued ensures Answered(issued, c, e, id) {
      assert ToInt32(id) == id;
    }
  }

  /** In whatever state an ambiguity has come up, and for whatever minute with room in its
      cells: some continuation has a wrong row for that minute. */
  lemma AmbiguityMiscounts(base: nat, s0: State, s: State, q: Params, t: Time, action: Action)
    returns (end: State, lookup: (string, string) -> Option<int>, row: Row)
    requires base <= 1 && Reachable(base, s0) && Leads(base, s0, s) && |s.worker.procs| > 0 && |s.worker.held| > 0
    requires Ambiguous(s.ids.issued, q) && Room(s.worker.log, t, action)
    ensures Leads(base, s0, end) && row.t == t && WrongRow(end, lookup, q, action, row)
  {
    var ready, o, b, k := ChooseAll(base, s0, s, q);
    lookup := LookupOf(q, o, b, k);
    ClashMismatches(q, t, action, o, b, k);
    ChoicesAnswered(ready.ids.issued, q, t, action, o, b, k);
    var e := Entry(AggregateKey(k.id, b.id, o.id), TagOf(t, action, o, b, k));
    end, row := MismatchMiscounts(base, s0, ready, lookup, q, e);
  }

  lemma ChooseAll(base: nat, s0: State, s: State, q: Params) returns (t: State, o: Choice, b: Choice, k: Choice)
    requires base <= 1 && Reachable(base, s0) && Leads(base, s0, s) && Ambiguous(s.ids.issued, q)
    ensures Leads(base, s0, t) && t.worker == s.worker
    ensures Chosen(t.ids.issued, ORIGIN, q.origin, o) && Chosen(t.ids.issued, BRAND, q.brandId, b)
    ensures Chosen(t.ids.issued, CATEGORY, q.categoryId, k) && OneClash(q, o, b, k)
  {
    t, o := ChooseAgreeing(base, s0, s, ORIGIN, q.origin);
    t, b := ChooseAgreeing(base, s0, t, BRAND, q.brandId);
    t, k := ChooseAgreeing(base, s0, t, CATEGORY, q.categoryId);
    if q.origin.Some? && !Unambiguous(s.ids.issued, ORIGIN, q.origin.value) {
      o := ChooseClash(s.ids.issued, ORIGIN, q.origin.value);
    } else if q.brandId.Some? && !Unambiguous(s.ids.issued, BRAND, q.brandId.value) {
      b := ChooseClash(s.ids.issued, BRAND, q.brandId.value);
    } else {
      k := ChooseClash(s.ids.issued, CATEGORY, q.categoryId.value);
    }
  }

  // ---------- and nothing else does ----------

  /** A wrong row needs an ambiguous id. */
  lemma WrongRowIsAmbiguous(base: nat, s: State, lookup: (string, string) -> Option<int>, q: Params, action: Action,
                            row: Row)
    requires base <= 1 && Reachable(base, s) && WrongRow(s, lookup, q, action, row)
    ensures Ambiguous(s.ids.issued, q)
  {
    if UnambiguousFor(s.ids.issued, q) {
      RowEqualsScan(base, s, lookup, q, action, row);
    }
    ReachableKeepsInv(base, s);
    LookedUpHasId(base, s.ids, lookup, ORIGIN, q.origin);
    LookedUpHasId(base, s.ids, lookup, BRAND, q.brandId);
    LookedUpHasId(base, s.ids, lookup, CATEGORY, q.categoryId);
  }

  lemma LookedUpHasId(base: nat, ids: Ids.State, lookup: (string, string) -> Option<int>, c: string,
                      wanted: Option<string>)
    requires base <= 1 && Ids.Inv(base, ids) && LookupAnswered(ids.issued, lookup) && FilterId(lookup, c, wanted).Ok?
    ensures wanted.Some? ==> HasId(ids.issued, c, wanted.value)
  {
    if wanted.Some? {
      var asked := lookup(c, wanted.value).value;
      AnswerIsIssued(base, ids, c, wanted.value, asked);
      assert Ids.Issue(c, wanted.value, asked) in ids.issued && Usable(asked);
    }
  }

  /** The steps of the id service in a run can be taken without the worker's. */
  lemma {:induction false} IdsAlone(base: nat, s: State, steps: seq<Step>)
    requires Exec(base, s, steps).Some?
    ensures Leads(base, s, State(s.worker, Exec(base, s, steps).value.ids))
  {
    if steps == [] {
      LeadsNowhere(base, s);
    } else {
      var front, last := steps[..|steps| - 1], steps[|steps| - 1];
      IdsAlone(base, s, front);
      if last.IdStep? {
        LeadsOn(base, s, State(s.worker, Exec(base, s, front).value.ids), last);
      }
    }
  }

  ghost predicate WrongRowAhead(base: nat, s: State, q: Params, t: Time, action: Action) {
    exists end, lookup, row :: Leads(base, s, end) && WrongRow(end, lookup, q, action, row) && row.t == t
  }

  ghost predicate AmbiguityAhead(base: nat, s: State, q: Params) {
    exists end :: Leads(base, s, end) && Ambiguous(end.ids.issued, q)
  }

  /** The exact condition of the end-to-end theorem on ids, as written and normalised: from any
      reachable state with a consumer and a processor, for any query and any minute with room in
      its cells, a continuation with a wrong row exists just when one exists that issues an
      ambiguous id for a string of the query. */
  lemma WrongRowIffAmbiguity(base: nat, s: State, q: Params, t: Time, action: Action)
    requires base <= 1 && Reachable(base, s) && |s.worker.procs| > 0 && |s.worker.held| > 0
    requires Room(s.worker.log, t, action)
    ensures WrongRowAhead(base, s, q, t, action) <==> AmbiguityAhead(base, s, q)
  {
    if WrongRowAhead(base, s, q, t, action) {
      var end, lookup, row :| Leads(base, s, end) && WrongRow(end, lookup, q, action, row) && row.t == t;
      ReachesFurther(base, s, end);
      WrongRowIsAmbiguous(base, end, lookup, q, action, row);
    }
    if AmbiguityAhead(base, s, q) {
      var mid :| Leads(base, s, mid) && Ambiguous(mid.ids.issued, q);
      var steps :| Exec(base, s, steps) == Some(mid);
      IdsAlone(base, s, steps);
      var end, lookup, row := AmbiguityMiscounts(base, s, State(s.worker, mid.ids), q, t, action);
    }
  }
}
