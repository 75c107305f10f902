/** The worker: consumers feed a bounded channel, processors empty it, and every processor
    runs the same protocol a tag at a time: three ids, an update, if need be a creation, and
    on any error the whole attempt again or not at all. Processors and consumers interleave
    freely between their atomic steps. */
module Pipeline {
  import opened GoInts
  import opened Types
  import opened KeyCodec
  import opened AggregatesDb
  import opened IdService

  const CHAN_SIZE: nat := 1024

  /** What a processor is about to do. */
  datatype Proc =
    | Idle
    | NeedCategory(tag: UserTag)
    | NeedBrand(tag: UserTag, category: uint16)
    | NeedOrigin(tag: UserTag, category: uint16, brand: uint16)
    | Updating(e: Entry)
    | Creating(e: Entry)
    | Backoff(tag: UserTag)

  /** The tag a busy processor works on. */
  function TagOf(p: Proc): UserTag
    requires !p.Idle?
  {
    match p
    case NeedCategory(tag) => tag
    case NeedBrand(tag, _) => tag
    case NeedOrigin(tag, _, _) => tag
    case Updating(e) => e.tag
    case Creating(e) => e.tag
    case Backoff(tag) => tag
  }

  predicate Waiting(p: Proc) { p.NeedCategory? || p.NeedBrand? || p.NeedOrigin? }

  /** The collection and the element of the id a processor waits for. */
  function Wanted(p: Proc): (string, string)
    requires Waiting(p)
  {
    match p
    case NeedCategory(tag) => (CATEGORY, tag.productInfo.categoryId)
    case NeedBrand(tag, _) => (BRAND, tag.productInfo.brandId)
    case NeedOrigin(tag, _, _) => (ORIGIN, tag.origin)
  }

  function WithId(p: Proc, id: uint16): Proc
    requires Waiting(p)
  {
    match p
    case NeedCategory(tag) => NeedBrand(tag, id)
    case NeedBrand(tag, category) => NeedOrigin(tag, category, id)
    case NeedOrigin(tag, category, brand) => Updating(Entry(AggregateKey(category, brand, id), tag))
  }

  /** `log` lists the tags whose write succeeded, `decoded` every message that could be
      decoded, `exhausted` the tags given up on. */
  datatype State = State(
    held: seq<Option<UserTag>>,
    channel: seq<UserTag>,
    procs: seq<Proc>,
    records: Records,
    log: seq<Entry>,
    decoded: multiset<UserTag>,
    exhausted: multiset<UserTag>
  )

  datatype Step =
    | Receive(c: nat, tag: UserTag)
    | Push(c: nat)
    | Take(p: nat)
    | GotId(p: nat, answer: Option<int>)
    | Update(p: nat, up: bool)
    | Create(p: nat, up: bool)
    | Retry(p: nat)
    | GiveUp(p: nat)

  predicate Enabled(s: State, step: Step) {
    match step
    case Receive(c, _) => c < |s.held| && s.held[c] == None
    case Push(c) => c < |s.held| && s.held[c].Some? && |s.channel| < CHAN_SIZE
    case Take(p) => p < |s.procs| && s.procs[p] == Idle && s.channel != []
    case GotId(p, _) => p < |s.procs| && Waiting(s.procs[p])
    case Update(p, _) => p < |s.procs| && s.procs[p].Updating?
    case Create(p, _) => p < |s.procs| && s.procs[p].Creating?
    case Retry(p) => p < |s.procs| && s.procs[p].Backoff?
    case GiveUp(p) => p < |s.procs| && s.procs[p].Backoff?
  }

  function After(s: State, step: Step): State
    requires Enabled(s, step)
  {
    match step
    case Receive(c, tag) => s.(held := s.held[c := Some(tag)], decoded := s.decoded + multiset{tag})
    case Push(c) => s.(held := s.held[c := None], channel := s.channel + [s.held[c].value])
    case Take(p) => s.(procs := s.procs[p := NeedCategory(s.channel[0])], channel := s.channel[1..])
    case GotId(p, answer) =>
      var id := GetU16ID(answer);
      s.(procs := s.procs[p := if id.Some? then WithId(s.procs[p], id.value) else Backoff(TagOf(s.procs[p]))])
    case Update(p, up) =>
      var e := s.procs[p].e;
      var (records, result) := UpdateOnlyAdd(s.records, Name(e), e.tag.action, Delta(e), up);
      Written(s, p, e, records, result)
    case Create(p, up) =>
      var e := s.procs[p].e;
      var (records, result) := CreateOnlyPut(s.records, Name(e), ToTs(e.tag.time), e.tag.action, Delta(e), up);
      Written(s, p, e, records, result)
    case Retry(p) => s.(procs := s.procs[p := NeedCategory(s.procs[p].tag)])
    case GiveUp(p) => s.(procs := s.procs[p := Idle], exhausted := s.exhausted + multiset{s.procs[p].tag})
  }

  /** How a processor goes on after a write. */
  function Written(s: State, p: nat, e: Entry, records: Records, result: OpResult): State
    requires p < |s.procs|
  {
    match result
    case Done => s.(procs := s.procs[p := Idle], records := records, log := s.log + [e])
    case KeyNotFound => s.(procs := s.procs[p := Creating(e)], records := records)
    case KeyExists => s.(procs := s.procs[p := Backoff(e.tag)], records := records)
    case Unavailable => s.(procs := s.procs[p := Backoff(e.tag)], records := records)
  }

  function Init(consumers: nat, processors: nat): State {
    State(seq(consumers, _ => None), [], seq(processors, _ => Idle), map[], [], multiset{}, multiset{})
  }

  /** The state after a run, if every step of it was enabled. */
  function Exec(s: State, steps: seq<Step>): Option<State> {
    if steps == [] then Some(s)
    else
      var before := Exec(s, steps[..|steps| - 1]);
      if before.Some? && Enabled(before.value, steps[|steps| - 1])
      then Some(After(before.value, steps[|steps| - 1]))
      else None
  }

  // ---------- conservation ----------

  function HeldCopies(held: seq<Option<UserTag>>, tag: UserTag): nat {
    if held == [] then 0
    else HeldCopies(held[..|held| - 1], tag) + (if held[|held| - 1] == Some(tag) then 1 else 0)
  }

  predicate WorksOn(p: Proc, tag: UserTag) { !p.Idle? && TagOf(p) == tag }

  function ProcCopies(procs: seq<Proc>, tag: UserTag): nat {
    if procs == [] then 0
    else ProcCopies(procs[..|procs| - 1], tag) + (if WorksOn(procs[|procs| - 1], tag) then 1 else 0)
  }

  function AppliedCopies(log: seq<Entry>, tag: UserTag): nat {
    if log == [] then 0
    else AppliedCopies(log[..|log| - 1], tag) + (if log[|log| - 1].tag == tag then 1 else 0)
  }

  /** How often a tag is in a consumer's hand, in the channel, with a processor, applied, or
      given up. */
  function Copies(s: State, tag: UserTag): nat {
    HeldCopies(s.held, tag) + multiset(s.channel)[tag] + ProcCopies(s.procs, tag)
    + AppliedCopies(s.log, tag) + s.exhausted[tag]
  }

  /** Every tag is in those places exactly as often as it was received. */
  ghost predicate Conserved(s: State) {
    forall tag :: Copies(s, tag) == s.decoded[tag]
  }

  lemma {:induction false} HeldChanges(held: seq<Option<UserTag>>, c: nat, h: Option<UserTag>, tag: UserTag)
    requires c < |held|
    ensures HeldCopies(held[c := h], tag) + (if held[c] == Some(tag) then 1 else 0)
            == HeldCopies(held, tag) + (if h == Some(tag) then 1 else 0)
  {
    var last := |held| - 1;
    if c == last {
      assert held[c := h][..last] == held[..last];
    } else {
      HeldChanges(held[..last], c, h, tag);
      assert held[c := h][..last] == held[..last][c := h];
    }
  }

  lemma {:induction false} ProcChanges(procs: seq<Proc>, p: nat, q: Proc, tag: UserTag)
    requires p < |procs|
    ensures ProcCopies(procs[p := q], tag) + (if WorksOn(procs[p], tag) then 1 else 0)
            == ProcCopies(procs, tag) + (if WorksOn(q, tag) then 1 else 0)
  {
    var last := |procs| - 1;
    if p == last {
      assert procs[p := q][..last] == procs[..last];
    } else {
      ProcChanges(procs[..last], p, q, tag);
      assert procs[p := q][..last] == procs[..last][p := q];
    }
  }

  lemma ConsumerConserves(s: State, step: Step, tag: UserTag)
    requires Enabled(s, step) && (step.Receive? || step.Push?)
    requires Copies(s, tag) == s.decoded[tag]
    ensures Copies(After(s, step), tag) == After(s, step).decoded[tag]
  {
    HeldChanges(s.held, step.c, After(s, step).held[step.c], tag);
  }

  lemma TakeConserves(s: State, step: Step, tag: UserTag)
    requires Enabled(s, step) && step.Take?
    requires Copies(s, tag) == s.decoded[tag]
    ensures Copies(After(s, step), tag) == After(s, step).decoded[tag]
  {
    ProcChanges(s.procs, step.p, NeedCategory(s.channel[0]), tag);
    assert s.channel == [s.channel[0]] + s.channel[1..];
  }

  lemma WriteConserves(s: State, p: nat, e: Entry, records: Records, result: OpResult, tag: UserTag)
    requires p < |s.procs| && !s.procs[p].Idle? && TagOf(s.procs[p]) == e.tag
    requires Copies(s, tag) == s.decoded[tag]
    ensures Copies(Written(s, p, e, records, result), tag) == Written(s, p, e, records, result).decoded[tag]
  {
    ProcChanges(s.procs, p, Written(s, p, e, records, result).procs[p], tag);
    assert (s.log + [e])[..|s.log|] == s.log;
  }

  lemma OtherConserves(s: State, step: Step, tag: UserTag)
    requires Enabled(s, step) && (step.GotId? || step.Retry? || step.GiveUp?)
    requires Copies(s, tag) == s.decoded[tag]
    ensures Copies(After(s, step), tag) == After(s, step).decoded[tag]
  {
    ProcChanges(s.procs, step.p, After(s, step).procs[step.p], tag);
  }

  lemma StepConserves(s: State, step: Step)
    requires Enabled(s, step) && Conserved(s)
    ensures Conserved(After(s, step))
  {
    forall tag ensures Copies(After(s, step), tag) == After(s, step).decoded[tag] {
      match step
      case Receive(_, _) => ConsumerConserves(s, step, tag);
      case Push(_) => ConsumerConserves(s, step, tag);
      case Take(_) => TakeConserves(s, step, tag);
      case Update(p, up) =>
        var e := s.procs[p].e;
        var (records, result) := UpdateOnlyAdd(s.records, Name(e), e.tag.action, Delta(e), up);
        WriteConserves(s, p, e, records, result, tag);
      case Create(p, up) =>
        var e := s.procs[p].e;
        var (records, result) := CreateOnlyPut(s.records, Name(e), ToTs(e.tag.time), e.tag.action, Delta(e), up);
        WriteConserves(s, p, e, records, result, tag);
      case _ => OtherConserves(s, step, tag);
    }
  }

  // ---------- no lost and no doubled updates ----------

  /** A write that is done lands its entry; any other changes nothing. */
  lemma WriteLands(records: Records, e: Entry, up: bool)
    ensures var (updated, result) := UpdateOnlyAdd(records, Name(e), e.tag.action, Delta(e), up);
            updated == if result == Done then Land(records, e) else records
    ensures var (created, result) := CreateOnlyPut(records, Name(e), ToTs(e.tag.time), e.tag.action, Delta(e), up);
            created == if result == Done then Land(records, e) else records
  {
  }

  /** Only the write that succeeds changes the records, and it lands its entry. */
  lemma StepLands(s: State, step: Step)
    requires Enabled(s, step)
    ensures var s' := After(s, step);
            (s'.log == s.log && s'.records == s.records)
            || ((step.Update? || step.Create?) && s'.log == s.log + [s.procs[step.p].e]
                && s'.records == Land(s.records, s.procs[step.p].e))
  {
    match step
    case Update(p, up) => WriteLands(s.records, s.procs[p].e, up);
    case Create(p, up) => WriteLands(s.records, s.procs[p].e, up);
    case _ =>
  }

  lemma ChannelStaysBounded(s: State, step: Step)
    requires Enabled(s, step) && |s.channel| <= CHAN_SIZE
    ensures |After(s, step).channel| <= CHAN_SIZE
  {
  }

  lemma StoreSnoc(log: seq<Entry>, e: Entry)
    ensures StoreOf(log + [e]) == Land(StoreOf(log), e)
  {
    assert (log + [e])[..|log|] == log;
  }

  /** In every run of any number of consumers and processors: the records are what the
      successful tags make of an empty set, no tag is lost or doubled, and the channel never
      holds more than its capacity. */
  lemma {:induction false} RunKeepsInvariant(consumers: nat, processors: nat, steps: seq<Step>)
    ensures var end := Exec(Init(consumers, processors), steps);
            end.Some? ==> && end.value.records == StoreOf(end.value.log)
                          && Conserved(end.value)
                          && |end.value.channel| <= 1024
  {
    if steps == [] {
      var s := Init(consumers, processors);
      forall tag ensures Copies(s, tag) == 0 {
        NothingHeld(s.held, tag);
        NothingInFlight(s.procs, tag);
      }
    } else {
      var front, step := steps[..|steps| - 1], steps[|steps| - 1];
      RunKeepsInvariant(consumers, processors, front);
      var before := Exec(Init(consumers, processors), front);
      if before.Some? && Enabled(before.value, step) {
        StepKeepsInvariant(before.value, step);
      }
    }
  }

  lemma StepKeepsInvariant(s: State, step: Step)
    requires Enabled(s, step)
    requires s.records == StoreOf(s.log) && Conserved(s) && |s.channel| <= CHAN_SIZE
    ensures var s' := After(s, step); s'.records == StoreOf(s'.log) && Conserved(s') && |s'.channel| <= CHAN_SIZE
  {
    StepConserves(s, step);
    ChannelStaysBounded(s, step);
    StepLands(s, step);
    if step.Update? || step.Create? {
      StoreSnoc(s.log, s.procs[step.p].e);
    }
  }

  lemma {:induction false} NothingHeld(held: seq<Option<UserTag>>, tag: UserTag)
    requires forall c :: 0 <= c < |held| ==> held[c] == None
    ensures HeldCopies(held, tag) == 0
  {
    if held != [] {
      NothingHeld(held[..|held| - 1], tag);
    }
  }

  lemma {:induction false} NothingInFlight(procs: seq<Proc>, tag: UserTag)
    requires forall p :: 0 <= p < |procs| ==> procs[p] == Idle
    ensures ProcCopies(procs, tag) == 0
  {
    if procs != [] {
      NothingInFlight(procs[..|procs| - 1], tag);
    }
  }

  predicate Quiescent(s: State) {
    && (forall c :: 0 <= c < |s.held| ==> s.held[c] == None)
    && s.channel == []
    && (forall p :: 0 <= p < |s.procs| ==> s.procs[p] == Idle)
  }

  /** When everything has come to rest, every received tag has been applied once or given up. */
  lemma QuiescentMeansAppliedOrGivenUp(consumers: nat, processors: nat, steps: seq<Step>)
    requires Exec(Init(consumers, processors), steps).Some?
    requires Quiescent(Exec(Init(consumers, processors), steps).value)
    ensures var s := Exec(Init(consumers, processors), steps).value;
            forall tag :: s.decoded[tag] == AppliedCopies(s.log, tag) + s.exhausted[tag]
  {
    RunKeepsInvariant(consumers, processors, steps);
    var s := Exec(Init(consumers, processors), steps).value;
    forall tag ensures s.decoded[tag] == AppliedCopies(s.log, tag) + s.exhausted[tag] {
      NothingHeld(s.held, tag);
      NothingInFlight(s.procs, tag);
      assert Copies(s, tag) == s.decoded[tag];
    }
  }

  // ---------- the creation race ----------

  lemma {:induction false} RecordsStay(s: State, steps: seq<Step>)
    requires Exec(s, steps).Some?
    ensures s.records.Keys <= Exec(s, steps).value.records.Keys
  {
    if steps != [] {
      var front, step := steps[..|steps| - 1], steps[|steps| - 1];
      RecordsStay(s, front);
      StepLands(Exec(s, front).value, step);
    }
  }

  /** A creation that reaches the database fails only because another processor has created
      the record; from then on, whatever else happens, the next update of that record that
      reaches the database succeeds. */
  lemma LostRaceSucceedsNext(s: State, p: nat, steps: seq<Step>, q: nat)
    requires Enabled(s, Create(p, true)) && After(s, Create(p, true)).procs[p].Backoff?
    requires Exec(After(s, Create(p, true)), steps).Some?
    requires var later := Exec(After(s, Create(p, true)), steps).value;
             Enabled(later, Update(q, true)) && Name(later.procs[q].e) == Name(s.procs[p].e)
    ensures Name(s.procs[p].e) in s.records
    ensures var later := Exec(After(s, Create(p, true)), steps).value;
            && After(later, Update(q, true)).procs[q] == Idle
            && After(later, Update(q, true)).log == later.log + [later.procs[q].e]
  {
    RecordsStay(After(s, Create(p, true)), steps);
  }

  // ---------- a tag's way through the worker ----------

  lemma ExecSnoc(s: State, steps: seq<Step>, step: Step)
    requires Exec(s, steps).Some? && Enabled(Exec(s, steps).value, step)
    ensures Exec(s, steps + [step]) == Some(After(Exec(s, steps).value, step))
  {
    assert (steps + [step])[..|steps|] == steps;
  }

  /** The tags pushed in a run from s, and those taken, in their order. */
  function Pushed(s: State, steps: seq<Step>): seq<UserTag>
    requires Exec(s, steps).Some?
  {
    if steps == [] then []
    else
      var front, step := steps[..|steps| - 1], steps[|steps| - 1];
      if step.Push? then Pushed(s, front) + [Exec(s, front).value.held[step.c].value] else Pushed(s, front)
  }

  function Taken(s: State, steps: seq<Step>): seq<UserTag>
    requires Exec(s, steps).Some?
  {
    if steps == [] then []
    else
      var front, step := steps[..|steps| - 1], steps[|steps| - 1];
      if step.Take? then Taken(s, front) + [TagOf(Exec(s, steps).value.procs[step.p])] else Taken(s, front)
  }

  /** The channel is first in, first out: what processors have taken up, followed by what is
      still queued, is what was queued at first and pushed since, in that order. */
  lemma {:induction false} ChannelIsFifo(s: State, steps: seq<Step>)
    requires Exec(s, steps).Some?
    ensures Taken(s, steps) + Exec(s, steps).value.channel == s.channel + Pushed(s, steps)
  {
    if steps != [] {
      var front, step := steps[..|steps| - 1], steps[|steps| - 1];
      ChannelIsFifo(s, front);
      var before, after := Exec(s, front).value, Exec(s, steps).value;
      if step.Take? {
        FirstMoves(Taken(s, front), before.channel);
      } else if step.Push? {
        LastJoins(Taken(s, front), before.channel, s.channel, Pushed(s, front), before.held[step.c].value);
      } else {
        ChannelUntouched(before, step);
      }
    }
  }

  lemma FirstMoves(taken: seq<UserTag>, channel: seq<UserTag>)
    requires channel != []
    ensures taken + [channel[0]] + channel[1..] == taken + channel
  {
  }

  lemma LastJoins(taken: seq<UserTag>, channel: seq<UserTag>, first: seq<UserTag>, pushed: seq<UserTag>, tag: UserTag)
    requires taken + channel == first + pushed
    ensures taken + (channel + [tag]) == first + (pushed + [tag])
  {
    assert taken + channel + [tag] == taken + (channel + [tag]);
    assert first + pushed + [tag] == first + (pushed + [tag]);
  }

  lemma ChannelUntouched(s: State, step: Step)
    requires Enabled(s, step) && !step.Take? && !step.Push?
    ensures After(s, step).channel == s.channel
  {
  }

  /** A retried tag starts again from its first id, and giving up is the only way it is lost. */
  lemma BackoffRetriesOrGivesUp(s: State, p: nat)
    requires p < |s.procs| && s.procs[p].Backoff?
    ensures After(s, Retry(p)) == s.(procs := s.procs[p := NeedCategory(s.procs[p].tag)])
    ensures After(s, GiveUp(p))
            == s.(procs := s.procs[p := Idle], exhausted := s.exhausted + multiset{s.procs[p].tag})
  {
  }

  /** The capacity is used up before a push has to wait: as long as no processor takes anything,
      a consumer can queue 1024 tags and no more. */
  lemma {:induction false} ChannelFills(processors: nat, tag: UserTag, n: nat) returns (steps: seq<Step>)
    requires n <= 1024
    ensures Exec(Init(1, processors), steps).Some?
    ensures var s := Exec(Init(1, processors), steps).value;
            && |s.channel| == n && s.held == [None]
            && (Enabled(After(s, Receive(0, tag)), Push(0)) <==> n < 1024)
  {
    steps := [];
    if n > 0 {
      steps := ChannelFills(processors, tag, n - 1);
      ExecSnoc(Init(1, processors), steps, Receive(0, tag));
      ExecSnoc(Init(1, processors), steps + [Receive(0, tag)], Push(0));
      steps := steps + [Receive(0, tag)] + [Push(0)];
    }
  }
}
