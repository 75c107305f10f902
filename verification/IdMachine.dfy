/** The id service under concurrent requests and restarts, one atomic step at a time. What an
    element found in the list gets as its id is its index plus `base`: the service as written
    has base 0, while a freshly appended element gets the new length, which is its index plus
    one. Base 1 would make the two paths agree. */
module IdMachine {
  import opened Types
  import opened IdService

  /** Where a request is: before the cache lookup, the list read, the append, or the save. */
  datatype Req =
    | Checking(collection: string, element: string, createMissing: bool)
    | Reading(collection: string, element: string, createMissing: bool)
    | Appending(collection: string, element: string)
    | Saving(collection: string, element: string, id: int, listed: bool)

  datatype Issue = Issue(collection: string, element: string, id: int)

  /** `issued` collects every id that was ever cached or returned, `fromList` those of them
      that came from finding the element in the list. */
  datatype State = State(
    lists: Lists,
    cache: Cache,
    reqs: map<nat, Req>,
    issued: set<Issue>,
    fromList: set<Issue>
  )

  datatype Step =
    | Start(r: nat, collection: string, element: string, createMissing: bool)
    | Check(r: nat)
    | Read(r: nat, up: bool)
    | AppendNew(r: nat, up: bool)
    | Save(r: nat)
    | Restart

  predicate Enabled(s: State, step: Step) {
    match step
    case Start(r, _, _, _) => r !in s.reqs
    case Check(r) => r in s.reqs && s.reqs[r].Checking?
    case Read(r, _) => r in s.reqs && s.reqs[r].Reading?
    case AppendNew(r, _) => r in s.reqs && s.reqs[r].Appending?
    case Save(r) => r in s.reqs && s.reqs[r].Saving?
    case Restart => true
  }

  /** A request that ends, with an answer or an error, leaves `reqs`. The answer of a cache
      hit is an id issued before; a save issues its id. */
  function After(base: nat, s: State, step: Step): State
    requires Enabled(s, step)
  {
    match step
    case Start(r, c, e, create) => s.(reqs := s.reqs[r := Checking(c, e, create)])
    case Check(r) =>
      var q := s.reqs[r];
      if CheckInCache(s.cache, q.collection, q.element).Some? then s.(reqs := s.reqs - {r})
      else s.(reqs := s.reqs[r := Reading(q.collection, q.element, q.createMissing)])
    case Read(r, up) => s.(reqs := ReqsAfterRead(base, s.lists, s.reqs, r, up))
    case AppendNew(r, up) =>
      var q := s.reqs[r];
      var (lists, newLen) := Append(s.lists, q.collection, q.element, up);
      s.(lists := lists,
         reqs := if newLen.Err? then s.reqs - {r}
                 else s.reqs[r := Saving(q.collection, q.element, newLen.value, false)])
    case Save(r) =>
      var q := s.reqs[r];
      var x := Issue(q.collection, q.element, q.id);
      s.(cache := SaveInCache(s.cache, q.collection, q.element, q.id),
         reqs := s.reqs - {r},
         issued := s.issued + {x},
         fromList := if q.listed then s.fromList + {x} else s.fromList)
    case Restart => s.(cache := map[], reqs := map[])
  }

  function ReqsAfterRead(base: nat, lists: Lists, reqs: map<nat, Req>, r: nat, up: bool): map<nat, Req>
    requires r in reqs && reqs[r].Reading?
  {
    var q := reqs[r];
    if !up then reqs - {r}
    else if Placed(lists, q.collection, q.element) then
      reqs[r := Saving(q.collection, q.element, Position(lists, q.collection, q.element) + base, true)]
    else if q.createMissing then reqs[r := Appending(q.collection, q.element)]
    else reqs - {r}
  }

  const INIT := State(map[], map[], map[], {}, {})

  function Exec(base: nat, steps: seq<Step>): Option<State> {
    if steps == [] then Some(INIT)
    else
      var before := Exec(base, steps[..|steps| - 1]);
      if before.Some? && Enabled(before.value, steps[|steps| - 1])
      then Some(After(base, before.value, steps[|steps| - 1]))
      else None
  }

  // ---------- what holds in every run ----------

  /** The id is one more than the position of the element, or the position plus the base for
      an id served from the list. */
  ghost predicate Sound(base: nat, s: State, x: Issue) {
    && Placed(s.lists, x.collection, x.element)
    && var p := Position(s.lists, x.collection, x.element);
       (x.id == p + 1 || x in s.fromList) && (x in s.fromList ==> x.id == p + base)
  }

  ghost predicate ReqSound(base: nat, lists: Lists, q: Req) {
    q.Saving? ==> Placed(lists, q.collection, q.element)
                  && q.id == Position(lists, q.collection, q.element) + (if q.listed then base else 1)
  }

  ghost predicate CacheIssued(s: State) {
    forall c, e :: CheckInCache(s.cache, c, e).Some? ==> Issue(c, e, CheckInCache(s.cache, c, e).value) in s.issued
  }

  ghost predicate Inv(base: nat, s: State) {
    && AllUnique(s.lists)
    && (forall x :: x in s.issued ==> Sound(base, s, x))
    && s.fromList <= s.issued
    && (forall r :: r in s.reqs ==> ReqSound(base, s.lists, s.reqs[r]))
    && CacheIssued(s)
  }

  lemma AppendKeepsInv(base: nat, s: State, step: Step)
    requires Inv(base, s) && Enabled(s, step) && step.AppendNew?
    ensures Inv(base, After(base, s, step))
  {
    var q := s.reqs[step.r];
    var s' := After(base, s, step);
    AppendKeepsUnique(s.lists, q.collection, q.element, step.up);
    forall x | x in s'.issued ensures Sound(base, s', x) {
      assert Sound(base, s, x);
      PositionsStay(s.lists, q.collection, q.element, step.up, x.collection, x.element);
    }
    forall r | r in s'.reqs ensures ReqSound(base, s'.lists, s'.reqs[r]) {
      if r == step.r {
        AppendedAtEnd(s.lists, q.collection, q.element, step.up);
      } else if s.reqs[r].Saving? {
        PositionsStay(s.lists, q.collection, q.element, step.up, s.reqs[r].collection, s.reqs[r].element);
      }
    }
  }

  /** Positions are never ambiguous, so an id that could be served twice in two ways is in
      `fromList` only under its listed value. */
  lemma SaveKeepsInv(base: nat, s: State, step: Step)
    requires Inv(base, s) && Enabled(s, step) && step.Save?
    ensures Inv(base, After(base, s, step))
  {
    var q := s.reqs[step.r];
    var s' := After(base, s, step);
    var x' := Issue(q.collection, q.element, q.id);
    assert ReqSound(base, s.lists, q);
    forall x | x in s'.issued ensures Sound(base, s', x) {
      assert x in s.issued ==> Sound(base, s, x);
    }
    forall c, e | CheckInCache(s'.cache, c, e).Some?
      ensures Issue(c, e, CheckInCache(s'.cache, c, e).value) in s'.issued
    {
      CacheAfterSave(s.cache, q.collection, q.element, q.id, c, e);
    }
  }

  lemma StepKeepsInv(base: nat, s: State, step: Step)
    requires Inv(base, s) && Enabled(s, step)
    ensures Inv(base, After(base, s, step))
  {
    if step.AppendNew? {
      AppendKeepsInv(base, s, step);
    } else if step.Save? {
      SaveKeepsInv(base, s, step);
    } else {
      var s' := After(base, s, step);
      forall x | x in s'.issued ensures Sound(base, s', x) {
        assert Sound(base, s, x);
      }
      forall r | r in s'.reqs ensures ReqSound(base, s'.lists, s'.reqs[r]) {
        assert r in s.reqs ==> ReqSound(base, s.lists, s.reqs[r]);
      }
    }
  }

  lemma {:induction false} RunKeepsInv(base: nat, steps: seq<Step>)
    ensures Exec(base, steps).Some? ==> Inv(base, Exec(base, steps).value)
  {
    if steps != [] {
      var front, step := steps[..|steps| - 1], steps[|steps| - 1];
      RunKeepsInv(base, front);
      var before := Exec(base, front);
      if before.Some? && Enabled(before.value, step) {
        StepKeepsInv(base, before.value, step);
      }
    }
  }

  /** As written, over every run, with any requests interleaved and any number of restarts:
      every id ever cached or returned for the element at position i is i or i + 1, and
      elements two or more positions apart never share an id. */
  lemma IdsAreNearPositions(steps: seq<Step>, x: Issue, y: Issue)
    requires Exec(0, steps).Some?
    requires x in Exec(0, steps).value.issued && y in Exec(0, steps).value.issued
    ensures var lists := Exec(0, steps).value.lists;
            && Placed(lists, x.collection, x.element)
            && Position(lists, x.collection, x.element) <= x.id <= Position(lists, x.collection, x.element) + 1
            && (x.collection == y.collection && x.id == y.id ==>
                  Placed(lists, y.collection, y.element)
                  && -1 <= Position(lists, x.collection, x.element) - Position(lists, y.collection, y.element) <= 1)
  {
    RunKeepsInv(0, steps);
    var s := Exec(0, steps).value;
    assert Sound(0, s, x) && Sound(0, s, y);
  }

  /** Positions are for good: along any continuation of a run every placed element keeps its
      place, no element occurs twice, and no issued id is forgotten. */
  lemma {:induction false} PositionsNeverChange(base: nat, steps: seq<Step>, more: seq<Step>, c: string, e: string)
    requires Exec(base, steps + more).Some?
    ensures Exec(base, steps).Some?
    ensures var s, s' := Exec(base, steps).value, Exec(base, steps + more).value;
            && AllUnique(s'.lists)
            && s.issued <= s'.issued && s.fromList <= s'.fromList
            && (Placed(s.lists, c, e) ==> Placed(s'.lists, c, e) && Position(s'.lists, c, e) == Position(s.lists, c, e))
  {
    RunKeepsInv(base, steps + more);
    if more == [] {
      assert steps + more == steps;
    } else {
      var step := more[|more| - 1];
      assert (steps + more)[..|steps + more| - 1] == steps + more[..|more| - 1];
      PositionsNeverChange(base, steps, more[..|more| - 1], c, e);
      var s, mid := Exec(base, steps).value, Exec(base, steps + more[..|more| - 1]).value;
      if step.AppendNew? && Placed(s.lists, c, e) {
        PositionsStay(mid.lists, mid.reqs[step.r].collection, mid.reqs[step.r].element, step.up, c, e);
      }
    }
  }

  /** Exactly when the branch that serves an id from the list has never been completed are
      all ids of a run the one-based positions the integration test expects. */
  lemma OneBasedIffNeverFromList(steps: seq<Step>)
    requires Exec(0, steps).Some?
    ensures var s := Exec(0, steps).value;
            (forall x :: x in s.issued ==> OneBased(s.lists, x)) <==> s.fromList == {}
  {
    RunKeepsInv(0, steps);
    var s := Exec(0, steps).value;
    if s.fromList == {} {
      forall x | x in s.issued ensures OneBased(s.lists, x) {
        assert Sound(0, s, x);
      }
    } else {
      var x :| x in s.fromList;
      assert Sound(0, s, x) && !OneBased(s.lists, x);
    }
  }

  ghost predicate OneBased(lists: Lists, x: Issue) {
    Placed(lists, x.collection, x.element) && x.id == Position(lists, x.collection, x.element) + 1
  }

  /** An id names its element and an element has one id, for all ids ever issued. */
  ghost predicate Dictionary(s: State) {
    forall x, y :: x in s.issued && y in s.issued && x.collection == y.collection ==>
                     (x.element == y.element <==> x.id == y.id)
  }

  /** With the list path normalised to base 1, or as long as it has served nothing, the ids
      of a run are a dictionary, whatever interleaves and however often the server restarts. */
  lemma DictionaryIfNormalised(base: nat, steps: seq<Step>)
    requires Exec(base, steps).Some?
    requires base == 1 || Exec(base, steps).value.fromList == {}
    ensures Dictionary(Exec(base, steps).value)
    ensures forall x :: x in Exec(base, steps).value.issued ==> OneBased(Exec(base, steps).value.lists, x)
  {
    RunKeepsInv(base, steps);
    var s := Exec(base, steps).value;
    forall x | x in s.issued ensures OneBased(s.lists, x) {
      assert Sound(base, s, x);
    }
    forall x, y | x in s.issued && y in s.issued && x.collection == y.collection
      ensures x.element == y.element <==> x.id == y.id
    {
      OneBasedAreInjective(s.lists, x, y);
    }
  }

  /** The element of the first is neither that of the second nor right behind it. */
  predicate Apart(lists: Lists, x: Issue, y: Issue)
    requires Placed(lists, x.collection, x.element) && Placed(lists, y.collection, y.element)
  {
    var p, q := Position(lists, x.collection, x.element), Position(lists, y.collection, y.element);
    p != q && p != q + 1
  }

  ghost predicate AllApart(s: State) {
    forall x, y :: x in s.fromList && y in s.issued && y !in s.fromList && x.collection == y.collection
                   && Placed(s.lists, x.collection, x.element) && Placed(s.lists, y.collection, y.element) ==>
                     Apart(s.lists, x, y)
  }

  lemma ClashIff(s: State, x: Issue, y: Issue)
    requires Sound(0, s, x) && Sound(0, s, y) && x.collection == y.collection
    ensures (x.element == y.element <==> x.id == y.id)
            <==> (x in s.fromList && y !in s.fromList ==> Apart(s.lists, x, y))
                 && (y in s.fromList && x !in s.fromList ==> Apart(s.lists, y, x))
  {
  }

  /** As written, the ids of a run are a dictionary just when no element served from the list
      was issued its one-based id, too, and neither was its predecessor in the list. */
  lemma DictionaryIff(steps: seq<Step>)
    requires Exec(0, steps).Some?
    ensures Dictionary(Exec(0, steps).value) <==> AllApart(Exec(0, steps).value)
  {
    RunKeepsInv(0, steps);
    InvDictionaryIff(Exec(0, steps).value);
  }

  lemma InvDictionaryIff(s: State)
    requires Inv(0, s)
    ensures Dictionary(s) <==> AllApart(s)
  {
    if Dictionary(s) {
      forall x, y | x in s.fromList && y in s.issued && y !in s.fromList && x.collection == y.collection
                    && Placed(s.lists, x.collection, x.element) && Placed(s.lists, y.collection, y.element)
        ensures Apart(s.lists, x, y)
      {
        ClashIff(s, x, y);
      }
    }
    if AllApart(s) {
      forall x, y | x in s.issued && y in s.issued && x.collection == y.collection
        ensures x.element == y.element <==> x.id == y.id
      {
        assert Sound(0, s, x) && Sound(0, s, y);
        ClashIff(s, x, y);
      }
    }
  }

  /** One step at a time: completing a request that found its element in the list keeps the ids
      a dictionary just when neither the element nor its predecessor in the list has been issued
      its one-based id. */
  lemma ServingFromListIff(s: State, r: nat)
    requires Inv(0, s) && Dictionary(s) && Enabled(s, Save(r)) && s.reqs[r].listed
    ensures var c, e := s.reqs[r].collection, s.reqs[r].element;
            Dictionary(After(0, s, Save(r))) <==>
            forall y :: y in s.issued && y !in s.fromList && y.collection == c && Placed(s.lists, c, y.element) ==>
                          Apart(s.lists, Issue(c, e, s.reqs[r].id), y)
  {
    var q, s' := s.reqs[r], After(0, s, Save(r));
    var x := Issue(q.collection, q.element, q.id);
    assert ReqSound(0, s.lists, q);
    SaveKeepsInv(0, s, Save(r));
    assert Sound(0, s', x) && x in s'.fromList;
    forall y | y in s.issued && y.collection == x.collection
      ensures y !in s.fromList ==> y !in s'.fromList
      ensures (x.element == y.element <==> x.id == y.id) <==> (y !in s.fromList ==> Apart(s.lists, x, y))
    {
      assert Sound(0, s, y) && Sound(0, s', y);
      ClashIff(s', x, y);
    }
    OneMoreIssued(s, s', x);
  }

  lemma OneMoreIssued(s: State, s': State, x: Issue)
    requires Dictionary(s) && s'.issued == s.issued + {x}
    ensures Dictionary(s') <==>
            forall y :: y in s.issued && y.collection == x.collection ==> (x.element == y.element <==> x.id == y.id)
  {
  }

  lemma OneBasedAreInjective(lists: Lists, x: Issue, y: Issue)
    requires OneBased(lists, x) && OneBased(lists, y) && x.collection == y.collection
    ensures x.element == y.element <==> x.id == y.id
  {
  }

  // ---------- what the lists hold ----------

  /** A request with createMissing has asked for the element. */
  ghost predicate AskedFor(steps: seq<Step>, c: string, e: string) {
    exists i :: 0 <= i < |steps| && steps[i].Start? && steps[i].createMissing
                && steps[i].collection == c && steps[i].element == e
  }

  /** A request that may still append was asked to. */
  ghost predicate MayAppend(steps: seq<Step>, q: Req) {
    match q
    case Checking(c, e, create) => create ==> AskedFor(steps, c, e)
    case Reading(c, e, create) => create ==> AskedFor(steps, c, e)
    case Appending(c, e) => AskedFor(steps, c, e)
    case Saving(_, _, _, _) => true
  }

  ghost predicate OnlyAsked(steps: seq<Step>, s: State) {
    && (forall c, e :: Placed(s.lists, c, e) ==> AskedFor(steps, c, e))
    && (forall r :: r in s.reqs ==> MayAppend(steps, s.reqs[r]))
  }

  lemma AskedStays(steps: seq<Step>, step: Step, c: string, e: string)
    ensures AskedFor(steps, c, e) ==> AskedFor(steps + [step], c, e)
    ensures step.Start? && step.createMissing && step.collection == c && step.element == e ==>
              AskedFor(steps + [step], c, e)
  {
    if AskedFor(steps, c, e) {
      var i :| 0 <= i < |steps| && steps[i].Start? && steps[i].createMissing
               && steps[i].collection == c && steps[i].element == e;
      assert (steps + [step])[i] == steps[i];
    }
    assert (steps + [step])[|steps|] == step;
  }

  lemma StepAppendsOnlyAsked(base: nat, steps: seq<Step>, s: State, step: Step)
    requires OnlyAsked(steps, s) && Enabled(s, step)
    ensures OnlyAsked(steps + [step], After(base, s, step))
  {
    var s' := After(base, s, step);
    forall c, e ensures AskedFor(steps, c, e) ==> AskedFor(steps + [step], c, e) {
      AskedStays(steps, step, c, e);
    }
    forall c, e | Placed(s'.lists, c, e) ensures AskedFor(steps + [step], c, e) {
      if step.AppendNew? && !Placed(s.lists, c, e) {
        var q := s.reqs[step.r];
        assert MayAppend(steps, q);
        AppendedOnly(s.lists, q.collection, q.element, step.up, c, e);
      }
    }
    forall r | r in s'.reqs ensures MayAppend(steps + [step], s'.reqs[r]) {
      assert r in s.reqs ==> MayAppend(steps, s.reqs[r]);
      if step.Start? && step.r == r {
        AskedStays(steps, step, step.collection, step.element);
      }
    }
  }

  lemma AppendedOnly(lists: Lists, collection: string, element: string, up: bool, c: string, e: string)
    requires !Placed(lists, c, e) && Placed(Append(lists, collection, element, up).0, c, e)
    ensures c == collection && e == element
  {
  }

  /** Along any run a list grows only by elements that a request with createMissing asked for:
      a pure lookup never creates anything. */
  lemma {:induction false} OnlyAskedAreListed(base: nat, steps: seq<Step>)
    requires Exec(base, steps).Some?
    ensures OnlyAsked(steps, Exec(base, steps).value)
  {
    if steps != [] {
      var front, step := steps[..|steps| - 1], steps[|steps| - 1];
      OnlyAskedAreListed(base, front);
      StepAppendsOnlyAsked(base, front, Exec(base, front).value, step);
      assert steps == front + [step];
    }
  }

  // ---------- one request at a time ----------

  /** No restart, and a request starts only when none is under way. */
  predicate Serial(base: nat, steps: seq<Step>)
    requires Exec(base, steps).Some?
  {
    steps == [] ||
    var front, step := steps[..|steps| - 1], steps[|steps| - 1];
    Serial(base, front) && step != Restart && (step.Start? ==> Exec(base, front).value.reqs == map[])
  }

  /** What the only request knows: past the lookup its element is not listed, unless it has
      just been appended by the request itself. */
  ghost predicate SerialInv(s: State) {
    && AllUnique(s.lists)
    && s.fromList == {}
    && (forall r, q :: r in s.reqs && q in s.reqs ==> r == q)
    && (forall r :: r in s.reqs ==> ReqFits(s, s.reqs[r]))
    && (s.reqs == map[] ==> Agree(s.lists, s.cache))
  }

  ghost predicate ReqFits(s: State, q: Req) {
    match q
    case Checking(_, _, _) => Agree(s.lists, s.cache)
    case Reading(c, e, _) => Agree(s.lists, s.cache) && !Placed(s.lists, c, e)
    case Appending(c, e) => Agree(s.lists, s.cache) && !Placed(s.lists, c, e)
    case Saving(c, e, id, listed) => !listed && Agree(s.lists, SaveInCache(s.cache, c, e, id))
  }

  lemma SerialStep(base: nat, s: State, step: Step)
    requires SerialInv(s) && Enabled(s, step) && step != Restart && (step.Start? ==> s.reqs == map[])
    ensures SerialInv(After(base, s, step))
  {
    match step
    case Start(_, _, _, _) =>
    case Check(r) =>
      var q := s.reqs[r];
      assert ReqFits(s, q);
      assert AgreeAt(s.lists, s.cache, q.collection, q.element);
    case Read(r, _) => assert ReqFits(s, s.reqs[r]);
    case AppendNew(r, up) =>
      var q := s.reqs[r];
      assert ReqFits(s, q);
      AppendKeepsUnique(s.lists, q.collection, q.element, up);
      if Append(s.lists, q.collection, q.element, up).1.Ok? {
        assert up;
        AppendKeepsAgreement(s.lists, s.cache, q.collection, q.element);
        assert r in After(base, s, step).reqs;
      } else {
        assert After(base, s, step).lists == s.lists;
      }
    case Save(r) => assert ReqFits(s, s.reqs[r]);
  }

  /** From an empty start, with requests one at a time and no restart, the list path never
      serves an id, and whenever no request is under way cache and lists agree exactly. */
  lemma {:induction false} SerialRunsNeverServeFromList(base: nat, steps: seq<Step>)
    requires Exec(base, steps).Some? && Serial(base, steps)
    ensures SerialInv(Exec(base, steps).value)
    ensures Exec(base, steps).value.fromList == {}
    ensures var s := Exec(base, steps).value;
            s.reqs == map[] ==> Agree(s.lists, s.cache)
  {
    if steps != [] {
      var front := steps[..|steps| - 1];
      SerialRunsNeverServeFromList(base, front);
      SerialStep(base, Exec(base, front).value, steps[|steps| - 1]);
    }
  }

  // ---------- runs in which the two paths disagree ----------

  lemma ExecSnoc(base: nat, steps: seq<Step>, step: Step)
    requires Exec(base, steps).Some? && Enabled(Exec(base, steps).value, step)
    ensures Exec(base, steps + [step]) == Some(After(base, Exec(base, steps).value, step))
  {
    assert (steps + [step])[..|steps|] == steps;
  }

  lemma Regrouped(a: seq<Step>, b: seq<Step>, c: seq<Step>)
    ensures a + b + c == a + (b + c)
  {
  }

  lemma OneByOne(steps: seq<Step>, a: Step, b: Step, c: Step, d: Step)
    ensures steps + [a] + [b] + [c] + [d] == steps + [a, b, c, d]
  {
  }

  function Under(s: State, r: nat, q: Req): State { s.(reqs := s.reqs[r := q]) }

  /** The steps of a request for an element that is found neither in cache nor list. */
  lemma MissSteps(s: State, r: nat, c: string, e: string)
    requires r !in s.reqs && CheckInCache(s.cache, c, e) == None && !Placed(s.lists, c, e)
    requires |ListOf(s.lists, c)| < LIST_CAPACITY
    ensures After(0, s, Start(r, c, e, true)) == Under(s, r, Checking(c, e, true))
    ensures After(0, Under(s, r, Checking(c, e, true)), Check(r)) == Under(s, r, Reading(c, e, true))
    ensures After(0, Under(s, r, Reading(c, e, true)), Read(r, true)) == Under(s, r, Appending(c, e))
    ensures After(0, Under(s, r, Appending(c, e)), AppendNew(r, true)) == Appended(s, r, c, e)
  {
  }

  /** A request between its append and its save. */
  function Appended(s: State, r: nat, c: string, e: string): State {
    Under(s.(lists := s.lists[c := ListOf(s.lists, c) + [e]]), r, Saving(c, e, |ListOf(s.lists, c)| + 1, false))
  }

  lemma AppendedNotSaved(steps: seq<Step>, r: nat, c: string, e: string)
    requires Exec(0, steps).Some?
    requires var s := Exec(0, steps).value;
             r !in s.reqs && CheckInCache(s.cache, c, e) == None && !Placed(s.lists, c, e)
             && |ListOf(s.lists, c)| < LIST_CAPACITY
    ensures Exec(0, steps + AppendSteps(r, c, e)) == Some(Appended(Exec(0, steps).value, r, c, e))
  {
    var s := Exec(0, steps).value;
    var s1 := steps + [Start(r, c, e, true)];
    MissSteps(s, r, c, e);
    ExecSnoc(0, steps, Start(r, c, e, true));
    ExecSnoc(0, s1, Check(r));
    ExecSnoc(0, s1 + [Check(r)], Read(r, true));
    ExecSnoc(0, s1 + [Check(r)] + [Read(r, true)], AppendNew(r, true));
    OneByOne(steps, Start(r, c, e, true), Check(r), Read(r, true), AppendNew(r, true));
  }

  function AppendSteps(r: nat, c: string, e: string): seq<Step> {
    [Start(r, c, e, true), Check(r), Read(r, true), AppendNew(r, true)]
  }

  /** A whole request for an element that is in the list and not in the cache. */
  lemma ServedFromList(steps: seq<Step>, r: nat, c: string, e: string)
    requires Exec(0, steps).Some?
    requires var s := Exec(0, steps).value;
             r !in s.reqs && CheckInCache(s.cache, c, e) == None && Placed(s.lists, c, e)
    ensures var s := Exec(0, steps).value;
            var p := Position(s.lists, c, e);
            Exec(0, steps + ListedSteps(r, c, e))
            == Some(State(s.lists, SaveInCache(s.cache, c, e, p), s.reqs,
                          s.issued + {Issue(c, e, p)}, s.fromList + {Issue(c, e, p)}))
  {
    var s1 := steps + [Start(r, c, e, true)];
    ExecSnoc(0, steps, Start(r, c, e, true));
    ExecSnoc(0, s1, Check(r));
    ExecSnoc(0, s1 + [Check(r)], Read(r, true));
    ExecSnoc(0, s1 + [Check(r)] + [Read(r, true)], Save(r));
    OneByOne(steps, Start(r, c, e, true), Check(r), Read(r, true), Save(r));
    assert Exec(0, steps + ListedSteps(r, c, e)).value.reqs == Exec(0, steps).value.reqs;
  }

  function ListedSteps(r: nat, c: string, e: string): seq<Step> {
    [Start(r, c, e, true), Check(r), Read(r, true), Save(r)]
  }

  /** The save that ends a request. */
  lemma Saved(steps: seq<Step>, r: nat)
    requires Exec(0, steps).Some? && Enabled(Exec(0, steps).value, Save(r))
    ensures Exec(0, steps + [Save(r)]).Some?
    ensures var s, s', q := Exec(0, steps).value, Exec(0, steps + [Save(r)]).value, Exec(0, steps).value.reqs[r];
            && s'.lists == s.lists && s'.reqs == s.reqs - {r}
            && s'.cache == SaveInCache(s.cache, q.collection, q.element, q.id)
            && s'.issued == s.issued + {Issue(q.collection, q.element, q.id)}
            && (!q.listed ==> s'.fromList == s.fromList)
  {
    ExecSnoc(0, steps, Save(r));
  }

  function OneElement(r: nat, c: string, e: string): seq<Step> {
    AppendSteps(r, c, e) + [Save(r)]
  }

  /** A whole request for a new element, with nothing else under way. */
  lemma NewElement(steps: seq<Step>, c: string, e: string)
    requires Exec(0, steps).Some? && Fresh(Exec(0, steps).value, c, e)
    ensures Exec(0, steps + OneElement(0, c, e)).Some?
    ensures Exec(0, steps + OneElement(0, c, e)).value == WithElement(Exec(0, steps).value, c, e)
  {
    AppendedNotSaved(steps, 0, c, e);
    Saved(steps + AppendSteps(0, c, e), 0);
    assert steps + AppendSteps(0, c, e) + [Save(0)] == steps + OneElement(0, c, e);
  }

  ghost predicate Fresh(s: State, c: string, e: string) {
    && s.reqs == map[] && CheckInCache(s.cache, c, e) == None && !Placed(s.lists, c, e)
    && |ListOf(s.lists, c)| < LIST_CAPACITY
  }

  /** The state once a fresh element has its id. */
  function WithElement(s: State, c: string, e: string): State {
    var n := |ListOf(s.lists, c)| + 1;
    State(s.lists[c := ListOf(s.lists, c) + [e]], SaveInCache(s.cache, c, e, n), map[],
          s.issued + {Issue(c, e, n)}, s.fromList)
  }

  /** Two new elements of a collection, a restart, and the second of them again. */
  function TwoAndRestart(c: string, a: string, b: string): seq<Step> {
    OneElement(0, c, a) + OneElement(0, c, b) + [Restart] + ListedSteps(0, c, b)
  }

  /** One more element leaves the others as fresh as they were, and other lists alone. */
  lemma OthersStayFresh(s: State, c: string, e: string, c': string, e': string)
    requires Fresh(s, c, e) && (c, e) != (c', e')
    requires c == c' ==> |ListOf(s.lists, c)| + 1 < LIST_CAPACITY
    ensures Fresh(WithElement(s, c', e'), c, e)
    ensures c != c' ==> ListOf(WithElement(s, c', e').lists, c) == ListOf(s.lists, c)
  {
    CacheAfterSave(s.cache, c', e', |ListOf(s.lists, c')| + 1, c, e);
  }

  /** As written a restart is enough: any run at rest can go on so that of two new elements of
      a new collection the second is issued the ids 2 and 1, and the first the id 1. */
  lemma RestartBreaksDictionary(steps: seq<Step>, c: string, a: string, b: string)
    requires Exec(0, steps).Some? && a != b
    requires var s := Exec(0, steps).value; Fresh(s, c, a) && Fresh(s, c, b) && ListOf(s.lists, c) == []
    ensures var all := steps + TwoAndRestart(c, a, b);
            Exec(0, all).Some?
            && Exec(0, steps).value.issued + {Issue(c, a, 1), Issue(c, b, 2), Issue(c, b, 1)}
               <= Exec(0, all).value.issued
            && !Dictionary(Exec(0, all).value)
  {
    var both := steps + OneElement(0, c, a) + OneElement(0, c, b);
    TwoNewElements(steps, c, a, b);
    TwoElements(Exec(0, steps).value, c, a, b);
    SecondAgain(both, c, a, b);
    Regrouped(steps, OneElement(0, c, a), OneElement(0, c, b));
    Regrouped(steps, OneElement(0, c, a) + OneElement(0, c, b), [Restart]);
    Regrouped(steps, OneElement(0, c, a) + OneElement(0, c, b) + [Restart], ListedSteps(0, c, b));
  }

  lemma TwoNewElements(steps: seq<Step>, c: string, a: string, b: string)
    requires Exec(0, steps).Some? && a != b
    requires var s := Exec(0, steps).value; Fresh(s, c, a) && Fresh(s, c, b) && ListOf(s.lists, c) == []
    ensures Exec(0, steps + OneElement(0, c, a) + OneElement(0, c, b))
            == Some(WithElement(WithElement(Exec(0, steps).value, c, a), c, b))
  {
    NewElement(steps, c, a);
    OthersStayFresh(Exec(0, steps).value, c, b, c, a);
    NewElement(steps + OneElement(0, c, a), c, b);
  }

  lemma TwoElements(s: State, c: string, a: string, b: string)
    requires ListOf(s.lists, c) == []
    ensures var s' := WithElement(WithElement(s, c, a), c, b);
            ListOf(s'.lists, c) == [a, b] && s'.issued == s.issued + {Issue(c, a, 1), Issue(c, b, 2)}
  {
    assert ListOf(WithElement(s, c, a).lists, c) == [a];
  }

  lemma SecondAgain(steps: seq<Step>, c: string, a: string, b: string)
    requires Exec(0, steps).Some? && a != b && ListOf(Exec(0, steps).value.lists, c) == [a, b]
    requires {Issue(c, a, 1), Issue(c, b, 2)} <= Exec(0, steps).value.issued
    ensures var all := steps + [Restart] + ListedSteps(0, c, b);
            Exec(0, all).Some?
            && Exec(0, all).value.issued == Exec(0, steps).value.issued + {Issue(c, b, 1)}
            && !Dictionary(Exec(0, all).value)
  {
    ExecSnoc(0, steps, Restart);
    ServedFromList(steps + [Restart], 0, c, b);
    var s := Exec(0, steps + [Restart] + ListedSteps(0, c, b)).value;
    assert Issue(c, b, 2) in s.issued && Issue(c, b, 1) in s.issued;
  }

  /** Nor is a restart needed: a second request for the same new element, between the append
      and the save of the first, is issued 0 and the first request 1. */
  lemma RaceBreaksDictionary(c: string, e: string)
    ensures var steps := AppendSteps(0, c, e) + ListedSteps(1, c, e) + [Save(0)];
            Exec(0, steps).Some?
            && {Issue(c, e, 0), Issue(c, e, 1)} <= Exec(0, steps).value.issued
            && !Dictionary(Exec(0, steps).value)
  {
    assert [] + AppendSteps(0, c, e) == AppendSteps(0, c, e);
    AppendedNotSaved([], 0, c, e);
    assert ListOf(Exec(0, AppendSteps(0, c, e)).value.lists, c) == [e];
    ServedFromList(AppendSteps(0, c, e), 1, c, e);
    Saved(AppendSteps(0, c, e) + ListedSteps(1, c, e), 0);
    assert Issue(c, e, 0) in Exec(0, AppendSteps(0, c, e) + ListedSteps(1, c, e) + [Save(0)]).value.issued;
  }

  // ---------- a request that nothing interrupts ----------

  /** The run went on to these lists and this cache, the request has ended, no other was
      touched, and a positive answer was issued and nothing else. */
  ghost predicate Ended(s: State, t: State, lists: Lists, cache: Cache, c: string, e: string,
                        answer: Result<int, IdError>) {
    && t.lists == lists && t.cache == cache && t.reqs == s.reqs
    && s.issued <= t.issued
    && (forall x :: x in t.issued && x !in s.issued ==> answer.Ok? && x == Issue(c, e, answer.value))
    && (answer.Ok? ==> Issue(c, e, answer.value) in t.issued)
  }

  lemma EndsInCache(steps: seq<Step>, r: nat, c: string, e: string, create: bool)
    requires Exec(0, steps).Some? && r !in Exec(0, steps).value.reqs
    requires CheckInCache(Exec(0, steps).value.cache, c, e).Some?
    ensures Exec(0, steps + [Start(r, c, e, create)] + [Check(r)]) == Exec(0, steps)
  {
    var s := Exec(0, steps).value;
    ExecSnoc(0, steps, Start(r, c, e, create));
    ExecSnoc(0, steps + [Start(r, c, e, create)], Check(r));
    assert s.reqs[r := Checking(c, e, create)] - {r} == s.reqs;
  }

  lemma ReachesRead(steps: seq<Step>, r: nat, c: string, e: string, create: bool, up: bool) returns (more: seq<Step>)
    requires Exec(0, steps).Some? && r !in Exec(0, steps).value.reqs
    requires CheckInCache(Exec(0, steps).value.cache, c, e) == None
    ensures more == [Start(r, c, e, create), Check(r), Read(r, up)]
    ensures var s := Exec(0, steps).value;
            Exec(0, steps + more)
            == Some(s.(reqs := ReqsAfterRead(0, s.lists, s.reqs[r := Reading(c, e, create)], r, up)))
  {
    var s := Exec(0, steps).value;
    var s1 := steps + [Start(r, c, e, create)];
    ExecSnoc(0, steps, Start(r, c, e, create));
    ExecSnoc(0, s1, Check(r));
    assert s.reqs[r := Checking(c, e, create)][r := Reading(c, e, create)] == s.reqs[r := Reading(c, e, create)];
    ExecSnoc(0, s1 + [Check(r)], Read(r, up));
    more := [Start(r, c, e, create), Check(r), Read(r, up)];
    assert s1 + [Check(r)] + [Read(r, up)] == steps + more;
  }

  /** The request function of the server is the machine's run of start, check, read, append and
      save with nothing in between, as far as the request goes. */
  lemma RequestIsARun(steps: seq<Step>, r: nat, c: string, e: string, create: bool, up1: bool, up2: bool)
    returns (more: seq<Step>)
    requires Exec(0, steps).Some? && r !in Exec(0, steps).value.reqs
    ensures more <= [Start(r, c, e, create), Check(r), Read(r, up1), AppendNew(r, up2), Save(r)]
            || more == [Start(r, c, e, create), Check(r), Read(r, up1), Save(r)]
    ensures Exec(0, steps + more).Some?
    ensures var s := Exec(0, steps).value;
            var (lists, cache, answer) := Request(s.lists, s.cache, c, e, create, up1, up2);
            Ended(s, Exec(0, steps + more).value, lists, cache, c, e, answer)
  {
    var s := Exec(0, steps).value;
    if CheckInCache(s.cache, c, e).Some? {
      more := [Start(r, c, e, create), Check(r)];
      EndsInCache(steps, r, c, e, create);
      assert steps + [Start(r, c, e, create)] + [Check(r)] == steps + more;
      RunKeepsInv(0, steps);
    } else {
      more := ReachesRead(steps, r, c, e, create, up1);
      var t := Exec(0, steps + more).value;
      if !up1 || (!Placed(s.lists, c, e) && !create) {
        assert t.reqs == s.reqs;
      } else {
        assert t.reqs == Under(s, r, if Placed(s.lists, c, e) then Saving(c, e, Position(s.lists, c, e), true)
                                     else Appending(c, e)).reqs;
        more := AfterTheRead(steps, more, s, r, c, e, create, up2);
      }
    }
  }

  lemma AfterTheRead(steps: seq<Step>, read: seq<Step>, s: State, r: nat, c: string, e: string, create: bool, up: bool)
    returns (more: seq<Step>)
    requires r !in s.reqs && CheckInCache(s.cache, c, e) == None && (create || Placed(s.lists, c, e))
    requires Exec(0, steps + read)
             == Some(Under(s, r, if Placed(s.lists, c, e) then Saving(c, e, Position(s.lists, c, e), true)
                                 else Appending(c, e)))
    ensures more == if Placed(s.lists, c, e) then read + [Save(r)]
                    else if Append(s.lists, c, e, up).1.Err? then read + [AppendNew(r, up)]
                    else read + [AppendNew(r, up), Save(r)]
    ensures Exec(0, steps + more).Some?
    ensures var (lists, cache, answer) := Request(s.lists, s.cache, c, e, create, true, up);
            Ended(s, Exec(0, steps + more).value, lists, cache, c, e, answer)
  {
    if Placed(s.lists, c, e) {
      more := read + [Save(r)];
      SaveEnds(steps, read, s, r, c, e, Position(s.lists, c, e), true);
    } else {
      var appended := read + [AppendNew(r, up)];
      var answer := Append(s.lists, c, e, up);
      AppendGoesOn(steps, read, s, r, c, e, up);
      if answer.1.Err? {
        more := appended;
      } else {
        SaveEnds(steps, appended, s.(lists := answer.0), r, c, e, answer.1.value, false);
        more := read + [AppendNew(r, up), Save(r)];
        assert appended + [Save(r)] == more;
      }
    }
  }

  lemma AppendGoesOn(steps: seq<Step>, read: seq<Step>, s: State, r: nat, c: string, e: string, up: bool)
    requires r !in s.reqs && Exec(0, steps + read) == Some(Under(s, r, Appending(c, e)))
    ensures var (lists, answer) := Append(s.lists, c, e, up);
            Exec(0, steps + (read + [AppendNew(r, up)]))
            == Some(if answer.Err? then s else Under(s.(lists := lists), r, Saving(c, e, answer.value, false)))
  {
    ExecSnoc(0, steps + read, AppendNew(r, up));
    Regrouped(steps, read, [AppendNew(r, up)]);
    AppendGoesOnFrom(s, r, c, e, up);
  }

  lemma AppendGoesOnFrom(s: State, r: nat, c: string, e: string, up: bool)
    requires r !in s.reqs
    ensures var (lists, answer) := Append(s.lists, c, e, up);
            After(0, Under(s, r, Appending(c, e)), AppendNew(r, up))
            == if answer.Err? then s else Under(s.(lists := lists), r, Saving(c, e, answer.value, false))
  {
    assert s.reqs[r := Appending(c, e)] - {r} == s.reqs;
    var answer := Append(s.lists, c, e, up).1;
    if answer.Ok? {
      assert s.reqs[r := Appending(c, e)][r := Saving(c, e, answer.value, false)]
          == s.reqs[r := Saving(c, e, answer.value, false)];
    }
  }

  lemma SaveEnds(steps: seq<Step>, front: seq<Step>, s: State, r: nat, c: string, e: string, id: int, listed: bool)
    requires r !in s.reqs && Exec(0, steps + front) == Some(Under(s, r, Saving(c, e, id, listed)))
    ensures Exec(0, steps + (front + [Save(r)])).Some?
    ensures Ended(s, Exec(0, steps + (front + [Save(r)])).value, s.lists, SaveInCache(s.cache, c, e, id), c, e, Ok(id))
  {
    ExecSnoc(0, steps + front, Save(r));
    Regrouped(steps, front, [Save(r)]);
    assert s.reqs[r := Saving(c, e, id, listed)] - {r} == s.reqs;
  }
}
