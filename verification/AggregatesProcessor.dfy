/** The processor's own code: one attempt to count a tag, and the attempts the backoff allows. */
module AggregatesProcessor {
  import opened Types
  import opened KeyCodec
  import opened AggregatesDb
  import opened IdService
  import Worker = Pipeline

  /** What the world does during one attempt: the answers of the id service, whether the
      database can be reached for either operation, and the tags that land in between. */
  datatype Attempt = Attempt(ids: (string, string) -> Option<int>, up1: bool, rivals: seq<Entry>, up2: bool)

  /** The id triple of a tag, if all three ids can be had. */
  function KeyFor(ids: (string, string) -> Option<int>, tag: UserTag): Option<AggregateKey> {
    var category := GetU16ID(ids(CATEGORY, tag.productInfo.categoryId));
    var brand := GetU16ID(ids(BRAND, tag.productInfo.brandId));
    var origin := GetU16ID(ids(ORIGIN, tag.origin));
    if category.Some? && brand.Some? && origin.Some?
    then Some(AggregateKey(category.value, brand.value, origin.value))
    else None
  }

  /** The ids of the triple are what was heard for the category, the brand and the origin of
      the tag. */
  predicate Heard(ids: (string, string) -> Option<int>, tag: UserTag, key: AggregateKey) {
    && ids(CATEGORY, tag.productInfo.categoryId) == Some(key.categoryId)
    && ids(BRAND, tag.productInfo.brandId) == Some(key.brandId)
    && ids(ORIGIN, tag.origin) == Some(key.origin)
  }

  lemma KeyIsHeard(ids: (string, string) -> Option<int>, tag: UserTag, key: AggregateKey)
    ensures KeyFor(ids, tag) == Some(key) <==> Heard(ids, tag, key)
  {
  }

  /** All ids can be had and the database is there for both operations. */
  predicate Reached(a: Attempt, tag: UserTag) {
    a.up1 && a.up2 && KeyFor(a.ids, tag).Some?
  }

  /** The i-th attempt and the next are reached and get the same ids. */
  predicate TwiceReached(attempts: seq<Attempt>, i: nat, tag: UserTag)
    requires i + 1 < |attempts|
  {
    && Reached(attempts[i], tag) && Reached(attempts[i + 1], tag)
    && KeyFor(attempts[i].ids, tag) == KeyFor(attempts[i + 1].ids, tag)
  }

  /** The i-th attempt is reached and nothing of others lands within it. */
  predicate Alone(attempts: seq<Attempt>, i: nat, tag: UserTag)
    requires i < |attempts|
  {
    Reached(attempts[i], tag) && attempts[i].rivals == []
  }

  /** The record that a tag is counted in exists. */
  predicate HasRecord(records: Records, key: Option<AggregateKey>, tag: UserTag) {
    key.Some? && Name(Entry(key.value, tag)) in records
  }

  ghost predicate FromRivals(landed: seq<Entry>, attempts: seq<Attempt>, used: nat)
    requires used <= |attempts|
  {
    forall e :: e in landed ==> exists i :: 0 <= i < used && e in attempts[i].rivals
  }

  lemma MoreRivals(landed: seq<Entry>, more: seq<Entry>, attempts: seq<Attempt>, used: nat)
    requires used < |attempts| && FromRivals(landed, attempts, used) && (more == [] || more == attempts[used].rivals)
    ensures FromRivals(landed + more, attempts, used + 1)
  {
    forall e | e in landed + more ensures exists i :: 0 <= i < used + 1 && e in attempts[i].rivals {
      if e in landed {
        var i :| 0 <= i < used && e in attempts[i].rivals;
        assert 0 <= i < used + 1;
      } else {
        assert e in attempts[used].rivals;
      }
    }
  }

  ghost predicate NotTwice(attempts: seq<Attempt>, used: nat, tag: UserTag)
    requires used <= |attempts|
  {
    && (forall i :: 0 <= i < used - 1 ==> !TwiceReached(attempts, i, tag))
    && (forall i :: 0 <= i < used ==> !Alone(attempts, i, tag))
  }

  /** What is known when the attempt number `used` has failed. */
  lemma FailedAgain(attempts: seq<Attempt>, used: nat, tag: UserTag, records: Records)
    requires used < |attempts| && NotTwice(attempts, used, tag)
    requires used > 0 && Reached(attempts[used - 1], tag) ==>
               HasRecord(records, KeyFor(attempts[used - 1].ids, tag), tag)
    requires !(attempts[used].up1 && HasRecord(records, KeyFor(attempts[used].ids, tag), tag))
    requires !Alone(attempts, used, tag)
    ensures NotTwice(attempts, used + 1, tag)
  {
    assert used > 0 ==> !TwiceReached(attempts, used - 1, tag);
  }

  /** One attempt that is reached and alone is enough, and so are two reached ones in a row. */
  ghost predicate Prompt(attempts: seq<Attempt>, tag: UserTag, ok: bool, used: nat) {
    && (forall i :: 0 <= i < |attempts| && Alone(attempts, i, tag) ==> ok && used <= i + 1)
    && (forall i :: 0 <= i < |attempts| - 1 && TwiceReached(attempts, i, tag) ==> ok && used <= i + 2)
  }

  lemma PromptIfNotTwice(attempts: seq<Attempt>, used: nat, tag: UserTag)
    requires used <= |attempts| && NotTwice(attempts, used, tag)
    ensures Prompt(attempts, tag, true, used + 1)
    ensures used == |attempts| ==> Prompt(attempts, tag, false, used)
  {
  }

  /** An attempt without rivals is not lost. */
  lemma AloneSucceeds(attempts: seq<Attempt>, used: nat, tag: UserTag, before: Records, ok: bool)
    requires used < |attempts|
    requires Reached(attempts[used], tag) ==>
               var key := KeyFor(attempts[used].ids, tag);
               ok <==> HasRecord(before, key, tag) || !HasRecord(LandAll(before, attempts[used].rivals), key, tag)
    ensures Alone(attempts, used, tag) ==> ok
  {
  }

  lemma LandOneMore(records: Records, landed: seq<Entry>, e: Entry)
    ensures LandAll(records, landed + [e]) == Land(LandAll(records, landed), e)
  {
    assert (landed + [e])[..|landed|] == landed;
  }

  /** One attempt. The add comes last: a failed attempt has landed nothing of its own. */
  method UpdateAggregates(db: AggregatesClient, tag: UserTag, a: Attempt) returns (ok: bool, ghost landed: seq<Entry>)
    modifies db
    ensures landed == [] || landed == a.rivals
    ensures !ok ==> db.records == LandAll(old(db.records), landed)
    ensures ok ==> KeyFor(a.ids, tag).Some?
                   && db.records == Land(LandAll(old(db.records), landed), Entry(KeyFor(a.ids, tag).value, tag))
    ensures a.up1 && HasRecord(old(db.records), KeyFor(a.ids, tag), tag) ==> ok
    ensures ok ==> Heard(a.ids, tag, KeyFor(a.ids, tag).value)
    ensures Reached(a, tag) ==>
              var key := KeyFor(a.ids, tag);
              ok <==> HasRecord(old(db.records), key, tag) || !HasRecord(LandAll(old(db.records), a.rivals), key, tag)
    ensures a.rivals == [] ==>
              (ok <==> KeyFor(a.ids, tag).Some? && a.up1
                       && (HasRecord(old(db.records), KeyFor(a.ids, tag), tag) || a.up2))
    ensures !ok && Reached(a, tag) ==> HasRecord(db.records, KeyFor(a.ids, tag), tag)
  {
    landed := [];
    var key := new KeyFields();
    var id := GetU16ID(a.ids(CATEGORY, tag.productInfo.categoryId));
    if id.None? {
      return false, [];
    }
    key.categoryId := id.value;
    id := GetU16ID(a.ids(BRAND, tag.productInfo.brandId));
    if id.None? {
      return false, [];
    }
    key.brandId := id.value;
    id := GetU16ID(a.ids(ORIGIN, tag.origin));
    if id.None? {
      return false, [];
    }
    key.origin := id.value;
    KeyIsHeard(a.ids, tag, key.Value());
    LandAllKeepsNames(db.records, a.rivals);
    ghost var before := db.records;
    var err := db.Add(key.Value(), tag, a.up1, a.rivals, a.up2);
    if a.up1 && Name(Entry(key.Value(), tag)) !in before {
      landed := a.rivals;
    }
    ok := err == Done;
  }

  /** All attempts: the tag is counted exactly once if one of them succeeds, after which no
      other is made, and not at all otherwise. What else has landed came from rivals. A
      reached attempt succeeds if nothing lands within it, and of two in a row one does: the
      first can only lose the creation race, and then the second finds the record. */
  method UpdateAggregatesBackoff(db: AggregatesClient, tag: UserTag, attempts: seq<Attempt>)
    returns (ok: bool, used: nat, ghost landed: seq<Entry>)
    modifies db
    ensures used <= |attempts| && (!ok ==> used == |attempts|)
    ensures FromRivals(landed, attempts, used)
    ensures Prompt(attempts, tag, ok, used)
    ensures !ok ==> db.records == LandAll(old(db.records), landed)
    ensures ok ==> used > 0 && KeyFor(attempts[used - 1].ids, tag).Some?
                   && Heard(attempts[used - 1].ids, tag, KeyFor(attempts[used - 1].ids, tag).value)
                   && db.records
                      == LandAll(old(db.records), landed + [Entry(KeyFor(attempts[used - 1].ids, tag).value, tag)])
  {
    ok, used, landed := false, 0, [];
    while used < |attempts|
      invariant used <= |attempts|
      invariant FromRivals(landed, attempts, used)
      invariant db.records == LandAll(old(db.records), landed)
      invariant !ok && NotTwice(attempts, used, tag)
      invariant used > 0 && Reached(attempts[used - 1], tag) ==>
                  HasRecord(db.records, KeyFor(attempts[used - 1].ids, tag), tag)
    {
      ghost var before, more := db.records, [];
      PromptIfNotTwice(attempts, used, tag);
      ok, more := UpdateAggregates(db, tag, attempts[used]);
      AloneSucceeds(attempts, used, tag, before, ok);
      LandAllConcat(old(db.records), landed, more);
      MoreRivals(landed, more, attempts, used);
      landed := landed + more;
      used := used + 1;
      if ok {
        LandOneMore(old(db.records), landed, Entry(KeyFor(attempts[used - 1].ids, tag).value, tag));
        return;
      }
      FailedAgain(attempts, used - 1, tag, before);
    }
    PromptIfNotTwice(attempts, used, tag);
  }

  // ---------- the worker's steps are the processor's code ----------

  /** The worker after one attempt of a processor that nothing interrupts. */
  function AfterAttempt(s: Worker.State, p: nat, tag: UserTag, a: Attempt): Worker.State
    requires p < |s.procs|
  {
    var key := KeyFor(a.ids, tag);
    if key.Some? && a.up1 && (HasRecord(s.records, key, tag) || a.up2) then
      var e := Entry(key.value, tag);
      s.(procs := s.procs[p := Worker.Idle], records := Land(s.records, e), log := s.log + [e])
    else s.(procs := s.procs[p := Worker.Backoff(tag)])
  }

  function Moved(s: Worker.State, p: nat, proc: Worker.Proc): Worker.State
    requires p < |s.procs|
  {
    s.(procs := s.procs[p := proc])
  }

  lemma StepOn(s: Worker.State, steps: seq<Worker.Step>, t: Worker.State, step: Worker.Step, t': Worker.State)
    requires Worker.Exec(s, steps) == Some(t) && Worker.Enabled(t, step) && Worker.After(t, step) == t'
    ensures Worker.Exec(s, steps + [step]) == Some(t')
  {
    Worker.ExecSnoc(s, steps, step);
  }

  /** The three ids, one after the other, up to the first that cannot be had. */
  lemma IdSteps(s: Worker.State, p: nat, tag: UserTag, ids: (string, string) -> Option<int>)
    returns (steps: seq<Worker.Step>)
    requires p < |s.procs| && s.procs[p] == Worker.NeedCategory(tag)
    ensures var key := KeyFor(ids, tag);
            Worker.Exec(s, steps)
            == Some(Moved(s, p, if key.Some? then Worker.Updating(Entry(key.value, tag)) else Worker.Backoff(tag)))
  {
    var category := ids(CATEGORY, tag.productInfo.categoryId);
    var brand := ids(BRAND, tag.productInfo.brandId);
    var origin := ids(ORIGIN, tag.origin);
    var c, b, o := GetU16ID(category), GetU16ID(brand), GetU16ID(origin);
    steps := [];
    if c.None? {
      StepOn(s, steps, s, Worker.GotId(p, category), Moved(s, p, Worker.Backoff(tag)));
      steps := steps + [Worker.GotId(p, category)];
      return;
    }
    var s1 := Moved(s, p, Worker.NeedBrand(tag, c.value));
    StepOn(s, steps, s, Worker.GotId(p, category), s1);
    steps := steps + [Worker.GotId(p, category)];
    if b.None? {
      StepOn(s, steps, s1, Worker.GotId(p, brand), Moved(s, p, Worker.Backoff(tag)));
      steps := steps + [Worker.GotId(p, brand)];
      return;
    }
    var s2 := Moved(s, p, Worker.NeedOrigin(tag, c.value, b.value));
    StepOn(s, steps, s1, Worker.GotId(p, brand), s2);
    steps := steps + [Worker.GotId(p, brand)];
    var s3 := Moved(s, p, if o.Some? then Worker.Updating(Entry(AggregateKey(c.value, b.value, o.value), tag))
                          else Worker.Backoff(tag));
    StepOn(s, steps, s2, Worker.GotId(p, origin), s3);
    steps := steps + [Worker.GotId(p, origin)];
  }

  lemma WriteSteps(s: Worker.State, p: nat, e: Entry, up1: bool, up2: bool) returns (steps: seq<Worker.Step>)
    requires p < |s.procs| && s.procs[p] == Worker.Updating(e)
    ensures Worker.Exec(s, steps)
            == Some(if up1 && (Name(e) in s.records || up2)
                    then s.(procs := s.procs[p := Worker.Idle], records := Land(s.records, e), log := s.log + [e])
                    else Moved(s, p, Worker.Backoff(e.tag)))
  {
    var updated := Worker.After(s, Worker.Update(p, up1));
    StepOn(s, [], s, Worker.Update(p, up1), updated);
    steps := [] + [Worker.Update(p, up1)];
    if up1 && Name(e) !in s.records {
      assert updated == Moved(s, p, Worker.Creating(e));
      var created := Worker.After(updated, Worker.Create(p, up2));
      StepOn(s, steps, updated, Worker.Create(p, up2), created);
      assert created.procs == s.procs[p := created.procs[p]];
      steps := steps + [Worker.Create(p, up2)];
    }
  }

  /** One attempt, from the tag to the landed write or the backoff, is a run of the worker, and
      its outcome is that of the method without rivals. */
  lemma AttemptIsARun(s: Worker.State, p: nat, tag: UserTag, a: Attempt) returns (steps: seq<Worker.Step>)
    requires p < |s.procs| && s.procs[p] == Worker.NeedCategory(tag)
    ensures Worker.Exec(s, steps) == Some(AfterAttempt(s, p, tag, a))
  {
    var key := KeyFor(a.ids, tag);
    steps := IdSteps(s, p, tag, a.ids);
    if key.Some? {
      var e := Entry(key.value, tag);
      var mid := Moved(s, p, Worker.Updating(e));
      var more := WriteSteps(mid, p, e, a.up1, a.up2);
      RunsCompose(s, steps, more);
      steps := steps + more;
      assert mid.procs[p := Worker.Idle] == s.procs[p := Worker.Idle];
      assert mid.procs[p := Worker.Backoff(tag)] == s.procs[p := Worker.Backoff(tag)];
    }
  }

  lemma {:induction false} RunsCompose(s: Worker.State, a: seq<Worker.Step>, b: seq<Worker.Step>)
    requires Worker.Exec(s, a).Some? && Worker.Exec(Worker.Exec(s, a).value, b).Some?
    ensures Worker.Exec(s, a + b) == Worker.Exec(Worker.Exec(s, a).value, b)
  {
    if b == [] {
      assert a + b == a;
    } else {
      var front := b[..|b| - 1];
      RunsCompose(s, a, front);
      assert (a + b)[..|a + b| - 1] == a + front;
    }
  }
}
