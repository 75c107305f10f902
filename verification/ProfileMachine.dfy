/** Adds and trims of user profiles in any interleaving. A trim is two atomic steps, the read
    of size and generation and the removal under the generation check; anything may happen
    between them, trims may fail, and any number of them may be under way. */
module ProfileMachine {
  import opened Types
  import opened Profiles

  const USER_TAG_LIMIT: int := 200

  /** A trim between its two steps. */
  datatype Trim = Trim(cookie: string, action: Action, generation: nat, toRemove: nat)

  /** `log` lists every tag ever added, in the order of the adds. */
  datatype State = State(store: Store, trims: map<nat, Trim>, log: seq<UserTag>)

  datatype Step =
    | AddTag(tag: UserTag)
    | ReadSize(id: nat, cookie: string, action: Action)
    | RemoveOver(id: nat, up: bool)

  predicate Enabled(s: State, step: Step) {
    match step
    case AddTag(_) => true
    case ReadSize(id, _, _) => id !in s.trims
    case RemoveOver(id, _) => id in s.trims
  }

  /** The generation check of a removal. */
  predicate Passes(s: State, id: nat)
    requires id in s.trims
  {
    s.trims[id].cookie in s.store && s.store[s.trims[id].cookie].generation == s.trims[id].generation
  }

  function After(s: State, step: Step): State
    requires Enabled(s, step)
  {
    match step
    case AddTag(tag) => s.(store := Apply(s.store, PutTag(tag)), log := s.log + [tag])
    case ReadSize(id, cookie, action) =>
      if !OverLimit(s.store, cookie, action, USER_TAG_LIMIT) then s
      else
        var toRemove := |BinOf(s.store, cookie, action)| - USER_TAG_LIMIT;
        s.(trims := s.trims[id := Trim(cookie, action, s.store[cookie].generation, toRemove)])
    case RemoveOver(id, up) =>
      var t := s.trims[id];
      s.(trims := s.trims - {id},
         store := if up && Passes(s, id) then Apply(s.store, Remove(t.cookie, t.action, t.toRemove)) else s.store)
  }

  const INIT := State(map[], map[], [])

  function Exec(steps: seq<Step>): Option<State> {
    if steps == [] then Some(INIT)
    else
      var before := Exec(steps[..|steps| - 1]);
      if before.Some? && Enabled(before.value, steps[|steps| - 1])
      then Some(After(before.value, steps[|steps| - 1]))
      else None
  }

  /** What a bin would hold had nothing ever been removed: for each millisecond the last tag
      added under it. */
  function History(log: seq<UserTag>, cookie: string, action: Action): seq<UserTag> {
    if log == [] then []
    else
      var before, tag := History(log[..|log| - 1], cookie, action), log[|log| - 1];
      if tag.cookie == cookie && tag.action == action then Put(before, tag) else before
  }

  /** The stored bin is part of the history and agrees with it on the newest entries. */
  ghost predicate BinFits(bin: seq<UserTag>, history: seq<UserTag>) {
    && Sorted(bin) && Sorted(history)
    && Newest(bin, USER_TAG_LIMIT) == Newest(history, USER_TAG_LIMIT)
    && (forall t :: t in bin ==> t in history)
  }

  /** As long as the generation has not moved, the number to remove is still right. */
  ghost predicate TrimFits(store: Store, t: Trim) {
    && t.cookie in store
    && t.generation <= store[t.cookie].generation
    && (t.generation == store[t.cookie].generation ==>
          |BinOf(store, t.cookie, t.action)| > USER_TAG_LIMIT
          && t.toRemove == |BinOf(store, t.cookie, t.action)| - USER_TAG_LIMIT)
  }

  ghost predicate Inv(s: State) {
    && (forall cookie, action :: BinFits(BinOf(s.store, cookie, action), History(s.log, cookie, action)))
    && (forall id :: id in s.trims ==> TrimFits(s.store, s.trims[id]))
  }

  lemma PutFits(bin: seq<UserTag>, history: seq<UserTag>, tag: UserTag)
    requires BinFits(bin, history)
    ensures BinFits(Put(bin, tag), Put(history, tag))
  {
    PutSorted(bin, tag);
    PutSorted(history, tag);
    NewestAfterPut(bin, history, tag, USER_TAG_LIMIT);
    forall t | t in Put(bin, tag) ensures t in Put(history, tag) {
      PutMembers(bin, tag, t);
      PutMembers(history, tag, t);
    }
  }

  lemma TrimmedFits(bin: seq<UserTag>, history: seq<UserTag>)
    requires BinFits(bin, history)
    ensures BinFits(Newest(bin, USER_TAG_LIMIT), history)
  {
  }

  lemma WriteChangesOneBin(store: Store, w: Write, cookie: string, action: Action)
    ensures BinOf(Apply(store, w), cookie, action)
            == match w
               case PutTag(tag) =>
                 if tag.cookie == cookie && tag.action == action then Put(BinOf(store, cookie, action), tag)
                 else BinOf(store, cookie, action)
               case Remove(c, a, count) =>
                 if c == cookie && a == action && c in store then RemoveOldest(BinOf(store, cookie, action), count)
                 else BinOf(store, cookie, action)
  {
  }

  /** A write to the record of a pending trim outdates it; any other leaves it as it was. */
  lemma TrimOutdated(store: Store, w: Write, t: Trim)
    requires TrimFits(store, t)
    ensures TrimFits(Apply(store, w), t)
  {
    WriteChangesOneBin(store, w, t.cookie, t.action);
  }

  /** A removal that passes the generation check deletes exactly the oldest entries over the
      limit, of the map as it is at that instant, and leaves exactly the newest 200 of it;
      every other bin stays as it is. */
  lemma RemovalIsSafe(s: State, id: nat)
    requires Inv(s) && id in s.trims && Passes(s, id)
    ensures var t, s' := s.trims[id], After(s, RemoveOver(id, true));
            var bin, bin' := BinOf(s.store, t.cookie, t.action), BinOf(s'.store, t.cookie, t.action);
            && |bin'| == USER_TAG_LIMIT
            && bin' == Newest(bin, USER_TAG_LIMIT)
            && bin == bin[..|bin| - USER_TAG_LIMIT] + bin'
            && (forall cookie, action :: (cookie, action) != (t.cookie, t.action) ==>
                  BinOf(s'.store, cookie, action) == BinOf(s.store, cookie, action))
  {
    var t := s.trims[id];
    assert TrimFits(s.store, t);
    WriteChangesOneBin(s.store, Remove(t.cookie, t.action, t.toRemove), t.cookie, t.action);
    RemovalLeavesNewest(BinOf(s.store, t.cookie, t.action), USER_TAG_LIMIT);
    forall cookie, action | (cookie, action) != (t.cookie, t.action)
      ensures BinOf(After(s, RemoveOver(id, true)).store, cookie, action) == BinOf(s.store, cookie, action)
    {
      WriteChangesOneBin(s.store, Remove(t.cookie, t.action, t.toRemove), cookie, action);
    }
  }

  lemma AddKeepsInv(s: State, tag: UserTag)
    requires Inv(s)
    ensures Inv(After(s, AddTag(tag)))
  {
    var s' := After(s, AddTag(tag));
    assert s'.log[..|s'.log| - 1] == s.log;
    forall cookie, action ensures BinFits(BinOf(s'.store, cookie, action), History(s'.log, cookie, action)) {
      WriteChangesOneBin(s.store, PutTag(tag), cookie, action);
      assert BinFits(BinOf(s.store, cookie, action), History(s.log, cookie, action));
      PutFits(BinOf(s.store, cookie, action), History(s.log, cookie, action), tag);
    }
    forall id | id in s'.trims ensures TrimFits(s'.store, s'.trims[id]) {
      TrimOutdated(s.store, PutTag(tag), s.trims[id]);
    }
  }

  lemma RemovalKeepsInv(s: State, id: nat)
    requires Inv(s) && id in s.trims && Passes(s, id)
    ensures Inv(After(s, RemoveOver(id, true)))
  {
    var s', t := After(s, RemoveOver(id, true)), s.trims[id];
    RemovalIsSafe(s, id);
    forall cookie, action ensures BinFits(BinOf(s'.store, cookie, action), History(s'.log, cookie, action)) {
      assert BinFits(BinOf(s.store, cookie, action), History(s.log, cookie, action));
      TrimmedFits(BinOf(s.store, cookie, action), History(s.log, cookie, action));
    }
    forall i | i in s'.trims ensures TrimFits(s'.store, s'.trims[i]) {
      TrimOutdated(s.store, Remove(t.cookie, t.action, t.toRemove), s.trims[i]);
    }
  }

  lemma {:induction false} RunKeepsInv(steps: seq<Step>)
    ensures Exec(steps).Some? ==> Inv(Exec(steps).value)
  {
    if steps != [] && Exec(steps).Some? {
      var front := steps[..|steps| - 1];
      RunKeepsInv(front);
      var s := Exec(front).value;
      match steps[|steps| - 1]
      case AddTag(tag) => AddKeepsInv(s, tag);
      case ReadSize(id, cookie, action) =>
      case RemoveOver(id, up) =>
        if up && Passes(s, id) {
          RemovalKeepsInv(s, id);
        }
    }
  }

  /** In every run the newest 200 of the stored bin are the newest 200 of the whole
      last-write-wins history, with the same values, and so for every smaller number. */
  lemma NewestAreRetained(steps: seq<Step>, cookie: string, action: Action, n: int)
    requires Exec(steps).Some? && n <= USER_TAG_LIMIT
    ensures var s := Exec(steps).value;
            && Newest(BinOf(s.store, cookie, action), n) == Newest(History(s.log, cookie, action), n)
            && (forall t :: t in BinOf(s.store, cookie, action) ==> t in History(s.log, cookie, action))
  {
    RunKeepsInv(steps);
    var s := Exec(steps).value;
    assert BinFits(BinOf(s.store, cookie, action), History(s.log, cookie, action));
    FewerNewest(BinOf(s.store, cookie, action), History(s.log, cookie, action), USER_TAG_LIMIT, n);
  }

  lemma FewerNewest(a: seq<UserTag>, b: seq<UserTag>, n: int, m: int)
    requires Newest(a, n) == Newest(b, n) && m <= n
    ensures Newest(a, m) == Newest(b, m)
  {
    assert Newest(a, m) == Newest(Newest(a, n), m);
    assert Newest(b, m) == Newest(Newest(b, n), m);
  }

  /** A tag that was added once and whose millisecond is stored no more is older than at least
      200 stored tags. */
  lemma LostIsOlderThan200(steps: seq<Step>, tag: UserTag)
    requires Exec(steps).Some? && tag in Exec(steps).value.log
    requires forall t :: t in BinOf(Exec(steps).value.store, tag.cookie, tag.action) ==> Millis(t) != Millis(tag)
    ensures var bin := BinOf(Exec(steps).value.store, tag.cookie, tag.action);
            && |bin| >= USER_TAG_LIMIT
            && forall i :: |bin| - USER_TAG_LIMIT <= i < |bin| ==> Millis(tag) < Millis(bin[i])
  {
    RunKeepsInv(steps);
    var s := Exec(steps).value;
    var bin, history := BinOf(s.store, tag.cookie, tag.action), History(s.log, tag.cookie, tag.action);
    assert BinFits(bin, history);
    var h := KeyIsInHistory(s.log, tag);
    MissingIsOlder(bin, history, USER_TAG_LIMIT, h);
  }

  /** What a bin with the newest n entries of the history lacks is older than all n. */
  lemma MissingIsOlder(bin: seq<UserTag>, history: seq<UserTag>, n: int, h: nat)
    requires n > 0 && Sorted(history) && Newest(bin, n) == Newest(history, n)
    requires h < |history| && forall t :: t in bin ==> Millis(t) != Millis(history[h])
    ensures |bin| >= n
    ensures forall i :: |bin| - n <= i < |bin| ==> Millis(history[h]) < Millis(bin[i])
  {
    var top := Newest(bin, n);
    if h >= |history| - n {
      NewestContain(history, n, h);
      NewestAreStored(bin, n, history[h]);
      assert false;
    }
    forall i | |bin| - n <= i < |bin| ensures Millis(history[h]) < Millis(bin[i]) {
      var j := i - (|bin| - n);
      assert top[j] == bin[i] && top[j] == history[|history| - n + j];
    }
  }

  lemma NewestContain(bin: seq<UserTag>, n: int, h: nat)
    requires n > 0 && |bin| - n <= h < |bin|
    ensures bin[h] in Newest(bin, n)
  {
    assert bin[h] == Newest(bin, n)[if |bin| <= n then h else h - (|bin| - n)];
  }

  lemma NewestAreStored(bin: seq<UserTag>, n: int, t: UserTag)
    requires t in Newest(bin, n)
    ensures t in bin
  {
  }

  lemma {:induction false} KeyIsInHistory(log: seq<UserTag>, tag: UserTag) returns (h: nat)
    requires tag in log
    ensures Sorted(History(log, tag.cookie, tag.action))
    ensures h < |History(log, tag.cookie, tag.action)| && Millis(History(log, tag.cookie, tag.action)[h]) == Millis(tag)
  {
    var front, last := log[..|log| - 1], log[|log| - 1];
    var before := History(front, tag.cookie, tag.action);
    HistorySorted(log, tag.cookie, tag.action);
    HistorySorted(front, tag.cookie, tag.action);
    var key := tag;
    if last == tag {
      PutMembers(before, tag, tag);
    } else {
      assert log == front + [last];
      var g := KeyIsInHistory(front, tag);
      key := before[g];
      if last.cookie == tag.cookie && last.action == tag.action {
        if Millis(last) == Millis(tag) {
          key := last;
        }
        PutMembers(before, last, key);
      }
    }
    h :| h < |History(log, tag.cookie, tag.action)| && History(log, tag.cookie, tag.action)[h] == key;
  }

  lemma {:induction false} HistorySorted(log: seq<UserTag>, cookie: string, action: Action)
    ensures Sorted(History(log, cookie, action))
  {
    if log != [] {
      HistorySorted(log[..|log| - 1], cookie, action);
      PutSorted(History(log[..|log| - 1], cookie, action), log[|log| - 1]);
    }
  }
}
