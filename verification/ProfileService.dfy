/** The profile endpoints of the API: adding a tag with its lazy trim, and reading back the
    newest tags of a time range. */
module ProfileService {
  import opened Types
  import opened Profiles
  import opened ProfileMachine

  const USER_TAG_GC_THRESHOLD: int := 220

  // ---------- adding and trimming ----------

  /** What surrounds one attempt to trim: the writes that land before it, those that land
      between its two steps, and whether the database can be reached for each step. */
  datatype Window = Window(before: seq<Write>, up1: bool, between: seq<Write>, up2: bool)

  predicate Disturbed(w: Window, cookie: string) {
    !w.up1 || !w.up2 || Touches(w.between, cookie)
  }

  function DisturbedCount(windows: seq<Window>, cookie: string): nat {
    if windows == [] then 0
    else DisturbedCount(windows[..|windows| - 1], cookie) + (if Disturbed(windows[|windows| - 1], cookie) then 1 else 0)
  }

  lemma {:induction false} DisturbedPrefix(windows: seq<Window>, n: nat, cookie: string)
    requires n <= |windows|
    ensures DisturbedCount(windows[..n], cookie) <= DisturbedCount(windows, cookie)
  {
    if n < |windows| {
      DisturbedPrefix(windows[..|windows| - 1], n, cookie);
      assert windows[..|windows| - 1][..n] == windows[..n];
    } else {
      assert windows[..n] == windows;
    }
  }

  /** The store after as many attempts as there are windows. */
  function AfterWindows(store: Store, windows: seq<Window>, cookie: string, action: Action): Store {
    if windows == [] then store
    else
      var before, w := AfterWindows(store, windows[..|windows| - 1], cookie, action), windows[|windows| - 1];
      TrimOutcome(ApplyAll(before, w.before), cookie, action, USER_TAG_LIMIT, w.up1, w.between, w.up2).0
  }

  lemma OneMoreWindow(store: Store, windows: seq<Window>, n: nat, cookie: string, action: Action)
    requires n < |windows|
    ensures DisturbedCount(windows[..n], cookie) <= DisturbedCount(windows, cookie)
    ensures DisturbedCount(windows[..n + 1], cookie)
            == DisturbedCount(windows[..n], cookie) + (if Disturbed(windows[n], cookie) then 1 else 0)
            <= DisturbedCount(windows, cookie)
    ensures var before, w := AfterWindows(store, windows[..n], cookie, action), windows[n];
            AfterWindows(store, windows[..n + 1], cookie, action)
            == TrimOutcome(ApplyAll(before, w.before), cookie, action, USER_TAG_LIMIT, w.up1, w.between, w.up2).0
  {
    assert windows[..n + 1][..n] == windows[..n];
    DisturbedPrefix(windows, n, cookie);
    DisturbedPrefix(windows, n + 1, cookie);
  }

  lemma {:induction false} ApplyAllConcat(store: Store, a: seq<Write>, b: seq<Write>)
    ensures ApplyAll(store, a + b) == ApplyAll(ApplyAll(store, a), b)
  {
    if b == [] {
      assert a + b == a;
    } else {
      assert (a + b)[..|a + b| - 1] == a + b[..|b| - 1];
      ApplyAllConcat(store, a, b[..|b| - 1]);
    }
  }

  /** Every one of the writes is one of others' in the first n windows. */
  ghost predicate OfOthers(writes: seq<Write>, windows: seq<Window>, n: nat)
    requires n <= |windows|
  {
    forall w :: w in writes ==> exists i :: 0 <= i < n && w in windows[i].before + windows[i].between
  }

  /** The bin has the newest of what the writes have left in it, and every other bin all of it. */
  ghost predicate TrimmedAfter(store: Store, rest: Store, cookie: string, action: Action) {
    && BinOf(store, cookie, action) == Newest(BinOf(rest, cookie, action), USER_TAG_LIMIT)
    && forall c, a :: (c, a) != (cookie, action) ==> BinOf(store, c, a) == BinOf(rest, c, a)
  }

  /** One attempt: it ends with nothing but the writes of others done, or with these and the
      bin trimmed. */
  lemma AttemptByWrites(store: Store, w: Window, cookie: string, action: Action) returns (writes: seq<Write>)
    ensures writes == w.before || writes == w.before + w.between
    ensures var start := ApplyAll(store, w.before);
            var (after, res) := TrimOutcome(start, cookie, action, USER_TAG_LIMIT, w.up1, w.between, w.up2);
            var rest := ApplyAll(store, writes);
            if res == Trimmed || res == NothingToDo then TrimmedAfter(after, rest, cookie, action) else after == rest
  {
    var start := ApplyAll(store, w.before);
    if w.up1 && OverLimit(start, cookie, action, USER_TAG_LIMIT) {
      writes := w.before + w.between;
      ApplyAllConcat(store, w.before, w.between);
      TrimByWrites(start, w.between, cookie, action, w.up2);
    } else {
      writes := w.before;
    }
  }

  lemma TrimByWrites(start: Store, others: seq<Write>, cookie: string, action: Action, up: bool)
    requires OverLimit(start, cookie, action, USER_TAG_LIMIT)
    ensures var (after, res) := TrimOutcome(start, cookie, action, USER_TAG_LIMIT, true, others, up);
            var rest := ApplyAll(start, others);
            res != NothingToDo && (if res == Trimmed then TrimmedAfter(after, rest, cookie, action) else after == rest)
  {
    GenerationTellsWrites(start, others, cookie);
  }

  lemma MoreOfOthers(landed: seq<Write>, more: seq<Write>, windows: seq<Window>, n: nat)
    requires n < |windows| && OfOthers(landed, windows, n)
    requires more == windows[n].before || more == windows[n].before + windows[n].between
    ensures OfOthers(landed + more, windows, n + 1)
  {
    forall w | w in landed + more ensures exists i :: 0 <= i < n + 1 && w in windows[i].before + windows[i].between {
      if w in landed {
        var i :| 0 <= i < n && w in windows[i].before + windows[i].between;
        assert 0 <= i < n + 1;
      } else {
        assert w in windows[n].before + windows[n].between;
      }
    }
  }

  class ProfileServer {
    const db: UserProfileClient

    constructor (db: UserProfileClient)
      ensures this.db == db
    {
      this.db := db;
    }

    /** The retry loop, with as many attempts as there are windows. It ends with the bin
        within the limit after at most one attempt more than there are disturbed ones. What
        others have written in the meantime is kept, and only the oldest entries of the bin go. */
    method RemoveOldUserTags(cookie: string, action: Action, windows: seq<Window>)
      returns (done: bool, attempts: nat, ghost landed: seq<Write>)
      modifies db
      ensures attempts <= |windows| && attempts <= DisturbedCount(windows, cookie) + 1
      ensures DisturbedCount(windows, cookie) < |windows| ==> done
      ensures !done ==> attempts == |windows|
      ensures done ==> |BinOf(db.store, cookie, action)| <= USER_TAG_LIMIT
      ensures db.store == AfterWindows(old(db.store), windows[..attempts], cookie, action)
      ensures OfOthers(landed, windows, attempts)
      ensures !done ==> db.store == ApplyAll(old(db.store), landed)
      ensures done ==> TrimmedAfter(db.store, ApplyAll(old(db.store), landed), cookie, action)
    {
      done, attempts, landed := false, 0, [];
      while attempts < |windows|
        invariant attempts <= |windows|
        invariant attempts == DisturbedCount(windows[..attempts], cookie)
        invariant db.store == AfterWindows(old(db.store), windows[..attempts], cookie, action)
        invariant OfOthers(landed, windows, attempts) && db.store == ApplyAll(old(db.store), landed)
      {
        var w := windows[attempts];
        OneMoreWindow(old(db.store), windows, attempts, cookie, action);
        ghost var more := AttemptByWrites(db.store, w, cookie, action);
        ApplyAllConcat(old(db.store), landed, more);
        MoreOfOthers(landed, more, windows, attempts);
        landed := landed + more;
        db.store := ApplyAll(db.store, w.before);
        var res := db.RemoveOverLimit(cookie, action, USER_TAG_LIMIT, w.up1, w.between, w.up2);
        attempts := attempts + 1;
        if res == Trimmed || res == NothingToDo {
          done := true;
          return;
        }
      }
      assert windows[..attempts] == windows;
    }

    /** Adds the tag and, if the bin has grown past the threshold, trims it. The trim is a
        task of its own; here it has ended when the method does. */
    method AddUserTag(tag: UserTag, up: bool, windows: seq<Window>) returns (ok: bool, ghost landed: seq<Write>)
      modifies db
      ensures ok == up
      ensures !up ==> db.store == old(db.store)
      ensures up ==>
                var added := Apply(old(db.store), PutTag(tag));
                if |Put(BinOf(old(db.store), tag.cookie, tag.action), tag)| <= USER_TAG_GC_THRESHOLD
                then db.store == added
                else exists n: nat :: n <= |windows|
                       && db.store == AfterWindows(added, windows[..n], tag.cookie, tag.action)
      ensures up && |Put(BinOf(old(db.store), tag.cookie, tag.action), tag)| > USER_TAG_GC_THRESHOLD ==>
                var rest := ApplyAll(Apply(old(db.store), PutTag(tag)), landed);
                && OfOthers(landed, windows, |windows|)
                && (db.store == rest || TrimmedAfter(db.store, rest, tag.cookie, tag.action))
                && (DisturbedCount(windows, tag.cookie) < |windows| ==>
                      TrimmedAfter(db.store, rest, tag.cookie, tag.action)
                      && |BinOf(db.store, tag.cookie, tag.action)| <= USER_TAG_LIMIT)
      ensures up && windows == [Window([], true, [], true)] ==>
                var grown := Put(BinOf(old(db.store), tag.cookie, tag.action), tag);
                BinOf(db.store, tag.cookie, tag.action)
                == if |grown| > USER_TAG_GC_THRESHOLD then Newest(grown, USER_TAG_LIMIT) else grown
    {
      landed := [];
      var newLen := db.Add(tag, up);
      if newLen.Err? {
        return false, [];
      }
      WriteChangesOneBin(old(db.store), PutTag(tag), tag.cookie, tag.action);
      if newLen.value > USER_TAG_GC_THRESHOLD {
        ghost var added := db.store;
        var done, attempts;
        done, attempts, landed := RemoveOldUserTags(tag.cookie, tag.action, windows);
        EarlierOthers(landed, windows, attempts);
        if windows == [Window([], true, [], true)] {
          CalmWindow(landed, windows, attempts, tag.cookie);
        }
      }
      ok := true;
    }

    /** Walks the ascending tags backwards and picks those in the range until the limit. */
    method ConvertTags(tags: seq<UserTag>, from: Time, to: Time, limit: nat) returns (selected: seq<UserTag>)
      ensures selected == NewestMatches(tags, from, to, limit)
    {
      selected := [];
      if limit > 0 {
        var toMilli, fromMilli := UnixMilli(to), UnixMilli(from);
        var i := |tags| - 1;
        assert tags[..|tags|] == tags;
        while i >= 0 && |selected| < limit
          invariant -1 <= i < |tags| && |selected| <= limit
          invariant selected + Backwards(tags[..i + 1], from, to, limit - |selected|)
                    == Backwards(tags, from, to, limit)
        {
          var milli := Millis(tags[i]);
          BackwardsStep(tags, i, from, to, limit - |selected|);
          if fromMilli <= milli && milli < toMilli {
            ghost var rest := Backwards(tags[..i], from, to, limit - |selected| - 1);
            assert selected + ([tags[i]] + rest) == (selected + [tags[i]]) + rest;
            selected := selected + [tags[i]];
          }
          i := i - 1;
        }
      }
      BackwardsIsNewestMatches(tags, from, to, limit);
    }

    /** An unknown cookie has an empty profile; a failing database is an error. */
    method UserProfiles(cookie: string, from: Time, to: Time, limit: nat, up: bool)
      returns (res: Result<UserProfile, GetError>)
      ensures res == if !up then Err(Unreachable)
                     else Ok(UserProfile(NewestMatches(BinOf(db.store, cookie, View), from, to, limit),
                                         NewestMatches(BinOf(db.store, cookie, Buy), from, to, limit)))
    {
      var got := db.Get(cookie, up);
      if got.Err? {
        if got.error == KeyNotFound {
          return Ok(UserProfile([], []));
        }
        return Err(got.error);
      }
      var views := ConvertTags(got.value.views, from, to, limit);
      var buys := ConvertTags(got.value.buys, from, to, limit);
      res := Ok(UserProfile(views, buys));
    }
  }

  lemma EarlierOthers(landed: seq<Write>, windows: seq<Window>, n: nat)
    requires n <= |windows| && OfOthers(landed, windows, n)
    ensures OfOthers(landed, windows, |windows|)
  {
    forall w | w in landed ensures exists i :: 0 <= i < |windows| && w in windows[i].before + windows[i].between {
      var i :| 0 <= i < n && w in windows[i].before + windows[i].between;
      assert 0 <= i < |windows|;
    }
  }

  /** An undisturbed first window has no writes of others. */
  lemma CalmWindow(landed: seq<Write>, windows: seq<Window>, n: nat, cookie: string)
    requires windows == [Window([], true, [], true)] && n <= 1 && OfOthers(landed, windows, n)
    ensures DisturbedCount(windows, cookie) == 0 && landed == []
  {
    assert windows[..0] == [];
    if landed != [] {
      SomeOther(landed, windows, n);
    }
  }

  lemma SomeOther(landed: seq<Write>, windows: seq<Window>, n: nat)
    requires n <= |windows| && OfOthers(landed, windows, n) && landed != []
    ensures exists i :: 0 <= i < n && windows[i].before + windows[i].between != []
  {
    var w := landed[0];
    assert w in landed;
    var i :| 0 <= i < n && w in windows[i].before + windows[i].between;
    assert windows[i].before + windows[i].between != [];
  }

  // ---------- a trim is a run of the machine ----------

  function PutTags(tags: seq<UserTag>): seq<Write> {
    seq(|tags|, i requires 0 <= i < |tags| => PutTag(tags[i]))
  }

  function AddTags(tags: seq<UserTag>): seq<Step> {
    seq(|tags|, i requires 0 <= i < |tags| => AddTag(tags[i]))
  }

  lemma StepOn(steps: seq<Step>, s: State, step: Step)
    requires Exec(steps) == Some(s) && Enabled(s, step)
    ensures Exec(steps + [step]) == Some(After(s, step))
  {
    assert (steps + [step])[..|steps|] == steps;
  }

  lemma {:induction false} AddsAreARun(steps: seq<Step>, s: State, tags: seq<UserTag>)
    requires Exec(steps) == Some(s)
    ensures Exec(steps + AddTags(tags))
            == Some(s.(store := ApplyAll(s.store, PutTags(tags)), log := s.log + tags))
  {
    if tags == [] {
      assert steps + AddTags(tags) == steps && s.log + tags == s.log;
    } else {
      var front, last := tags[..|tags| - 1], tags[|tags| - 1];
      AddsAreARun(steps, s, front);
      var mid := s.(store := ApplyAll(s.store, PutTags(front)), log := s.log + front);
      StepOn(steps + AddTags(front), mid, AddTag(last));
      OneMoreAdd(steps, s.log, tags);
      assert PutTags(tags)[..|tags| - 1] == PutTags(front);
    }
  }

  lemma OneMoreAdd(steps: seq<Step>, log: seq<UserTag>, tags: seq<UserTag>)
    requires tags != []
    ensures var front, last := tags[..|tags| - 1], tags[|tags| - 1];
            steps + AddTags(front) + [AddTag(last)] == steps + AddTags(tags) && log + front + [last] == log + tags
  {
    assert AddTags(tags[..|tags| - 1]) + [AddTag(tags[|tags| - 1])] == AddTags(tags);
  }

  /** The read, the adds of others and the removal of the machine leave the same store as one
      call of the client's method, for any tags that land in between. */
  lemma TrimIsARun(steps: seq<Step>, id: nat, cookie: string, action: Action, tags: seq<UserTag>, up: bool)
    returns (more: seq<Step>)
    requires Exec(steps).Some? && id !in Exec(steps).value.trims
    ensures var s := Exec(steps).value;
            var over := OverLimit(s.store, cookie, action, USER_TAG_LIMIT);
            && more == (if over then [ReadSize(id, cookie, action)] + AddTags(tags) + [RemoveOver(id, up)]
                        else [ReadSize(id, cookie, action)])
            && Exec(steps + more)
               == Some(State(TrimOutcome(s.store, cookie, action, USER_TAG_LIMIT, true, PutTags(tags), up).0,
                             s.trims, if over then s.log + tags else s.log))
  {
    var s := Exec(steps).value;
    var read := ReadSize(id, cookie, action);
    more := [read];
    StepOn(steps, s, read);
    if OverLimit(s.store, cookie, action, USER_TAG_LIMIT) {
      var pending := After(s, read);
      AddsAreARun(steps + [read], pending, tags);
      var mid := Interrupted(s, id, cookie, action, tags);
      RemovalIsTrim(s, id, cookie, action, tags, up);
      StepOn(steps + [read] + AddTags(tags), mid, RemoveOver(id, up));
      more := [read] + AddTags(tags) + [RemoveOver(id, up)];
      assert steps + [read] + AddTags(tags) + [RemoveOver(id, up)] == steps + more;
    }
  }

  /** A pending trim after the adds of others. */
  function Interrupted(s: State, id: nat, cookie: string, action: Action, tags: seq<UserTag>): State
    requires id !in s.trims
  {
    After(s, ReadSize(id, cookie, action)).(store := ApplyAll(s.store, PutTags(tags)), log := s.log + tags)
  }

  lemma PassesIfUntouched(s: State, id: nat, cookie: string, action: Action, tags: seq<UserTag>)
    requires id !in s.trims && OverLimit(s.store, cookie, action, USER_TAG_LIMIT)
    ensures var mid := Interrupted(s, id, cookie, action, tags);
            && id in mid.trims && mid.trims - {id} == s.trims && cookie in mid.store
            && mid.trims[id].cookie == cookie && mid.trims[id].action == action
            && mid.trims[id].toRemove == |BinOf(s.store, cookie, action)| - USER_TAG_LIMIT
            && (Passes(mid, id) <==> !Touches(PutTags(tags), cookie))
            && (Passes(mid, id) ==> mid.store[cookie] == s.store[cookie])
  {
    GenerationTellsWrites(s.store, PutTags(tags), cookie);
  }

  lemma RemovalIsTrim(s: State, id: nat, cookie: string, action: Action, tags: seq<UserTag>, up: bool)
    requires id !in s.trims && OverLimit(s.store, cookie, action, USER_TAG_LIMIT)
    ensures var mid := Interrupted(s, id, cookie, action, tags);
            && id in mid.trims
            && After(mid, RemoveOver(id, up))
               == State(TrimOutcome(s.store, cookie, action, USER_TAG_LIMIT, true, PutTags(tags), up).0,
                        s.trims, s.log + tags)
  {
    PassesIfUntouched(s, id, cookie, action, tags);
    RemovalLeavesNewest(BinOf(s.store, cookie, action), USER_TAG_LIMIT);
  }

  // ---------- the size of a bin ----------

  /** Whether the bin has outgrown the threshold by an add and the trim that this add triggers
      has not been done yet. */
  predicate Due(steps: seq<Step>, cookie: string, action: Action)
    requires Exec(steps).Some?
  {
    steps != [] &&
    var front, step := steps[..|steps| - 1], steps[|steps| - 1];
    var s := Exec(front).value;
    match step
    case AddTag(tag) =>
      (tag.cookie == cookie && tag.action == action
       && |Put(BinOf(s.store, cookie, action), tag)| > USER_TAG_GC_THRESHOLD)
      || Due(front, cookie, action)
    case ReadSize(_, _, _) => Due(front, cookie, action)
    case RemoveOver(id, up) => Due(front, cookie, action) && !(up && Passes(s, id) && TrimsBin(s, id, cookie, action))
  }

  predicate TrimsBin(s: State, id: nat, cookie: string, action: Action)
    requires id in s.trims
  {
    s.trims[id].cookie == cookie && s.trims[id].action == action
  }

  /** Nothing is added to the bin while a trim of it is due. Adds to other bins, other trims of
      this one and trims that fail are free. */
  predicate Paced(steps: seq<Step>, cookie: string, action: Action)
    requires Exec(steps).Some?
  {
    steps == [] ||
    var front, step := steps[..|steps| - 1], steps[|steps| - 1];
    && Paced(front, cookie, action)
    && (step.AddTag? && step.tag.cookie == cookie && step.tag.action == action ==> !Due(front, cookie, action))
  }

  /** In every such run the bin never exceeds 221 entries, and has more than 220 exactly as long
      as a trim is due. */
  lemma {:induction false} PacedBinBound(steps: seq<Step>, cookie: string, action: Action)
    requires Exec(steps).Some? && Paced(steps, cookie, action)
    ensures var bin := BinOf(Exec(steps).value.store, cookie, action);
            |bin| <= 221 && (|bin| > 220 <==> Due(steps, cookie, action))
  {
    if steps != [] {
      var front, step := steps[..|steps| - 1], steps[|steps| - 1];
      PacedBinBound(front, cookie, action);
      RunKeepsInv(front);
      StepSizes(Exec(front).value, step, cookie, action);
    }
  }

  /** What one step does to the size of a bin: an add to it may add one entry, a removal from it
      that passes leaves 200, and nothing else touches it. */
  lemma StepSizes(s: State, step: Step, cookie: string, action: Action)
    requires Inv(s) && Enabled(s, step)
    ensures var bin, bin' := BinOf(s.store, cookie, action), BinOf(After(s, step).store, cookie, action);
            match step
            case AddTag(tag) =>
              if tag.cookie == cookie && tag.action == action
              then |bin| <= |bin'| <= |bin| + 1 && bin' == Put(bin, tag)
              else bin' == bin
            case ReadSize(_, _, _) => bin' == bin
            case RemoveOver(id, up) =>
              if up && Passes(s, id) && TrimsBin(s, id, cookie, action) then |bin'| == USER_TAG_LIMIT < |bin|
              else bin' == bin
  {
    match step
    case AddTag(tag) =>
      WriteChangesOneBin(s.store, PutTag(tag), cookie, action);
      assert BinFits(BinOf(s.store, cookie, action), History(s.log, cookie, action));
      PutSorted(BinOf(s.store, cookie, action), tag);
    case ReadSize(_, _, _) =>
    case RemoveOver(id, up) =>
      if up && Passes(s, id) {
        RemovalIsSafe(s, id);
        assert TrimFits(s.store, s.trims[id]);
      }
  }

  /** In every run at all, paced or not, no step takes a bin that has 200 entries below them,
      and none makes a smaller one shrink. */
  lemma {:induction false} NeverTrimmedBelow200(steps: seq<Step>, more: seq<Step>, cookie: string, action: Action)
    requires Exec(steps + more).Some?
    ensures Exec(steps).Some?
    ensures var before, after := |BinOf(Exec(steps).value.store, cookie, action)|,
                                 |BinOf(Exec(steps + more).value.store, cookie, action)|;
            after >= before || after >= USER_TAG_LIMIT
  {
    if more == [] {
      assert steps + more == steps;
    } else {
      var front := more[..|more| - 1];
      assert (steps + more)[..|steps + more| - 1] == steps + front;
      NeverTrimmedBelow200(steps, front, cookie, action);
      RunKeepsInv(steps + front);
      StepSizes(Exec(steps + front).value, more[|more| - 1], cookie, action);
    }
  }

  // ---------- reading ----------

  predicate InRange(tag: UserTag, from: Time, to: Time) {
    UnixMilli(from) <= Millis(tag) < UnixMilli(to)
  }

  function Matches(tags: seq<UserTag>, from: Time, to: Time): seq<UserTag> {
    if tags == [] then []
    else
      var before, last := Matches(tags[..|tags| - 1], from, to), tags[|tags| - 1];
      if InRange(last, from, to) then before + [last] else before
  }

  function Reversed(tags: seq<UserTag>): seq<UserTag> {
    if tags == [] then [] else [tags[|tags| - 1]] + Reversed(tags[..|tags| - 1])
  }

  /** The newest `limit` of the tags in the range, newest first. */
  function NewestMatches(tags: seq<UserTag>, from: Time, to: Time, limit: int): seq<UserTag> {
    Reversed(Newest(Matches(tags, from, to), limit))
  }

  /** The same, the way the loop finds them. */
  function Backwards(tags: seq<UserTag>, from: Time, to: Time, limit: int): seq<UserTag> {
    if tags == [] || limit <= 0 then []
    else
      var front, last := tags[..|tags| - 1], tags[|tags| - 1];
      if InRange(last, from, to) then [last] + Backwards(front, from, to, limit - 1)
      else Backwards(front, from, to, limit)
  }

  lemma BackwardsStep(tags: seq<UserTag>, i: nat, from: Time, to: Time, limit: int)
    requires i < |tags| && limit > 0
    ensures Backwards(tags[..i + 1], from, to, limit)
            == if InRange(tags[i], from, to) then [tags[i]] + Backwards(tags[..i], from, to, limit - 1)
               else Backwards(tags[..i], from, to, limit)
  {
    assert tags[..i + 1][..i] == tags[..i];
  }

  lemma {:induction false} BackwardsIsNewestMatches(tags: seq<UserTag>, from: Time, to: Time, limit: int)
    ensures Backwards(tags, from, to, limit) == NewestMatches(tags, from, to, limit)
  {
    if tags != [] && limit > 0 {
      var front, last := tags[..|tags| - 1], tags[|tags| - 1];
      if InRange(last, from, to) {
        BackwardsIsNewestMatches(front, from, to, limit - 1);
        NewestSnoc(Matches(front, from, to), last, limit);
        ReversedSnoc(Newest(Matches(front, from, to), limit - 1), last);
      } else {
        BackwardsIsNewestMatches(front, from, to, limit);
      }
    }
  }

  lemma ReversedSnoc(tags: seq<UserTag>, t: UserTag)
    ensures Reversed(tags + [t]) == [t] + Reversed(tags)
  {
    assert (tags + [t])[..|tags|] == tags;
  }

  lemma {:induction false} ReversedLength(tags: seq<UserTag>)
    ensures |Reversed(tags)| == |tags|
  {
    if tags != [] {
      ReversedLength(tags[..|tags| - 1]);
    }
  }

  lemma {:induction false} FoundAreMatches(tags: seq<UserTag>, from: Time, to: Time, limit: int, t: UserTag)
    requires t in Backwards(tags, from, to, limit)
    ensures t in tags && InRange(t, from, to)
  {
    var front, last := tags[..|tags| - 1], tags[|tags| - 1];
    assert tags == front + [last];
    if t != last || !InRange(last, from, to) {
      FoundAreMatches(front, from, to, if InRange(last, from, to) then limit - 1 else limit, t);
    }
  }

  lemma {:induction false} FoundAreDescending(tags: seq<UserTag>, from: Time, to: Time, limit: int, i: nat, j: nat)
    requires Sorted(tags) && i < j < |Backwards(tags, from, to, limit)|
    ensures Millis(Backwards(tags, from, to, limit)[i]) > Millis(Backwards(tags, from, to, limit)[j])
  {
    var front, last := tags[..|tags| - 1], tags[|tags| - 1];
    if !InRange(last, from, to) {
      FoundAreDescending(front, from, to, limit, i, j);
    } else {
      var rest := Backwards(front, from, to, limit - 1);
      if i == 0 {
        FoundAreMatches(front, from, to, limit - 1, rest[j - 1]);
        InFrontIsOlder(tags, rest[j - 1]);
      } else {
        FoundAreDescending(front, from, to, limit - 1, i - 1, j - 1);
      }
    }
  }

  lemma InFrontIsOlder(tags: seq<UserTag>, t: UserTag)
    requires Sorted(tags) && tags != [] && t in tags[..|tags| - 1]
    ensures Millis(t) < Millis(tags[|tags| - 1])
  {
    var i :| 0 <= i < |tags| - 1 && tags[i] == t;
  }

  lemma {:induction false} LeftOutAreOlder(tags: seq<UserTag>, from: Time, to: Time, limit: int, t: UserTag, i: nat)
    requires Sorted(tags) && t in tags && InRange(t, from, to) && t !in Backwards(tags, from, to, limit)
    requires i < |Backwards(tags, from, to, limit)|
    ensures Millis(t) < Millis(Backwards(tags, from, to, limit)[i])
  {
    var front, last := tags[..|tags| - 1], tags[|tags| - 1];
    assert tags == front + [last];
    if !InRange(last, from, to) {
      LeftOutAreOlder(front, from, to, limit, t, i);
    } else if i == 0 {
      InFrontIsOlder(tags, t);
    } else {
      LeftOutAreOlder(front, from, to, limit - 1, t, i - 1);
    }
  }

  /** The answer is right: as many as there are, up to the limit, in strictly descending time,
      all stored and in the range, and every match it leaves out is older than all it gives. */
  lemma NewestMatchesAreRight(tags: seq<UserTag>, from: Time, to: Time, limit: nat)
    requires Sorted(tags)
    ensures var answer := NewestMatches(tags, from, to, limit);
            && |answer| == (if |Matches(tags, from, to)| <= limit then |Matches(tags, from, to)| else limit)
            && (forall i, j :: 0 <= i < j < |answer| ==> Millis(answer[i]) > Millis(answer[j]))
            && (forall t :: t in answer ==> t in tags && UnixMilli(from) <= Millis(t) < UnixMilli(to))
            && (forall t, i :: t in tags && UnixMilli(from) <= Millis(t) < UnixMilli(to) && t !in answer
                               && 0 <= i < |answer| ==>
                  Millis(t) < Millis(answer[i]))
  {
    BackwardsIsNewestMatches(tags, from, to, limit);
    ReversedLength(Newest(Matches(tags, from, to), limit));
    var answer := Backwards(tags, from, to, limit);
    forall i, j | 0 <= i < j < |answer| ensures Millis(answer[i]) > Millis(answer[j]) {
      FoundAreDescending(tags, from, to, limit, i, j);
    }
    forall t | t in answer ensures t in tags && InRange(t, from, to) {
      FoundAreMatches(tags, from, to, limit, t);
    }
    forall t, i | t in tags && InRange(t, from, to) && t !in answer && 0 <= i < |answer|
      ensures Millis(t) < Millis(answer[i])
    {
      LeftOutAreOlder(tags, from, to, limit, t, i);
    }
  }

  /** How many tags of a bin are not before `to`. */
  function CountFrom(tags: seq<UserTag>, to: Time): nat {
    if tags == [] then 0
    else CountFrom(tags[..|tags| - 1], to) + (if Millis(tags[|tags| - 1]) >= UnixMilli(to) then 1 else 0)
  }

  /** Whether the newest n entries of a bin decide the answer to a query: the bin has no more,
      or they hold as many matches as are asked for, or the range does not begin before them. */
  predicate Decided(tags: seq<UserTag>, n: int, from: Time, to: Time, limit: nat) {
    || |tags| < n
    || |Matches(Newest(tags, n), from, to)| >= limit
    || (0 < n <= |tags| && UnixMilli(from) >= Millis(tags[|tags| - n]))
  }

  lemma {:induction false} MatchesConcat(a: seq<UserTag>, b: seq<UserTag>, from: Time, to: Time)
    ensures Matches(a + b, from, to) == Matches(a, from, to) + Matches(b, from, to)
  {
    if b == [] {
      assert a + b == a;
    } else {
      assert (a + b)[..|a + b| - 1] == a + b[..|b| - 1];
      MatchesConcat(a, b[..|b| - 1], from, to);
    }
  }

  lemma {:induction false} NoMatches(tags: seq<UserTag>, from: Time, to: Time)
    requires forall t :: t in tags ==> Millis(t) < UnixMilli(from)
    ensures Matches(tags, from, to) == []
  {
    if tags != [] {
      NoMatches(tags[..|tags| - 1], from, to);
    }
  }

  /** Two bins with the same newest n tags give the same answer to every query that these
      decide. */
  lemma SameNewestSameAnswer(a: seq<UserTag>, b: seq<UserTag>, n: int, from: Time, to: Time, limit: nat)
    requires Sorted(a) && Sorted(b) && Newest(a, n) == Newest(b, n)
    requires Decided(a, n, from, to, limit)
    ensures NewestMatches(a, from, to, limit) == NewestMatches(b, from, to, limit)
  {
    if |a| < n {
      assert a == b;
    } else {
      AnswerOfNewest(a, n, from, to, limit);
      AnswerOfNewest(b, n, from, to, limit);
    }
  }

  lemma AnswerOfNewest(tags: seq<UserTag>, n: int, from: Time, to: Time, limit: nat)
    requires Sorted(tags) && |tags| >= n
    requires |Matches(Newest(tags, n), from, to)| >= limit
             || (n > 0 && UnixMilli(from) >= Millis(Newest(tags, n)[0]))
    ensures NewestMatches(tags, from, to, limit) == NewestMatches(Newest(tags, n), from, to, limit)
  {
    var top := Newest(tags, n);
    var rest := tags[..|tags| - |top|];
    assert tags == rest + top;
    MatchesConcat(rest, top, from, to);
    if |Matches(top, from, to)| >= limit {
      NewestOfConcat(Matches(rest, from, to), Matches(top, from, to), limit);
    } else {
      forall t | t in rest ensures Millis(t) < UnixMilli(from) {
        var i :| 0 <= i < |rest| && rest[i] == t;
        assert tags[i] == t && tags[|rest|] == top[0];
      }
      NoMatches(rest, from, to);
      assert [] + Matches(top, from, to) == Matches(top, from, to);
    }
  }

  lemma NewestOfConcat(a: seq<UserTag>, b: seq<UserTag>, n: int)
    requires |b| >= n
    ensures Newest(a + b, n) == Newest(b, n)
  {
  }

  /** In every run, however adds and trims interleave, the endpoint answers a query as it
      would over the whole history, whenever the newest 200 stored tags decide it, and so
      always while the bin is smaller than that. */
  lemma QueryAsOverHistory(steps: seq<Step>, cookie: string, action: Action, from: Time, to: Time, limit: nat)
    requires Exec(steps).Some?
    requires Decided(BinOf(Exec(steps).value.store, cookie, action), USER_TAG_LIMIT, from, to, limit)
    ensures var s := Exec(steps).value;
            NewestMatches(BinOf(s.store, cookie, action), from, to, limit)
            == NewestMatches(History(s.log, cookie, action), from, to, limit)
  {
    RunKeepsInv(steps);
    var s := Exec(steps).value;
    var bin, history := BinOf(s.store, cookie, action), History(s.log, cookie, action);
    assert BinFits(bin, history);
    SameNewestSameAnswer(bin, history, USER_TAG_LIMIT, from, to, limit);
  }

  /** A simpler condition that is enough: the limit, and what lies at or after the end of the
      range, make no more than n. */
  lemma FewIsDecided(tags: seq<UserTag>, n: int, from: Time, to: Time, limit: nat)
    requires Sorted(tags) && limit + CountFrom(tags, to) <= n
    ensures Decided(tags, n, from, to, limit)
  {
    if limit > 0 && |tags| >= n && UnixMilli(from) < Millis(tags[|tags| - n]) {
      var rest, top := tags[..|tags| - n], tags[|tags| - n..];
      assert Newest(tags, n) == top && tags == rest + top;
      CountFromConcat(rest, top, to);
      AllFromFirst(rest, top, UnixMilli(from));
      MatchesUpToEnd(top, from, to);
    }
  }

  lemma AllFromFirst(rest: seq<UserTag>, top: seq<UserTag>, bound: int)
    requires Sorted(rest + top) && top != [] && Millis(top[0]) >= bound
    ensures forall t :: t in top ==> Millis(t) >= bound
  {
    forall t | t in top ensures Millis(t) >= bound {
      var i :| 0 <= i < |top| && top[i] == t;
      assert (rest + top)[|rest| + i] == t && (rest + top)[|rest|] == top[0];
    }
  }

  lemma {:induction false} CountFromConcat(a: seq<UserTag>, b: seq<UserTag>, to: Time)
    ensures CountFrom(a + b, to) == CountFrom(a, to) + CountFrom(b, to)
  {
    if b == [] {
      assert a + b == a;
    } else {
      assert (a + b)[..|a + b| - 1] == a + b[..|b| - 1];
      CountFromConcat(a, b[..|b| - 1], to);
    }
  }

  lemma {:induction false} MatchesUpToEnd(tags: seq<UserTag>, from: Time, to: Time)
    requires forall t :: t in tags ==> Millis(t) >= UnixMilli(from)
    ensures |Matches(tags, from, to)| + CountFrom(tags, to) == |tags|
  {
    if tags != [] {
      MatchesUpToEnd(tags[..|tags| - 1], from, to);
    }
  }

  lemma {:induction false} NoneFromTheEnd(tags: seq<UserTag>, to: Time)
    requires forall t :: t in tags ==> Millis(t) < UnixMilli(to)
    ensures CountFrom(tags, to) == 0
  {
    if tags != [] {
      NoneFromTheEnd(tags[..|tags| - 1], to);
    }
  }

  /** The endpoint's own promise: up to 200 tags of any range that ends after the newest tag
      come out as if nothing had ever been trimmed. */
  lemma OpenQueryAsOverHistory(steps: seq<Step>, cookie: string, action: Action, from: Time, to: Time, limit: nat)
    requires Exec(steps).Some? && limit <= USER_TAG_LIMIT
    requires forall t :: t in History(Exec(steps).value.log, cookie, action) ==> Millis(t) < UnixMilli(to)
    ensures var s := Exec(steps).value;
            NewestMatches(BinOf(s.store, cookie, action), from, to, limit)
            == NewestMatches(History(s.log, cookie, action), from, to, limit)
  {
    NewestAreRetained(steps, cookie, action, 0);
    var bin := BinOf(Exec(steps).value.store, cookie, action);
    NoneFromTheEnd(bin, to);
    RunKeepsInv(steps);
    assert BinFits(bin, History(Exec(steps).value.log, cookie, action));
    FewIsDecided(bin, USER_TAG_LIMIT, from, to, limit);
    QueryAsOverHistory(steps, cookie, action, from, to, limit);
  }

  // ---------- exactly when the history would have answered the same ----------

  lemma {:induction false} MatchesMembers(tags: seq<UserTag>, from: Time, to: Time, t: UserTag)
    ensures t in Matches(tags, from, to) <==> t in tags && InRange(t, from, to)
  {
    if tags != [] {
      var front, last := tags[..|tags| - 1], tags[|tags| - 1];
      assert tags == front + [last];
      MatchesMembers(front, from, to, t);
    }
  }

  lemma {:induction false} MatchesSorted(tags: seq<UserTag>, from: Time, to: Time)
    requires Sorted(tags)
    ensures Sorted(Matches(tags, from, to))
  {
    if tags != [] {
      var front, last := tags[..|tags| - 1], tags[|tags| - 1];
      MatchesSorted(front, from, to);
      var before := Matches(front, from, to);
      forall i | 0 <= i < |before| ensures Millis(before[i]) < Millis(last) {
        MatchesMembers(front, from, to, before[i]);
        InFrontIsOlder(tags, before[i]);
      }
      SortedSnoc(before, last);
    }
  }

  /** A part of a sorted list has the same newest n entries exactly if all it lacks is older
      than those. */
  ghost predicate LacksOnlyOlder(part: seq<UserTag>, all: seq<UserTag>, n: int) {
    n <= 0 || forall t :: t in all && t !in part ==> |part| >= n && Millis(t) < Millis(part[|part| - n])
  }

  lemma SameNewestLacksOlder(part: seq<UserTag>, all: seq<UserTag>, n: int)
    requires Sorted(all) && Newest(part, n) == Newest(all, n)
    ensures LacksOnlyOlder(part, all, n)
  {
    if n > 0 {
      forall t | t in all && t !in part ensures |part| >= n && Millis(t) < Millis(part[|part| - n]) {
        var h :| 0 <= h < |all| && all[h] == t;
        var top := Newest(all, n);
        if h >= |all| - n {
          NewestContain(all, n, h);
          NewestAreStored(part, n, t);
          assert false;
        }
        assert top[0] == all[|all| - n] && top[0] == part[|part| - n];
      }
    }
  }

  ghost predicate PartOf(part: seq<UserTag>, all: seq<UserTag>) {
    Sorted(part) && Sorted(all) && forall t :: t in part ==> t in all
  }

  lemma {:induction false} LacksOlderSameNewest(part: seq<UserTag>, all: seq<UserTag>, n: int)
    requires PartOf(part, all) && LacksOnlyOlder(part, all, n)
    ensures Newest(part, n) == Newest(all, n)
    decreases n
  {
    if n > 0 {
      PartOfNothing(part, all);
      if all != [] {
        var part', all', last := WithoutLast(part, all, n);
        LacksOlderSameNewest(part', all', n - 1);
        SameWithLast(part', all', last, n);
      }
    }
  }

  lemma SameWithLast(part: seq<UserTag>, all: seq<UserTag>, last: UserTag, n: int)
    requires n > 0 && Newest(part, n - 1) == Newest(all, n - 1)
    ensures Newest(part + [last], n) == Newest(all + [last], n)
  {
    NewestSnoc(part, last, n);
    NewestSnoc(all, last, n);
  }

  lemma PartOfNothing(part: seq<UserTag>, all: seq<UserTag>)
    requires PartOf(part, all)
    ensures part != [] ==> all != []
  {
    if part != [] {
      assert part[0] in all;
    }
  }

  lemma WithoutLast(part: seq<UserTag>, all: seq<UserTag>, n: int)
    returns (part': seq<UserTag>, all': seq<UserTag>, last: UserTag)
    requires n > 0 && all != [] && PartOf(part, all) && LacksOnlyOlder(part, all, n)
    ensures part == part' + [last] && all == all' + [last]
    ensures PartOf(part', all') && LacksOnlyOlder(part', all', n - 1)
  {
    SameLastEntry(part, all, n);
    part', all', last := part[..|part| - 1], all[..|all| - 1], all[|all| - 1];
    FrontsLackOlder(part', all', last, n);
  }

  lemma SameLastEntry(part: seq<UserTag>, all: seq<UserTag>, n: int)
    requires PartOf(part, all) && n > 0 && all != [] && LacksOnlyOlder(part, all, n)
    ensures part != [] && part[|part| - 1] == all[|all| - 1]
  {
    var a := all[|all| - 1];
    assert a in all && (a in part || |part| >= n);
    var p := part[|part| - 1];
    assert p in part;
    LastIsNewest(all, p);
    if a in part {
      LastIsNewest(part, a);
    }
  }

  lemma FrontsLackOlder(part: seq<UserTag>, all: seq<UserTag>, last: UserTag, n: int)
    requires n > 0 && PartOf(part + [last], all + [last]) && LacksOnlyOlder(part + [last], all + [last], n)
    ensures PartOf(part, all) && LacksOnlyOlder(part, all, n - 1)
  {
    FrontSorted(part, last);
    FrontSorted(all, last);
    forall t | t in part ensures t in all {
      assert t in part + [last];
    }
    if n > 1 {
      forall t | t in all && t !in part ensures |part| >= n - 1 && Millis(t) < Millis(part[|part| - (n - 1)]) {
        assert t in all + [last] && t !in part + [last];
      }
    }
  }

  lemma FrontSorted(front: seq<UserTag>, last: UserTag)
    requires Sorted(front + [last])
    ensures Sorted(front) && forall t :: t in front ==> Millis(t) < Millis(last)
  {
    var bin := front + [last];
    forall i, j | 0 <= i < j < |front| ensures Millis(front[i]) < Millis(front[j]) {
      assert bin[i] == front[i] && bin[j] == front[j];
    }
    forall t | t in front ensures Millis(t) < Millis(last) {
      var i :| 0 <= i < |front| && front[i] == t;
      assert bin[i] == t && bin[|front|] == last;
    }
  }

  /** Every tag of the history in the range that is stored no more is older than the oldest
      tag a full answer gives. */
  ghost predicate LostNothingNewer(bin: seq<UserTag>, history: seq<UserTag>, from: Time, to: Time, limit: nat) {
    var matches := Matches(bin, from, to);
    limit == 0
    || forall t :: t in history && t !in bin && InRange(t, from, to) ==>
                     |matches| >= limit && Millis(t) < Millis(matches[|matches| - limit])
  }

  /** Exactly then the answer of a run is that over the untrimmed history. */
  lemma QueryAsOverHistoryIff(steps: seq<Step>, cookie: string, action: Action, from: Time, to: Time, limit: nat)
    requires Exec(steps).Some?
    ensures var s := Exec(steps).value;
            var bin, history := BinOf(s.store, cookie, action), History(s.log, cookie, action);
            NewestMatches(bin, from, to, limit) == NewestMatches(history, from, to, limit)
            <==> LostNothingNewer(bin, history, from, to, limit)
  {
    RunKeepsInv(steps);
    var s := Exec(steps).value;
    var bin, history := BinOf(s.store, cookie, action), History(s.log, cookie, action);
    assert BinFits(bin, history);
    AnswersAgreeIff(bin, history, from, to, limit);
  }

  lemma AnswersAgreeIff(bin: seq<UserTag>, history: seq<UserTag>, from: Time, to: Time, limit: nat)
    requires Sorted(bin) && Sorted(history) && forall t :: t in bin ==> t in history
    ensures NewestMatches(bin, from, to, limit) == NewestMatches(history, from, to, limit)
            <==> LostNothingNewer(bin, history, from, to, limit)
  {
    var part, all := Matches(bin, from, to), Matches(history, from, to);
    MatchesSorted(bin, from, to);
    MatchesSorted(history, from, to);
    forall t ensures t in part <==> t in bin && InRange(t, from, to) {
      MatchesMembers(bin, from, to, t);
    }
    forall t ensures t in all <==> t in history && InRange(t, from, to) {
      MatchesMembers(history, from, to, t);
    }
    assert LostNothingNewer(bin, history, from, to, limit) <==> LacksOnlyOlder(part, all, limit);
    if LacksOnlyOlder(part, all, limit) {
      LacksOlderSameNewest(part, all, limit);
    }
    if NewestMatches(bin, from, to, limit) == NewestMatches(history, from, to, limit) {
      ReversedInjective(Newest(part, limit), Newest(all, limit));
      SameNewestLacksOlder(part, all, limit);
    }
  }

  lemma {:induction false} ReversedInjective(a: seq<UserTag>, b: seq<UserTag>)
    requires Reversed(a) == Reversed(b)
    ensures a == b
  {
    ReversedLength(a);
    ReversedLength(b);
    if a != [] {
      var a', b' := a[..|a| - 1], b[..|b| - 1];
      assert Reversed(a') == Reversed(a)[1..] && Reversed(b') == Reversed(b)[1..];
      ReversedInjective(a', b');
      assert a == a' + [Reversed(a)[0]] && b == b' + [Reversed(b)[0]];
    }
  }

  // ---------- the bound of 200 is tight ----------

  function Tick(i: nat): UserTag
    requires i <= 201
  {
    UserTag(i * MILLISECOND, "cookie", "PL", Pc, View, "origin", ProductInfo(1, "brand", "category", 1))
  }

  /** One tag a millisecond. */
  function Ticks(n: nat): seq<UserTag>
    requires n <= 201
  {
    seq(n, i requires 0 <= i < n => Tick(i))
  }

  function Adds(n: nat): seq<Step>
    requires n <= 201
  {
    seq(n, i requires 0 <= i < n => AddTag(Tick(i)))
  }

  lemma {:induction false} AddsStoreTicks(n: nat)
    requires n <= 201
    ensures Exec(Adds(n)).Some? && Exec(Adds(n)).value.trims == map[]
    ensures BinOf(Exec(Adds(n)).value.store, "cookie", View) == Ticks(n)
    ensures History(Exec(Adds(n)).value.log, "cookie", View) == Ticks(n)
    ensures n > 0 ==> "cookie" in Exec(Adds(n)).value.store && Exec(Adds(n)).value.store["cookie"].views.Some?
  {
    if n > 0 {
      AddsStoreTicks(n - 1);
      var s := Exec(Adds(n - 1)).value;
      assert Adds(n)[..n - 1] == Adds(n - 1);
      assert Exec(Adds(n)) == Some(After(s, AddTag(Tick(n - 1))));
      assert (s.log + [Tick(n - 1)])[..|s.log|] == s.log;
      WriteChangesOneBin(s.store, PutTag(Tick(n - 1)), "cookie", View);
      TickIsNewest(n - 1);
    }
  }

  lemma TickIsNewest(n: nat)
    requires n < 201
    ensures Put(Ticks(n), Tick(n)) == Ticks(n + 1)
  {
    if n > 0 {
      assert Millis(Tick(n - 1)) == n - 1 && Millis(Tick(n)) == n;
    }
    assert Ticks(n + 1) == Ticks(n) + [Tick(n)];
  }

  lemma {:induction false} AllFrom(tags: seq<UserTag>, to: Time)
    requires forall t :: t in tags ==> Millis(t) >= UnixMilli(to)
    ensures CountFrom(tags, to) == |tags|
  {
    if tags != [] {
      AllFrom(tags[..|tags| - 1], to);
    }
  }

  function TrimSteps(): seq<Step> {
    Adds(201) + [ReadSize(0, "cookie", View)] + [RemoveOver(0, true)]
  }

  lemma ReadFindsOneTooMany()
    ensures Exec(Adds(201) + [ReadSize(0, "cookie", View)]).Some?
    ensures var s := Exec(Adds(201) + [ReadSize(0, "cookie", View)]).value;
            && 0 in s.trims && Passes(s, 0) && s.trims[0].cookie == "cookie" && s.trims[0].action == View
            && BinOf(s.store, "cookie", View) == Ticks(201)
            && History(s.log, "cookie", View) == Ticks(201)
  {
    AddsStoreTicks(201);
    assert (Adds(201) + [ReadSize(0, "cookie", View)])[..201] == Adds(201);
  }

  lemma TrimLeavesTicks()
    ensures Exec(TrimSteps()).Some?
    ensures BinOf(Exec(TrimSteps()).value.store, "cookie", View) == Ticks(201)[1..]
    ensures History(Exec(TrimSteps()).value.log, "cookie", View) == Ticks(201)
  {
    var read := Adds(201) + [ReadSize(0, "cookie", View)];
    ReadFindsOneTooMany();
    RunKeepsInv(read);
    RemovalIsSafe(Exec(read).value, 0);
    assert TrimSteps()[..|TrimSteps()| - 1] == read;
  }

  /** The bin has one entry too many, one match too few, and begins a millisecond too late for
      its newest 200 to decide the query. */
  predicate NearlyDecided(bin: seq<UserTag>, from: Time, to: Time, limit: nat) {
    && |bin| == USER_TAG_LIMIT
    && |Matches(Newest(bin, USER_TAG_LIMIT), from, to)| + 1 == limit
    && UnixMilli(from) + 1 == Millis(bin[|bin| - USER_TAG_LIMIT])
  }

  /** Each part of the condition is tight, and so is the simpler one: there is a run that
      misses all of them by one and whose answer differs from the history's, 201 adds and a
      trim, and a query for one tag of the first millisecond. */
  lemma WindowBoundIsTight()
    ensures var steps := TrimSteps();
            && Exec(steps).Some?
            && 1 + CountFrom(BinOf(Exec(steps).value.store, "cookie", View), MILLISECOND) == USER_TAG_LIMIT + 1
            && NearlyDecided(BinOf(Exec(steps).value.store, "cookie", View), 0, MILLISECOND, 1)
            && NewestMatches(BinOf(Exec(steps).value.store, "cookie", View), 0, MILLISECOND, 1) == []
            && NewestMatches(History(Exec(steps).value.log, "cookie", View), 0, MILLISECOND, 1) == [Tick(0)]
  {
    TrimLeavesTicks();
    var bin := BinOf(Exec(TrimSteps()).value.store, "cookie", View);
    forall t | t in bin ensures Millis(t) >= 1 {
      var i :| 0 <= i < |bin| && bin[i] == t;
      assert t == Tick(i + 1);
    }
    AllFrom(bin, MILLISECOND);
    NoMatchAfter(bin);
    assert Newest(bin, USER_TAG_LIMIT) == bin && bin[0] == Tick(1);
    OnlyFirstMatches(200);
  }

  lemma {:induction false} NoMatchAfter(tags: seq<UserTag>)
    requires forall t :: t in tags ==> Millis(t) >= 1
    ensures Matches(tags, 0, MILLISECOND) == []
    ensures NewestMatches(tags, 0, MILLISECOND, 1) == []
  {
    if tags != [] {
      NoMatchAfter(tags[..|tags| - 1]);
    }
  }

  lemma {:induction false} OnlyFirstMatches(n: nat)
    requires n <= 200
    ensures Matches(Ticks(n + 1), 0, MILLISECOND) == [Tick(0)]
    ensures NewestMatches(Ticks(n + 1), 0, MILLISECOND, 1) == [Tick(0)]
  {
    assert Ticks(n + 1)[..n] == Ticks(n);
    assert Millis(Tick(n)) == n;
    if n > 0 {
      OnlyFirstMatches(n - 1);
    } else {
      assert Matches(Ticks(0), 0, MILLISECOND) == [];
    }
    assert Reversed([Tick(0)]) == [Tick(0)];
  }
}
