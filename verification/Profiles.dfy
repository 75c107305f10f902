/** The user profiles set: a record a cookie, in it a map from millisecond to tag for each
    action, kept in key order. The database is trusted for this: operations on one record are
    atomic, every write raises the generation of its record by one, an index range of an
    ordered map counts from its smallest key, and an error means no effect. */
module Profiles {
  import opened Types

  // ---------- an ordered map as the sequence of its values ----------

  /** The key a tag is stored under. */
  function Millis(tag: UserTag): int { UnixMilli(tag.time) }

  ghost predicate Sorted(bin: seq<UserTag>) {
    forall i, j :: 0 <= i < j < |bin| ==> Millis(bin[i]) < Millis(bin[j])
  }

  /** Put under the update write mode: a new key takes its place, an old one a new value. */
  function Put(bin: seq<UserTag>, tag: UserTag): seq<UserTag> {
    if bin == [] then [tag]
    else
      var front, last := bin[..|bin| - 1], bin[|bin| - 1];
      if Millis(last) < Millis(tag) then bin + [tag]
      else if Millis(last) == Millis(tag) then front + [tag]
      else Put(front, tag) + [last]
  }

  /** The n newest entries. */
  function Newest(bin: seq<UserTag>, n: int): seq<UserTag> {
    if n <= 0 then [] else if |bin| <= n then bin else bin[|bin| - n..]
  }

  /** Removal of `count` entries by index from the first one on. */
  function RemoveOldest(bin: seq<UserTag>, count: nat): seq<UserTag> {
    if count >= |bin| then [] else bin[count..]
  }

  lemma LastIsNewest(bin: seq<UserTag>, t: UserTag)
    requires Sorted(bin) && t in bin
    ensures t == bin[|bin| - 1] || (t in bin[..|bin| - 1] && Millis(t) < Millis(bin[|bin| - 1]))
  {
    var i :| 0 <= i < |bin| && bin[i] == t;
    if i < |bin| - 1 {
      assert bin[..|bin| - 1][i] == t;
    }
  }

  lemma InSnoc(front: seq<UserTag>, last: UserTag, t: UserTag)
    ensures t in front + [last] <==> t in front || t == last
  {
  }

  /** A put keeps every entry of another key, and of its own key only the new one. */
  lemma {:induction false} PutMembers(bin: seq<UserTag>, tag: UserTag, t: UserTag)
    requires Sorted(bin)
    ensures t in Put(bin, tag) <==> t == tag || (t in bin && Millis(t) != Millis(tag))
  {
    if bin != [] {
      var front, last := bin[..|bin| - 1], bin[|bin| - 1];
      assert bin == front + [last];
      InSnoc(front, last, t);
      if t in bin {
        LastIsNewest(bin, t);
      }
      if Millis(tag) < Millis(last) {
        PutMembers(front, tag, t);
        InSnoc(Put(front, tag), last, t);
      } else if Millis(tag) == Millis(last) {
        InSnoc(front, tag, t);
        LastNotInFront(bin);
      } else {
        InSnoc(bin, tag, t);
      }
    }
  }

  lemma {:induction false} PutSorted(bin: seq<UserTag>, tag: UserTag)
    requires Sorted(bin)
    ensures Sorted(Put(bin, tag))
    ensures |bin| <= |Put(bin, tag)| <= |bin| + 1
  {
    if bin != [] {
      var front, last := bin[..|bin| - 1], bin[|bin| - 1];
      assert bin == front + [last];
      if Millis(tag) < Millis(last) {
        PutStaysBelow(front, tag, last);
        PutSorted(front, tag);
        SortedSnoc(Put(front, tag), last);
      } else if Millis(tag) == Millis(last) {
        SortedSnoc(front, tag);
      } else {
        SortedSnoc(bin, tag);
      }
    }
  }

  lemma PutIsRight(bin: seq<UserTag>, tag: UserTag)
    ensures Sorted(bin) ==>
              && Sorted(Put(bin, tag)) && |bin| <= |Put(bin, tag)| <= |bin| + 1
              && forall t :: t in Put(bin, tag) <==> t == tag || (t in bin && Millis(t) != Millis(tag))
  {
    if Sorted(bin) {
      PutSorted(bin, tag);
      forall t ensures t in Put(bin, tag) <==> t == tag || (t in bin && Millis(t) != Millis(tag)) {
        PutMembers(bin, tag, t);
      }
    }
  }

  lemma SortedSnoc(bin: seq<UserTag>, tag: UserTag)
    requires Sorted(bin) && forall i :: 0 <= i < |bin| ==> Millis(bin[i]) < Millis(tag)
    ensures Sorted(bin + [tag])
  {
  }

  lemma PutStaysBelow(front: seq<UserTag>, tag: UserTag, last: UserTag)
    requires Sorted(front + [last]) && Millis(tag) < Millis(last)
    ensures Sorted(front)
    ensures forall i :: 0 <= i < |Put(front, tag)| ==> Millis(Put(front, tag)[i]) < Millis(last)
  {
    var bin, put := front + [last], Put(front, tag);
    forall i, j | 0 <= i < j < |front| ensures Millis(front[i]) < Millis(front[j]) {
      assert bin[i] == front[i] && bin[j] == front[j];
    }
    forall i | 0 <= i < |put| ensures Millis(put[i]) < Millis(last) {
      PutMembers(front, tag, put[i]);
      if put[i] != tag {
        var k :| 0 <= k < |front| && front[k] == put[i];
        assert bin[k] == put[i] && bin[|front|] == last;
      }
    }
  }

  lemma LastNotInFront(bin: seq<UserTag>)
    requires Sorted(bin) && bin != []
    ensures bin[|bin| - 1] !in bin[..|bin| - 1]
  {
  }

  /** The newest n entries after a put depend only on the newest n before it. */
  lemma {:induction false} NewestAfterPut(a: seq<UserTag>, b: seq<UserTag>, tag: UserTag, n: int)
    requires Newest(a, n) == Newest(b, n)
    ensures Newest(Put(a, tag), n) == Newest(Put(b, tag), n)
    decreases n
  {
    if n > 0 && a != [] && b != [] {
      var a', b' := a[..|a| - 1], b[..|b| - 1];
      SameLast(a, b, n);
      var last := a[|a| - 1];
      if Millis(last) < Millis(tag) {
        NewestSnoc(a, tag, n);
        NewestSnoc(b, tag, n);
        NewestShrinks(a, b, n);
      } else if Millis(last) == Millis(tag) {
        NewestSnoc(a', tag, n);
        NewestSnoc(b', tag, n);
      } else {
        NewestAfterPut(a', b', tag, n - 1);
        NewestSnoc(Put(a', tag), last, n);
        NewestSnoc(Put(b', tag), last, n);
      }
    }
  }

  lemma NewestSnoc(bin: seq<UserTag>, tag: UserTag, n: int)
    requires n > 0
    ensures Newest(bin + [tag], n) == Newest(bin, n - 1) + [tag]
  {
  }

  lemma NewestShrinks(a: seq<UserTag>, b: seq<UserTag>, n: int)
    requires Newest(a, n) == Newest(b, n)
    ensures Newest(a, n - 1) == Newest(b, n - 1)
  {
    if n > 1 {
      assert Newest(a, n - 1) == Newest(Newest(a, n), n - 1);
      assert Newest(b, n - 1) == Newest(Newest(b, n), n - 1);
    }
  }

  /** Two bins with the same newest entries end alike, and so do they without their ends. */
  lemma SameLast(a: seq<UserTag>, b: seq<UserTag>, n: int)
    requires n > 0 && a != [] && b != []
    requires Newest(a, n) == Newest(b, n)
    ensures a[|a| - 1] == b[|b| - 1]
    ensures Newest(a[..|a| - 1], n - 1) == Newest(b[..|b| - 1], n - 1)
  {
    var x, y := Newest(a, n), Newest(b, n);
    assert x[|x| - 1] == a[|a| - 1] && y[|y| - 1] == b[|b| - 1];
    NewestSnoc(a[..|a| - 1], a[|a| - 1], n);
    NewestSnoc(b[..|b| - 1], b[|b| - 1], n);
    assert a == a[..|a| - 1] + [a[|a| - 1]];
    assert b == b[..|b| - 1] + [b[|b| - 1]];
    assert x[..|x| - 1] == Newest(a[..|a| - 1], n - 1);
    assert y[..|y| - 1] == Newest(b[..|b| - 1], n - 1);
  }

  /** Removing all but `limit` from the oldest on leaves the newest `limit`. */
  lemma RemovalLeavesNewest(bin: seq<UserTag>, limit: int)
    requires |bin| > limit
    ensures RemoveOldest(bin, |bin| - limit) == Newest(bin, limit)
    ensures limit >= 0 ==> |Newest(bin, limit)| == limit && bin == bin[..|bin| - limit] + Newest(bin, limit)
  {
  }

  // ---------- the records ----------

  datatype Profile = Profile(generation: nat, views: Option<seq<UserTag>>, buys: Option<seq<UserTag>>) {
    function Bin(action: Action): Option<seq<UserTag>> {
      match action
      case View => views
      case Buy => buys
    }

    function WithBin(action: Action, bin: seq<UserTag>): Profile {
      match action
      case View => Profile(generation + 1, Some(bin), buys)
      case Buy => Profile(generation + 1, views, Some(bin))
    }
  }

  type Store = map<string, Profile>

  function ProfileOf(store: Store, cookie: string): Profile {
    if cookie in store then store[cookie] else Profile(0, None, None)
  }

  /** The entries of a bin, none if it is not populated. */
  function BinOf(store: Store, cookie: string, action: Action): seq<UserTag> {
    var bin := ProfileOf(store, cookie).Bin(action);
    if bin.Some? then bin.value else []
  }

  /** A write that another client lands: a tag, or the removal of the oldest entries. */
  datatype Write = PutTag(tag: UserTag) | Remove(cookie: string, action: Action, count: nat)

  function CookieOf(w: Write): string {
    match w
    case PutTag(tag) => tag.cookie
    case Remove(cookie, _, _) => cookie
  }

  function Apply(store: Store, w: Write): Store {
    match w
    case PutTag(tag) =>
      var bin := Put(BinOf(store, tag.cookie, tag.action), tag);
      store[tag.cookie := ProfileOf(store, tag.cookie).WithBin(tag.action, bin)]
    case Remove(cookie, action, count) =>
      if cookie !in store then store
      else store[cookie := store[cookie].WithBin(action, RemoveOldest(BinOf(store, cookie, action), count))]
  }

  function ApplyAll(store: Store, writes: seq<Write>): Store {
    if writes == [] then store else Apply(ApplyAll(store, writes[..|writes| - 1]), writes[|writes| - 1])
  }

  predicate Touches(writes: seq<Write>, cookie: string) {
    exists i :: 0 <= i < |writes| && CookieOf(writes[i]) == cookie
  }

  /** The generation tells exactly whether a record was written to in between. */
  lemma {:induction false} GenerationTellsWrites(store: Store, writes: seq<Write>, cookie: string)
    requires cookie in store
    ensures cookie in ApplyAll(store, writes)
    ensures ApplyAll(store, writes)[cookie].generation >= store[cookie].generation
    ensures Touches(writes, cookie) <==> ApplyAll(store, writes)[cookie].generation != store[cookie].generation
    ensures !Touches(writes, cookie) ==> ApplyAll(store, writes)[cookie] == store[cookie]
  {
    if writes != [] {
      var front, last := writes[..|writes| - 1], writes[|writes| - 1];
      GenerationTellsWrites(store, front, cookie);
      if Touches(front, cookie) {
        var i :| 0 <= i < |front| && CookieOf(front[i]) == cookie;
        assert CookieOf(writes[i]) == cookie;
      }
      if CookieOf(last) == cookie {
        assert CookieOf(writes[|writes| - 1]) == cookie;
      }
    }
  }

  datatype GetError = KeyNotFound | Unreachable

  datatype UserProfile = UserProfile(views: seq<UserTag>, buys: seq<UserTag>)

  datatype TrimResult = Trimmed | NothingToDo | GenerationMismatch | Failed

  /** Whether there is something over the limit to remove. */
  predicate OverLimit(store: Store, cookie: string, action: Action, limit: int) {
    cookie in store && store[cookie].Bin(action).Some? && |BinOf(store, cookie, action)| > limit
  }

  /** How a trim ends. What it needs to know is whether the writes of others touched the
      record, and what it leaves are the newest entries. */
  function TrimOutcome(store: Store, cookie: string, action: Action, limit: int,
                       up1: bool, others: seq<Write>, up2: bool)
    : (Store, TrimResult)
  {
    if !up1 then (store, Failed)
    else if !OverLimit(store, cookie, action, limit) then (store, NothingToDo)
    else
      var mid := ApplyAll(store, others);
      if !up2 then (mid, Failed)
      else if Touches(others, cookie) then (mid, GenerationMismatch)
      else
        var newest := Newest(BinOf(mid, cookie, action), limit);
        (mid[cookie := ProfileOf(mid, cookie).WithBin(action, newest)], Trimmed)
  }

  class UserProfileClient {
    var store: Store

    constructor ()
      ensures store == map[]
    {
      store := map[];
    }

    /** Fills a slice with the values of the map, in key order. */
    method DecodeBin(profile: Profile, action: Action) returns (up: seq<UserTag>)
      ensures up == if profile.Bin(action).Some? then profile.Bin(action).value else []
    {
      if profile.Bin(action).None? {
        return [];
      }
      var pairs := profile.Bin(action).value;
      up := [];
      for i := 0 to |pairs|
        invariant up == pairs[..i]
      {
        up := up + [pairs[i]];
      }
      assert pairs[..|pairs|] == pairs;
    }

    method Get(cookie: string, up: bool) returns (res: Result<UserProfile, GetError>)
      ensures !up ==> res == Err(Unreachable)
      ensures up && cookie !in store ==> res == Err(KeyNotFound)
      ensures up && cookie in store ==> res == Ok(UserProfile(BinOf(store, cookie, View), BinOf(store, cookie, Buy)))
    {
      if !up {
        return Err(Unreachable);
      }
      if cookie !in store {
        return Err(KeyNotFound);
      }
      var views := DecodeBin(store[cookie], View);
      var buys := DecodeBin(store[cookie], Buy);
      res := Ok(UserProfile(views, buys));
    }

    /** The bin then holds the tag and every entry of another millisecond, in key order; the
        answer is its size. All other bins stay as they were, and the record's generation grows. */
    method Add(tag: UserTag, up: bool) returns (newLen: Result<nat, ()>)
      modifies this
      ensures newLen.Ok? <==> up
      ensures up ==> newLen.value == |BinOf(store, tag.cookie, tag.action)|
      ensures up && Sorted(BinOf(old(store), tag.cookie, tag.action)) ==>
                var bin, bin' := BinOf(old(store), tag.cookie, tag.action), BinOf(store, tag.cookie, tag.action);
                && Sorted(bin') && |bin| <= |bin'| <= |bin| + 1
                && forall t :: t in bin' <==> t == tag || (t in bin && Millis(t) != Millis(tag))
      ensures forall cookie, action :: (cookie, action) != (tag.cookie, tag.action) ==>
                BinOf(store, cookie, action) == BinOf(old(store), cookie, action)
      ensures up ==> ProfileOf(store, tag.cookie).generation == ProfileOf(old(store), tag.cookie).generation + 1
      ensures !up ==> newLen == Err(()) && store == old(store)
      ensures up ==> store == Apply(old(store), PutTag(tag)) && newLen == Ok(|BinOf(store, tag.cookie, tag.action)|)
    {
      if !up {
        return Err(());
      }
      PutIsRight(BinOf(store, tag.cookie, tag.action), tag);
      store := Apply(store, PutTag(tag));
      newLen := Ok(|BinOf(store, tag.cookie, tag.action)|);
    }

    /** Reads size and generation, and removes what is over the limit if the generation is
        still the same. Between the two operations the writes `others` land. */
    method RemoveOverLimit(cookie: string, action: Action, limit: int, up1: bool, others: seq<Write>, up2: bool)
      returns (res: TrimResult)
      modifies this
      ensures (store, res) == TrimOutcome(old(store), cookie, action, limit, up1, others, up2)
      ensures !up1 ==> res == Failed && store == old(store)
      ensures up1 && 0 <= limit && |BinOf(old(store), cookie, action)| <= limit ==>
                res == NothingToDo && store == old(store)
      ensures up1 && 0 <= limit < |BinOf(old(store), cookie, action)| ==>
                var mid := ApplyAll(old(store), others);
                if !up2 then res == Failed && store == mid
                else if Touches(others, cookie) then res == GenerationMismatch && store == mid
                else
                  && res == Trimmed
                  && BinOf(store, cookie, action) == Newest(BinOf(old(store), cookie, action), limit)
                  && (forall c, a :: (c, a) != (cookie, action) ==> BinOf(store, c, a) == BinOf(mid, c, a))
                  && ProfileOf(store, cookie).generation > ProfileOf(old(store), cookie).generation
    {
      if !up1 {
        return Failed;
      }
      if cookie !in store {
        return NothingToDo;
      }
      var lengthRaw := store[cookie].Bin(action);
      if lengthRaw.None? {
        return NothingToDo;
      }
      var toRemove := |lengthRaw.value| - limit;
      if toRemove <= 0 {
        return NothingToDo;
      }
      var generation := store[cookie].generation;
      GenerationTellsWrites(store, others, cookie);
      store := ApplyAll(store, others);
      if !up2 {
        return Failed;
      }
      if store[cookie].generation != generation {
        return GenerationMismatch;
      }
      RemovalLeavesNewest(BinOf(store, cookie, action), limit);
      store := Apply(store, Remove(cookie, action, toRemove));
      res := Trimmed;
    }
  }
}
