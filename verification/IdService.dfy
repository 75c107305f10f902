/** The id service: an append-only list a collection in the database, a cache in the server,
    and a cache in each client. */
module IdService {
  import opened GoInts
  import opened Types

  type Lists = map<string, seq<string>>

  type Cache = map<string, map<string, int>>

  datatype DbError = KeyNotFound | ElementExists | RecordTooBig | Unavailable

  /** The database bounds the size of a record, far below this many list elements. */
  const LIST_CAPACITY: nat := 0x7FFF_FFFF

  /** The first index of an element, or -1. */
  function IndexOf(list: seq<string>, element: string): (i: int)
    ensures element in list ==> 0 <= i < |list| && list[i] == element && forall j :: 0 <= j < i ==> list[j] != element
    ensures element !in list ==> i == -1
  {
    if list == [] then -1
    else
      var front, last := list[..|list| - 1], |list| - 1;
      if element in front then IndexOf(front, element)
      else if list[last] == element then last
      else -1
  }

  function ListOf(lists: Lists, collection: string): seq<string> {
    if collection in lists then lists[collection] else []
  }

  predicate Placed(lists: Lists, collection: string, element: string) {
    element in ListOf(lists, collection)
  }

  function Position(lists: Lists, collection: string, element: string): (i: nat)
    requires Placed(lists, collection, element)
    ensures i < |ListOf(lists, collection)| && ListOf(lists, collection)[i] == element
  {
    IndexOf(ListOf(lists, collection), element)
  }

  function Elements(lists: Lists, collection: string, up: bool): Result<seq<string>, DbError> {
    if !up then Err(Unavailable)
    else if collection !in lists then Err(KeyNotFound)
    else Ok(lists[collection])
  }

  /** Append under the add-unique flag; the answer is the new length. */
  function Append(lists: Lists, collection: string, element: string, up: bool): (Lists, Result<int, DbError>) {
    var list := ListOf(lists, collection);
    if !up then (lists, Err(Unavailable))
    else if element in list then (lists, Err(ElementExists))
    else if |list| >= LIST_CAPACITY then (lists, Err(RecordTooBig))
    else (lists[collection := list + [element]], Ok(|list| + 1))
  }

  function CheckInCache(cache: Cache, collection: string, element: string): Option<int> {
    if collection in cache && element in cache[collection] then Some(cache[collection][element]) else None
  }

  function SaveInCache(cache: Cache, collection: string, element: string, id: int): Cache {
    cache[collection := (if collection in cache then cache[collection] else map[])[element := id]]
  }

  lemma CacheAfterSave(cache: Cache, collection: string, element: string, id: int, c: string, e: string)
    ensures CheckInCache(SaveInCache(cache, collection, element, id), c, e)
            == if c == collection && e == element then Some(id) else CheckInCache(cache, c, e)
  {
  }

  /** An append moves nothing: what was placed stays in its place. */
  lemma PositionsStay(lists: Lists, collection: string, element: string, up: bool, c: string, e: string)
    requires Placed(lists, c, e)
    ensures var lists' := Append(lists, collection, element, up).0;
            Placed(lists', c, e) && Position(lists', c, e) == Position(lists, c, e)
  {
    var list := ListOf(lists, collection);
    assert (list + [element])[..|list|] == list;
  }

  /** A fresh element goes to the end. */
  lemma AppendedAtEnd(lists: Lists, collection: string, element: string, up: bool)
    requires Append(lists, collection, element, up).1.Ok?
    ensures var (lists', answer) := Append(lists, collection, element, up);
            Placed(lists', collection, element) && answer.value == Position(lists', collection, element) + 1
  {
    var list := ListOf(lists, collection);
    assert (list + [element])[..|list|] == list;
  }

  class Database {
    var lists: Lists

    constructor ()
      ensures lists == map[]
    {
      lists := map[];
    }

    /** A new element goes to the end of its list and the answer is the new length; otherwise
        nothing changes. */
    method AppendElement(collection: string, element: string, up: bool) returns (newLen: Result<int, DbError>)
      modifies this
      ensures newLen.Ok? <==> up && !Placed(old(lists), collection, element)
                              && |ListOf(old(lists), collection)| < LIST_CAPACITY
      ensures newLen.Ok? ==> ListOf(lists, collection) == ListOf(old(lists), collection) + [element]
                             && newLen.value == |ListOf(lists, collection)|
                             && Placed(lists, collection, element)
                             && Position(lists, collection, element) == newLen.value - 1
      ensures forall c, e :: Placed(old(lists), c, e) ==>
                               Placed(lists, c, e) && Position(lists, c, e) == Position(old(lists), c, e)
      ensures forall c :: c != collection ==> ListOf(lists, c) == ListOf(old(lists), c)
      ensures newLen.Err? ==> lists == old(lists)
                              && newLen.error == if !up then Unavailable
                                                 else if Placed(lists, collection, element) then ElementExists
                                                 else RecordTooBig
      ensures lists == Append(old(lists), collection, element, up).0
      ensures newLen == Append(old(lists), collection, element, up).1
    {
      var answer := Append(lists, collection, element, up);
      forall c, e | Placed(lists, c, e)
        ensures Placed(answer.0, c, e) && Position(answer.0, c, e) == Position(lists, c, e)
      {
        PositionsStay(lists, collection, element, up, c, e);
      }
      if answer.1.Ok? {
        AppendedAtEnd(lists, collection, element, up);
      }
      lists, newLen := answer.0, answer.1;
    }

    /** Fills a slice with the elements of the record, one by one. */
    method GetElements(collection: string, up: bool) returns (elements: Result<seq<string>, DbError>)
      ensures elements == Elements(lists, collection, up)
      ensures elements.Ok? <==> up && collection in lists
      ensures elements.Ok? ==> elements.value == ListOf(lists, collection)
      ensures elements.Err? ==> elements.error == if up then KeyNotFound else Unavailable
    {
      if !up {
        return Err(Unavailable);
      }
      if collection !in lists {
        return Err(KeyNotFound);
      }
      var els := lists[collection];
      var filled := new string[|els|];
      for i := 0 to |els|
        invariant filled[..i] == els[..i]
      {
        filled[i] := els[i];
      }
      assert filled[..] == filled[..|els|] == els[..|els|] == els;
      elements := Ok(filled[..]);
    }
  }

  datatype IdError = NotFound | ReadFailed(DbError) | AppendFailed(DbError)

  /** One request from beginning to end with nothing in between: the new lists, the new
      cache and the answer. */
  function Request(lists: Lists, cache: Cache, collection: string, element: string, createMissing: bool,
                   up1: bool, up2: bool)
    : (Lists, Cache, Result<int, IdError>)
  {
    var cached := CheckInCache(cache, collection, element);
    if cached.Some? then (lists, cache, Ok(cached.value))
    else if !up1 then (lists, cache, Err(ReadFailed(Unavailable)))
    else if Placed(lists, collection, element) then
      var index := Position(lists, collection, element);
      (lists, SaveInCache(cache, collection, element, index), Ok(index))
    else if !createMissing then (lists, cache, Err(NotFound))
    else
      var (lists', newLen) := Append(lists, collection, element, up2);
      match newLen
      case Err(e) => (lists', cache, Err(AppendFailed(e)))
      case Ok(id) => (lists', SaveInCache(cache, collection, element, id), Ok(id))
  }

  /** The cache has this id for the element, and for every other what it had before. */
  ghost predicate Gains(cache: Cache, cache': Cache, collection: string, element: string, id: int) {
    forall c, e :: CheckInCache(cache', c, e)
                   == if c == collection && e == element then Some(id) else CheckInCache(cache, c, e)
  }

  /** The lists have the element at the end of its own list, and nothing else is new. */
  ghost predicate Grows(lists: Lists, lists': Lists, collection: string, element: string) {
    forall c :: ListOf(lists', c) == if c == collection then ListOf(lists, c) + [element] else ListOf(lists, c)
  }

  class Server {
    const db: Database
    var idsCache: Cache

    constructor (db: Database)
      ensures this.db == db && idsCache == map[]
    {
      this.db := db;
      idsCache := map[];
    }

    /** The index in the list is the id, here. */
    method GetIDFromDB(collection: string, element: string, up: bool) returns (id: Result<int, IdError>)
      ensures !up ==> id == Err(ReadFailed(Unavailable))
      ensures up && Placed(db.lists, collection, element) ==> id == Ok(Position(db.lists, collection, element))
      ensures up && !Placed(db.lists, collection, element) ==> id == Err(NotFound)
    {
      var list := db.GetElements(collection, up);
      if list.Err? {
        return Err(if list.error == KeyNotFound then NotFound else ReadFailed(list.error));
      }
      var idx := IndexOf(list.value, element);
      if idx == -1 {
        return Err(NotFound);
      }
      id := Ok(idx);
    }

    /** A cached id is the answer and nothing changes. Otherwise an element in the list gets its
        index and a new one the new length of its list, both of which the cache then has; and
        every error leaves lists and cache as they were. */
    method GetID(collection: string, element: string, createMissing: bool, up1: bool, up2: bool)
      returns (res: Result<int, IdError>)
      modifies this, db
      ensures var cached := CheckInCache(old(idsCache), collection, element);
              cached.Some? ==> res == Ok(cached.value) && db.lists == old(db.lists) && idsCache == old(idsCache)
      ensures CheckInCache(old(idsCache), collection, element) == None ==>
                if !up1 then res == Err(ReadFailed(Unavailable))
                else if Placed(old(db.lists), collection, element) then
                  var index := Position(old(db.lists), collection, element);
                  && res == Ok(index) && db.lists == old(db.lists)
                  && Gains(old(idsCache), idsCache, collection, element, index)
                else if !createMissing then res == Err(NotFound)
                else if !up2 then res == Err(AppendFailed(Unavailable))
                else if |ListOf(old(db.lists), collection)| >= LIST_CAPACITY then res == Err(AppendFailed(RecordTooBig))
                else
                  var newLen := |ListOf(old(db.lists), collection)| + 1;
                  && res == Ok(newLen) && Grows(old(db.lists), db.lists, collection, element)
                  && Gains(old(idsCache), idsCache, collection, element, newLen)
      ensures res.Err? ==> db.lists == old(db.lists) && idsCache == old(idsCache)
      ensures (db.lists, idsCache, res)
              == Request(old(db.lists), old(idsCache), collection, element, createMissing, up1, up2)
    {
      var cached := CheckInCache(idsCache, collection, element);
      if cached.Some? {
        return Ok(cached.value);
      }
      res := GetIDFromDB(collection, element, up1);
      if res.Err? {
        if res.error != NotFound || !createMissing {
          return;
        }
        // the length of the list is the id, here
        var saved := db.AppendElement(collection, element, up2);
        if saved.Err? {
          return Err(AppendFailed(saved.error));
        }
        res := Ok(saved.value);
      }
      forall c, e
        ensures CheckInCache(SaveInCache(idsCache, collection, element, res.value), c, e)
                == if c == collection && e == element then Some(res.value) else CheckInCache(idsCache, c, e)
      {
        CacheAfterSave(idsCache, collection, element, res.value, c, e);
      }
      idsCache := SaveInCache(idsCache, collection, element, res.value);
    }
  }

  /** A request of a client: its cache, if it has one, and then the server. */
  function Ask(client: Cache, cacheEnabled: bool, lists: Lists, cache: Cache, collection: string, element: string,
               createMissing: bool, up1: bool, up2: bool)
    : (Cache, Lists, Cache, Result<int, IdError>)
  {
    var hit := CheckInCache(client, collection, element);
    if cacheEnabled && hit.Some? then (client, lists, cache, Ok(hit.value))
    else
      var (lists', cache', answer) := Request(lists, cache, collection, element, createMissing, up1, up2);
      match answer
      case Err(e) => (client, lists', cache', Err(e))
      case Ok(id) =>
        (if cacheEnabled then SaveInCache(client, collection, element, ToInt32(id)) else client,
         lists', cache', Ok(ToInt32(id)))
  }

  class Client {
    const cacheEnabled: bool
    var cache: Cache

    constructor (cacheEnabled: bool)
      ensures this.cacheEnabled == cacheEnabled && cache == map[]
    {
      this.cacheEnabled := cacheEnabled;
      cache := map[];
    }

    /** A hit answers without the server; otherwise the server's answer, cut to an int32, is
        what the client returns and keeps. */
    method GetID(server: Server, collection: string, element: string, createMissing: bool, up1: bool, up2: bool)
      returns (res: Result<int, IdError>)
      modifies this, server, server.db
      ensures var hit := CheckInCache(old(cache), collection, element);
              if cacheEnabled && hit.Some?
              then res == Ok(hit.value) && cache == old(cache)
                   && server.idsCache == old(server.idsCache) && server.db.lists == old(server.db.lists)
              else
                var (lists, idsCache, answer)
                  := Request(old(server.db.lists), old(server.idsCache), collection, element, createMissing, up1, up2);
                && server.db.lists == lists && server.idsCache == idsCache
                && (answer.Err? ==> res == Err(answer.error) && cache == old(cache))
                && (answer.Ok? ==>
                      var id := ToInt32(answer.value);
                      && res == Ok(id)
                      && cache == if cacheEnabled then SaveInCache(old(cache), collection, element, id) else old(cache))
      ensures (cache, server.db.lists, server.idsCache, res)
              == Ask(old(cache), cacheEnabled, old(server.db.lists), old(server.idsCache), collection, element,
                     createMissing, up1, up2)
    {
      if cacheEnabled {
        var cached := CheckInCache(cache, collection, element);
        if cached.Some? {
          return Ok(cached.value);
        }
      }
      var answer := server.GetID(collection, element, createMissing, up1, up2);
      if answer.Err? {
        return Err(answer.error);
      }
      var id := ToInt32(answer.value);
      if cacheEnabled {
        cache := SaveInCache(cache, collection, element, id);
      }
      res := Ok(id);
    }
  }

  // ---------- the client's side of ids ----------

  const CATEGORY := "category"
  const BRAND := "brand"
  const ORIGIN := "origin"

  /** The checked narrowing of an id: only a number that a uint16 holds is accepted. */
  function GetU16ID(answer: Option<int>): (id: Option<uint16>)
    ensures id.Some? <==> answer.Some? && 0 <= answer.value <= 65535
    ensures id.Some? ==> id.value == answer.value
  {
    if answer.Some? && ToUint16(answer.value) == answer.value then Some(ToUint16(answer.value)) else None
  }

  predicate Unique(list: seq<string>) {
    |list| <= LIST_CAPACITY && forall i, j :: 0 <= i < j < |list| ==> list[i] != list[j]
  }

  ghost predicate AllUnique(lists: Lists) {
    forall c :: c in lists ==> Unique(lists[c])
  }

  /** Cached are the listed elements, under position + 1. */
  ghost predicate AgreeAt(lists: Lists, cache: Cache, c: string, e: string) {
    CheckInCache(cache, c, e) == if Placed(lists, c, e) then Some(Position(lists, c, e) + 1) else None
  }

  /** Cache and lists agree exactly. */
  ghost predicate Agree(lists: Lists, cache: Cache) {
    forall c, e :: AgreeAt(lists, cache, c, e)
  }

  /** Everything in the first cache is also in the second. */
  ghost predicate Within(client: Cache, server: Cache) {
    forall c, e :: CheckInCache(client, c, e).Some? ==> CheckInCache(client, c, e) == CheckInCache(server, c, e)
  }

  lemma AppendKeepsUnique(lists: Lists, collection: string, element: string, up: bool)
    requires AllUnique(lists)
    ensures AllUnique(Append(lists, collection, element, up).0)
  {
  }

  lemma AppendKeepsAgreement(lists: Lists, cache: Cache, collection: string, element: string)
    requires Agree(lists, cache)
    requires Append(lists, collection, element, true).1.Ok?
    ensures var (lists', id) := Append(lists, collection, element, true);
            var cache' := SaveInCache(cache, collection, element, id.value);
            Agree(lists', cache') && Within(cache, cache')
  {
    var (lists', id) := Append(lists, collection, element, true);
    var cache' := SaveInCache(cache, collection, element, id.value);
    forall c, e
      ensures AgreeAt(lists', cache', c, e)
      ensures CheckInCache(cache, c, e).Some? ==> CheckInCache(cache, c, e) == CheckInCache(cache', c, e)
    {
      assert AgreeAt(lists, cache, c, e);
      AppendKeepsAgreementAt(lists, cache, collection, element, c, e);
    }
  }

  lemma AppendKeepsAgreementAt(lists: Lists, cache: Cache, collection: string, element: string, c: string, e: string)
    requires AgreeAt(lists, cache, c, e)
    requires Append(lists, collection, element, true).1.Ok?
    ensures var (lists', id) := Append(lists, collection, element, true);
            var cache' := SaveInCache(cache, collection, element, id.value);
            && AgreeAt(lists', cache', c, e)
            && (CheckInCache(cache, c, e).Some? ==> CheckInCache(cache, c, e) == CheckInCache(cache', c, e))
  {
    var id := Append(lists, collection, element, true).1.value;
    CacheAfterSave(cache, collection, element, id, c, e);
    AppendedAtEnd(lists, collection, element, true);
    if (c, e) == (collection, element) {
      assert !Placed(lists, c, e);
    } else if Placed(lists, c, e) {
      PositionsStay(lists, collection, element, true, c, e);
    } else {
      StillNotPlaced(lists, collection, element, c, e);
    }
  }

  lemma StillNotPlaced(lists: Lists, collection: string, element: string, c: string, e: string)
    requires !Placed(lists, c, e) && (c, e) != (collection, element)
    ensures !Placed(Append(lists, collection, element, true).0, c, e)
  {
  }

  /** With requests one at a time the agreement is kept, whatever fails: answers are
      position + 1, a request that must not create leaves the lists alone, no answer is ever
      taken back, and no answer is changed by its narrowing to 32 bits. */
  lemma RequestKeepsAgreement(lists: Lists, cache: Cache, collection: string, element: string,
                              createMissing: bool, up1: bool, up2: bool)
    requires AllUnique(lists) && Agree(lists, cache)
    ensures var (lists', cache', answer) := Request(lists, cache, collection, element, createMissing, up1, up2);
            && AllUnique(lists') && Agree(lists', cache') && Within(cache, cache')
            && (!createMissing ==> lists' == lists)
            && (answer.Ok? ==> Placed(lists', collection, element)
                               && answer.value == Position(lists', collection, element) + 1
                               && ToInt32(answer.value) == answer.value)
  {
    RequestUnderAgreement(lists, cache, collection, element, createMissing, up1, up2);
    var appended := Append(lists, collection, element, up2);
    if Placed(lists, collection, element) || !up1 || !createMissing || appended.1.Err? {
      PositionFits(lists, collection, element);
    } else {
      AppendKeepsUnique(lists, collection, element, up2);
      AppendKeepsAgreement(lists, cache, collection, element);
      AppendedAtEnd(lists, collection, element, true);
      PositionFits(appended.0, collection, element);
    }
  }

  /** Under the agreement the list path is dead: what is listed is cached. */
  lemma RequestUnderAgreement(lists: Lists, cache: Cache, collection: string, element: string,
                              createMissing: bool, up1: bool, up2: bool)
    requires Agree(lists, cache)
    ensures var appended := Append(lists, collection, element, up2);
            Request(lists, cache, collection, element, createMissing, up1, up2)
            == if Placed(lists, collection, element) then (lists, cache, Ok(Position(lists, collection, element) + 1))
               else if !up1 then (lists, cache, Err(ReadFailed(Unavailable)))
               else if !createMissing then (lists, cache, Err(NotFound))
               else if appended.1.Err? then (lists, cache, Err(AppendFailed(appended.1.error)))
               else (appended.0, SaveInCache(cache, collection, element, appended.1.value), Ok(appended.1.value))
  {
    assert AgreeAt(lists, cache, collection, element);
  }

  lemma PositionFits(lists: Lists, collection: string, element: string)
    requires AllUnique(lists)
    ensures Placed(lists, collection, element) ==>
              var id := Position(lists, collection, element) + 1;
              id <= LIST_CAPACITY && ToInt32(id) == id
  {
  }

  /** So a client's cache, once inside the server's, stays inside through every later request
      of anyone, and the client's own answers keep it there. */
  lemma ClientCacheStaysWithin(client: Cache, lists: Lists, cache: Cache, collection: string, element: string,
                               createMissing: bool, up1: bool, up2: bool)
    requires AllUnique(lists) && Agree(lists, cache) && Within(client, cache)
    ensures var (_, cache', answer) := Request(lists, cache, collection, element, createMissing, up1, up2);
            && Within(client, cache')
            && (answer.Ok? ==> Within(SaveInCache(client, collection, element, ToInt32(answer.value)), cache'))
  {
    RequestKeepsAgreement(lists, cache, collection, element, createMissing, up1, up2);
    var (lists', cache', answer) := Request(lists, cache, collection, element, createMissing, up1, up2);
    if answer.Ok? {
      forall c, e
        ensures var saved := SaveInCache(client, collection, element, ToInt32(answer.value));
                CheckInCache(saved, c, e).Some? ==> CheckInCache(saved, c, e) == CheckInCache(cache', c, e)
      {
        CacheAfterSave(client, collection, element, ToInt32(answer.value), c, e);
        assert AgreeAt(lists', cache', collection, element);
      }
    }
  }

  // ---------- any number of clients ----------

  /** Who asks for what, and whether the database can be reached. */
  datatype Question = Question(
    client: nat,
    collection: string,
    element: string,
    createMissing: bool,
    up1: bool,
    up2: bool
  )

  datatype Clients = Clients(lists: Lists, cache: Cache, own: map<nat, Cache>)

  function CacheOf(s: Clients, client: nat): Cache {
    if client in s.own then s.own[client] else map[]
  }

  function AfterQuestion(s: Clients, cacheEnabled: nat -> bool, q: Question): (Clients, Result<int, IdError>) {
    var (own, lists, cache, answer) :=
      Ask(CacheOf(s, q.client), cacheEnabled(q.client), s.lists, s.cache, q.collection, q.element,
          q.createMissing, q.up1, q.up2);
    (Clients(lists, cache, s.own[q.client := own]), answer)
  }

  /** One question after the other, from empty lists and caches, without a restart. */
  function AfterQuestions(cacheEnabled: nat -> bool, questions: seq<Question>): Clients {
    if questions == [] then Clients(map[], map[], map[])
    else AfterQuestion(AfterQuestions(cacheEnabled, questions[..|questions| - 1]), cacheEnabled,
                       questions[|questions| - 1]).0
  }

  ghost predicate ClientsInv(s: Clients) {
    && AllUnique(s.lists) && Agree(s.lists, s.cache)
    && forall client :: Within(CacheOf(s, client), s.cache)
  }

  lemma WithinTransitive(a: Cache, b: Cache, c: Cache)
    requires Within(a, b) && Within(b, c)
    ensures Within(a, c)
  {
    forall n, e | CheckInCache(a, n, e).Some? ensures CheckInCache(a, n, e) == CheckInCache(c, n, e) {
      assert CheckInCache(a, n, e) == CheckInCache(b, n, e);
    }
  }

  /** One client's question: its own cache stays inside the server's, and the answer is the
      position of the element plus one, whichever cache it comes from. */
  lemma AskKeepsAgreement(client: Cache, cacheEnabled: bool, lists: Lists, cache: Cache, collection: string,
                          element: string, createMissing: bool, up1: bool, up2: bool)
    requires AllUnique(lists) && Agree(lists, cache) && Within(client, cache)
    ensures var (client', lists', cache', answer) :=
              Ask(client, cacheEnabled, lists, cache, collection, element, createMissing, up1, up2);
            && AllUnique(lists') && Agree(lists', cache') && Within(cache, cache') && Within(client', cache')
            && (answer.Ok? ==> Placed(lists', collection, element)
                               && answer.value == Position(lists', collection, element) + 1)
            && (!createMissing ==> lists' == lists)
  {
    if cacheEnabled && CheckInCache(client, collection, element).Some? {
      assert AgreeAt(lists, cache, collection, element);
    } else {
      RequestKeepsAgreement(lists, cache, collection, element, createMissing, up1, up2);
      ClientCacheStaysWithin(client, lists, cache, collection, element, createMissing, up1, up2);
    }
  }

  lemma QuestionKeepsInv(s: Clients, cacheEnabled: nat -> bool, q: Question)
    requires ClientsInv(s)
    ensures var (s', answer) := AfterQuestion(s, cacheEnabled, q);
            && ClientsInv(s') && Within(s.cache, s'.cache)
            && (answer.Ok? ==> Placed(s'.lists, q.collection, q.element)
                               && answer.value == Position(s'.lists, q.collection, q.element) + 1)
            && (!q.createMissing ==> s'.lists == s.lists)
  {
    var s' := AfterQuestion(s, cacheEnabled, q).0;
    AskKeepsAgreement(CacheOf(s, q.client), cacheEnabled(q.client), s.lists, s.cache, q.collection, q.element,
                      q.createMissing, q.up1, q.up2);
    forall client ensures Within(CacheOf(s', client), s'.cache) {
      if client != q.client {
        assert CacheOf(s', client) == CacheOf(s, client);
        WithinTransitive(CacheOf(s, client), s.cache, s'.cache);
      }
    }
  }

  lemma {:induction false} ClientsRunKeepsInv(cacheEnabled: nat -> bool, questions: seq<Question>)
    ensures ClientsInv(AfterQuestions(cacheEnabled, questions))
  {
    if questions != [] {
      var front := questions[..|questions| - 1];
      ClientsRunKeepsInv(cacheEnabled, front);
      QuestionKeepsInv(AfterQuestions(cacheEnabled, front), cacheEnabled, questions[|questions| - 1]);
    }
  }

  lemma {:induction false} ServerCacheGrows(cacheEnabled: nat -> bool, questions: seq<Question>, more: seq<Question>)
    ensures Within(AfterQuestions(cacheEnabled, questions).cache, AfterQuestions(cacheEnabled, questions + more).cache)
  {
    if more == [] {
      assert questions + more == questions;
    } else {
      var front := more[..|more| - 1];
      assert (questions + more)[..|questions + more| - 1] == questions + front;
      var before := AfterQuestions(cacheEnabled, questions + front);
      ServerCacheGrows(cacheEnabled, questions, front);
      ClientsRunKeepsInv(cacheEnabled, questions + front);
      QuestionKeepsInv(before, cacheEnabled, more[|more| - 1]);
      WithinTransitive(AfterQuestions(cacheEnabled, questions).cache, before.cache,
                       AfterQuestions(cacheEnabled, questions + more).cache);
    }
  }

  /** In every run of requests by any number of clients, one request at a time: cache and lists
      agree exactly, every client's cache is inside the server's, and there it stays through
      every continuation, whoever asks. */
  lemma ClientsStayWithin(cacheEnabled: nat -> bool, questions: seq<Question>, more: seq<Question>, client: nat)
    ensures var s, later := AfterQuestions(cacheEnabled, questions), AfterQuestions(cacheEnabled, questions + more);
            && AllUnique(s.lists) && Agree(s.lists, s.cache)
            && Within(CacheOf(s, client), s.cache) && Within(CacheOf(s, client), later.cache)
  {
    var s := AfterQuestions(cacheEnabled, questions);
    ClientsRunKeepsInv(cacheEnabled, questions);
    ServerCacheGrows(cacheEnabled, questions, more);
    WithinTransitive(CacheOf(s, client), s.cache, AfterQuestions(cacheEnabled, questions + more).cache);
  }

  /** So every answer, from whatever cache, is the position of the element plus one. */
  lemma EveryAnswerIsThePosition(cacheEnabled: nat -> bool, questions: seq<Question>, q: Question)
    ensures var s := AfterQuestions(cacheEnabled, questions);
            var (s', answer) := AfterQuestion(s, cacheEnabled, q);
            && (answer.Ok? ==> Placed(s'.lists, q.collection, q.element)
                               && answer.value == Position(s'.lists, q.collection, q.element) + 1)
            && (!q.createMissing ==> s'.lists == s.lists)
  {
    ClientsRunKeepsInv(cacheEnabled, questions);
    QuestionKeepsInv(AfterQuestions(cacheEnabled, questions), cacheEnabled, q);
  }
}
