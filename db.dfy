/**
 * The card store of lib/db.js: one IndexedDB object store `cards` whose
 * key path is `id`, opened once and lazily, and a set of subscribers that
 * is notified after every committed mutation.
 *
 * Each IndexedDB transaction is modelled as one atomic update of the map
 * `records`; the pure functions `Put`, `Update` and `Remove` are the
 * specification of the three writes, and the class `CardDb` holds the
 * module-level state (`dbPromise`, the object store, `subscribers`).
 */
module CardStore {
  import opened Js
  import opened Strings

  /** A captured clipping, shaped like the record the service worker builds. */
  datatype Card = Card(
    id: string,
    createdAt: int,
    title: string,
    url: string,
    favicon: string,
    snippet: string,
    tags: seq<string>,
    badges: seq<string>,
    evidence: Option<string>)

  /**
   * The `updates` object of `dbUpdateCard`: a field is `Some` exactly when
   * the object has that own property.
   */
  datatype CardPatch = CardPatch(
    id: Option<string>,
    createdAt: Option<int>,
    title: Option<string>,
    url: Option<string>,
    favicon: Option<string>,
    snippet: Option<string>,
    tags: Option<seq<string>>,
    badges: Option<seq<string>>,
    evidence: Option<Option<string>>)

  /** The empty object `{}`. */
  const NoChanges := CardPatch(None, None, None, None, None, None, None, None, None)

  /** `{ ...card, ...updates }`: a key present in `updates` wins, every other key keeps the card's value. */
  function Merge(card: Card, updates: CardPatch): Card
  {
    Card(
      updates.id.GetOr(card.id),
      updates.createdAt.GetOr(card.createdAt),
      updates.title.GetOr(card.title),
      updates.url.GetOr(card.url),
      updates.favicon.GetOr(card.favicon),
      updates.snippet.GetOr(card.snippet),
      updates.tags.GetOr(card.tags),
      updates.badges.GetOr(card.badges),
      updates.evidence.GetOr(card.evidence))
  }

  /** `{ ...first, ...second }` on two update objects. */
  function Then(first: CardPatch, second: CardPatch): CardPatch
  {
    CardPatch(
      if second.id.Some? then second.id else first.id,
      if second.createdAt.Some? then second.createdAt else first.createdAt,
      if second.title.Some? then second.title else first.title,
      if second.url.Some? then second.url else first.url,
      if second.favicon.Some? then second.favicon else first.favicon,
      if second.snippet.Some? then second.snippet else first.snippet,
      if second.tags.Some? then second.tags else first.tags,
      if second.badges.Some? then second.badges else first.badges,
      if second.evidence.Some? then second.evidence else first.evidence)
  }

  /** Merging `{}` changes nothing; merging the same updates twice is merging them once. */
  lemma MergeUnitAndIdempotent(card: Card, updates: CardPatch)
    ensures Merge(card, NoChanges) == card
    ensures Merge(Merge(card, updates), updates) == Merge(card, updates)
  {
  }

  /** Two successive merges are one merge with the later object's keys winning. */
  lemma MergeThen(card: Card, first: CardPatch, second: CardPatch)
    ensures Merge(Merge(card, first), second) == Merge(card, Then(first, second))
  {
  }

  // ---------------------------------------------------------------------
  // The object store as a map from key to record

  type Records = map<string, Card>

  /** The key path is `id`: every record sits under its own id. */
  predicate KeyedById(m: Records) {
    forall k :: k in m ==> m[k].id == k
  }

  /** `store.put(card)`: insert, or replace the record with the same id. */
  function Put(m: Records, card: Card): (r: Records)
    ensures card.id in r && r[card.id] == card
    ensures forall k :: k != card.id ==> (k in r <==> k in m) && (k in m ==> r[k] == m[k])
    ensures r.Keys == m.Keys + {card.id}
    ensures KeyedById(m) ==> KeyedById(r)
  {
    m[card.id := card]
  }

  /** The read-merge-put of `dbUpdateCard`; a missing id leaves the store as it was. */
  function Update(m: Records, id: string, updates: CardPatch): (r: Records)
    ensures id !in m ==> r == m
    ensures KeyedById(m) ==> KeyedById(r)
  {
    if id in m then Put(m, Merge(m[id], updates)) else m
  }

  /** `store.delete(id)`. */
  function Remove(m: Records, id: string): (r: Records)
    ensures id !in r && r.Keys == m.Keys - {id}
    ensures forall k :: k in r ==> r[k] == m[k]
    ensures KeyedById(m) ==> KeyedById(r)
  {
    m - {id}
  }

  /**
   * An update that keeps the id replaces the record in place: the updated
   * keys take the new values, the others keep the old ones, and no other
   * record changes.
   */
  lemma UpdateInPlace(m: Records, id: string, updates: CardPatch)
    requires KeyedById(m) && id in m
    requires updates.id.None? || updates.id == Some(id)
    ensures Update(m, id, updates).Keys == m.Keys
    ensures Update(m, id, updates)[id] == Merge(m[id], updates)
    ensures forall k :: k in m && k != id ==> Update(m, id, updates)[k] == m[k]
  {
  }

  /**
   * Because the key path is `id`, an update whose `id` differs writes the
   * merged record under the new id and leaves the old record where it was.
   */
  lemma UpdateRekeys(m: Records, id: string, updates: CardPatch, newId: string)
    requires KeyedById(m) && id in m
    requires updates.id == Some(newId) && newId != id
    ensures Update(m, id, updates).Keys == m.Keys + {newId}
    ensures Update(m, id, updates)[newId] == Merge(m[id], updates)
    ensures Update(m, id, updates)[id] == m[id]
  {
  }

  /** Deleting a record and then putting it back restores the store. */
  lemma RemoveThenPut(m: Records, id: string)
    requires KeyedById(m) && id in m
    ensures Put(Remove(m, id), m[id]) == m
  {
  }

  // ---------------------------------------------------------------------
  // IndexedDB key order, which is the order of getAll()

  /** Strings compared code point by code point; a proper prefix sorts first. */
  predicate KeyLess(a: string, b: string) {
    if |a| == 0 then |b| > 0
    else if |b| == 0 then false
    else if a[0] == b[0] then KeyLess(a[1..], b[1..])
    else a[0] < b[0]
  }

  lemma {:induction false} KeyLessIrreflexive(a: string)
    ensures !KeyLess(a, a)
  {
    if |a| > 0 { KeyLessIrreflexive(a[1..]); }
  }

  lemma {:induction false} KeyLessTransitive(a: string, b: string, c: string)
    requires KeyLess(a, b) && KeyLess(b, c)
    ensures KeyLess(a, c)
  {
    if |a| > 0 && |b| > 0 && |c| > 0 && a[0] == b[0] && b[0] == c[0] {
      KeyLessTransitive(a[1..], b[1..], c[1..]);
    }
  }

  lemma {:induction false} KeyLessTotal(a: string, b: string)
    requires a != b
    ensures KeyLess(a, b) || KeyLess(b, a)
  {
    if |a| > 0 && |b| > 0 && a[0] == b[0] {
      assert a == [a[0]] + a[1..] && b == [b[0]] + b[1..];
      KeyLessTotal(a[1..], b[1..]);
    }
  }

  /** Every finite non-empty set of keys has a least key. */
  lemma {:induction false} LeastKeyExists(keys: set<string>) returns (k: string)
    requires keys != {}
    ensures k in keys && forall j :: j in keys && j != k ==> KeyLess(k, j)
    decreases |keys|
  {
    var x :| x in keys;
    if keys == {x} {
      k := x;
    } else {
      var m := LeastKeyExists(keys - {x});
      KeyLessTotal(x, m);
      if KeyLess(x, m) {
        k := x;
        forall j | j in keys && j != k ensures KeyLess(k, j) {
          if j != m { KeyLessTransitive(x, m, j); }
        }
      } else {
        k := m;
      }
    }
  }

  /** `cards.find(c => c.id === id)`. */
  function Find(cards: seq<Card>, id: string): (r: Option<Card>)
    ensures r.Some? ==> r.value in cards && r.value.id == id
    ensures r.None? ==> forall i :: 0 <= i < |cards| ==> cards[i].id != id
  {
    if |cards| == 0 then None
    else if cards[0].id == id then Some(cards[0])
    else Find(cards[1..], id)
  }

  /** The records of a store in ascending key order, each exactly once. */
  predicate ListsInKeyOrder(all: seq<Card>, m: Records) {
    && (forall i :: 0 <= i < |all| ==> all[i].id in m && m[all[i].id] == all[i])
    && (forall i, j :: 0 <= i < j < |all| ==> KeyLess(all[i].id, all[j].id))
    && (forall k :: k in m ==> exists i :: 0 <= i < |all| && all[i].id == k)
  }

  /** Looking a card up in the `getAll()` result finds exactly the stored record. */
  lemma {:induction false} FindInListing(all: seq<Card>, m: Records, id: string)
    requires ListsInKeyOrder(all, m)
    ensures Find(all, id) == if id in m then Some(m[id]) else None
  {
    if id in m {
      var i :| 0 <= i < |all| && all[i].id == id;
      var r := Find(all, id);
      assert r.Some?;
    } else {
      var r := Find(all, id);
    }
  }

  /** The state of the listing loop: `all` holds, in key order, every key not in `remaining`. */
  ghost predicate ListedSoFar(all: seq<Card>, remaining: set<string>, m: Records) {
    && remaining <= m.Keys
    && (forall i :: 0 <= i < |all| ==> all[i].id in m && m[all[i].id] == all[i] && all[i].id !in remaining)
    && (forall i, j :: 0 <= i < j < |all| ==> KeyLess(all[i].id, all[j].id))
    && (forall i, k :: 0 <= i < |all| && k in remaining ==> KeyLess(all[i].id, k))
    && (forall k :: k in m && k !in remaining ==> exists i :: 0 <= i < |all| && all[i].id == k)
  }

  /** Moving the least remaining key to the end of the listing keeps the listing ordered and complete. */
  lemma ListStep(all: seq<Card>, remaining: set<string>, m: Records, k: string)
    requires KeyedById(m) && ListedSoFar(all, remaining, m)
    requires k in remaining && forall j :: j in remaining && j != k ==> KeyLess(k, j)
    ensures ListedSoFar(all + [m[k]], remaining - {k}, m)
  {
    ListStepRecords(all, remaining, m, k);
    ListStepOrdered(all, remaining, m, k);
    ListStepBelow(all, remaining, m, k);
    ListStepComplete(all, remaining, m, k);
  }

  lemma ListStepRecords(all: seq<Card>, remaining: set<string>, m: Records, k: string)
    requires KeyedById(m) && ListedSoFar(all, remaining, m) && k in remaining
    ensures var all' := all + [m[k]];
      forall i :: 0 <= i < |all'| ==> all'[i].id in m && m[all'[i].id] == all'[i] && all'[i].id !in remaining - {k}
  {
    assert m[k].id == k;
  }

  lemma ListStepOrdered(all: seq<Card>, remaining: set<string>, m: Records, k: string)
    requires KeyedById(m) && ListedSoFar(all, remaining, m) && k in remaining
    ensures var all' := all + [m[k]];
      forall i, j :: 0 <= i < j < |all'| ==> KeyLess(all'[i].id, all'[j].id)
  {
    var all' := all + [m[k]];
    assert m[k].id == k;
    forall i, j | 0 <= i < j < |all'| ensures KeyLess(all'[i].id, all'[j].id) {
      if j < |all| {
        assert all'[i] == all[i] && all'[j] == all[j];
      } else {
        assert all'[i] == all[i] && all'[j] == m[k];
      }
    }
  }

  lemma ListStepBelow(all: seq<Card>, remaining: set<string>, m: Records, k: string)
    requires KeyedById(m) && ListedSoFar(all, remaining, m)
    requires k in remaining && forall j :: j in remaining && j != k ==> KeyLess(k, j)
    ensures var all' := all + [m[k]];
      forall i, k' :: 0 <= i < |all'| && k' in remaining - {k} ==> KeyLess(all'[i].id, k')
  {
    var all' := all + [m[k]];
    assert m[k].id == k;
    forall i, k' | 0 <= i < |all'| && k' in remaining - {k} ensures KeyLess(all'[i].id, k') {
      if i < |all| {
        assert all'[i] == all[i];
      }
    }
  }

  lemma ListStepComplete(all: seq<Card>, remaining: set<string>, m: Records, k: string)
    requires KeyedById(m) && ListedSoFar(all, remaining, m) && k in remaining
    ensures var all' := all + [m[k]];
      forall k' :: k' in m && k' !in remaining - {k} ==> exists i :: 0 <= i < |all'| && all'[i].id == k'
  {
    var all' := all + [m[k]];
    forall k' | k' in m && k' !in remaining - {k}
      ensures exists i :: 0 <= i < |all'| && all'[i].id == k'
    {
      if k' == k {
        assert all'[|all|].id == k';
      } else {
        var i :| 0 <= i < |all| && all[i].id == k';
        assert all'[i].id == k';
      }
    }
  }

  /** `store.getAll()`: repeatedly takes the least key not listed yet. */
  method ListAll(m: Records) returns (all: seq<Card>)
    requires KeyedById(m)
    ensures |all| == |m| && ListsInKeyOrder(all, m)
  {
    all := [];
    var remaining := m.Keys;
    while remaining != {}
      invariant ListedSoFar(all, remaining, m)
      invariant |all| + |remaining| == |m.Keys|
      decreases |remaining|
    {
      ghost var least := LeastKeyExists(remaining);
      var k :| k in remaining && forall j :: j in remaining && j != k ==> KeyLess(k, j);
      ListStep(all, remaining, m, k);
      all := all + [m[k]];
      remaining := remaining - {k};
    }
  }

  // ---------------------------------------------------------------------
  // The subscriber Set

  /** A subscriber callback, known by its identity. */
  type ListenerId = nat

  /** `subscribers.add(cb)`: a Set keeps insertion order and ignores a second add. */
  function AddListener(subs: seq<ListenerId>, cb: ListenerId): (r: seq<ListenerId>)
    ensures NoDuplicates(subs) ==> NoDuplicates(r)
    ensures cb in r && forall x :: x in r <==> x in subs || x == cb
  {
    if cb in subs then subs else subs + [cb]
  }

  /** `subscribers.delete(cb)`. */
  function RemoveListener(subs: seq<ListenerId>, cb: ListenerId): (r: seq<ListenerId>)
    ensures cb !in r && forall x :: x in r <==> x in subs && x != cb
    ensures NoDuplicates(subs) ==> NoDuplicates(r)
    ensures |r| <= |subs|
  {
    if |subs| == 0 then []
    else if subs[0] == cb then RemoveListener(subs[1..], cb)
    else
      var rest := RemoveListener(subs[1..], cb);
      assert subs[0] !in rest || subs[0] in subs[1..];
      [subs[0]] + rest
  }

  /** Subscribing twice registers once; the handle removes the callback and nothing else. */
  lemma {:induction false} SubscribeThenUnsubscribe(subs: seq<ListenerId>, cb: ListenerId)
    requires NoDuplicates(subs) && cb !in subs
    ensures AddListener(AddListener(subs, cb), cb) == AddListener(subs, cb)
    ensures RemoveListener(AddListener(subs, cb), cb) == subs
  {
    RemoveAbsent(subs, cb);
    RemoveSnoc(subs, cb);
  }

  lemma {:induction false} RemoveAbsent(subs: seq<ListenerId>, cb: ListenerId)
    requires cb !in subs
    ensures RemoveListener(subs, cb) == subs
  {
    if |subs| > 0 {
      RemoveAbsent(subs[1..], cb);
    }
  }

  lemma {:induction false} RemoveSnoc(subs: seq<ListenerId>, cb: ListenerId)
    ensures RemoveListener(subs + [cb], cb) == RemoveListener(subs, cb)
  {
    if |subs| == 0 {
      assert [cb][1..] == [];
    } else {
      assert (subs + [cb])[1..] == subs[1..] + [cb];
      RemoveSnoc(subs[1..], cb);
    }
  }

  /** One invocation of a subscriber by `notify`, and whether it threw. */
  datatype Delivery = Delivery(listener: ListenerId, threw: bool)

  /** One `notify()` round: every subscriber in Set order, whether or not an earlier one threw. */
  function Round(subs: seq<ListenerId>, failing: set<ListenerId>): (r: seq<Delivery>)
    ensures |r| == |subs|
    ensures forall i :: 0 <= i < |subs| ==> r[i] == Delivery(subs[i], subs[i] in failing)
  {
    if |subs| == 0 then [] else [Delivery(subs[0], subs[0] in failing)] + Round(subs[1..], failing)
  }

  lemma RoundSnoc(subs: seq<ListenerId>, cb: ListenerId, failing: set<ListenerId>)
    ensures Round(subs + [cb], failing) == Round(subs, failing) + [Delivery(cb, cb in failing)]
  {
  }

  // ---------------------------------------------------------------------
  // The module state of lib/db.js

  class CardDb {
    /** `dbPromise`: assigned by the first `openDb()` and reused afterwards. */
    var isOpen: bool
    /** How many `indexedDB.open` requests have been issued. */
    var openRequests: nat
    /** Whether the database holds the `cards` object store. */
    var storeExists: bool
    /** The `cards` object store. */
    var records: Records
    /** The `subscribers` Set, in insertion order. */
    var subscribers: seq<ListenerId>
    /** The subscribers whose invocation throws (their exceptions are swallowed). */
    const failing: set<ListenerId>
    /** Every subscriber invocation so far, in order. */
    var deliveries: seq<Delivery>
    /** How many times `notify()` has run. */
    ghost var notifications: nat

    ghost predicate Valid()
      reads this
    {
      && KeyedById(records)
      && NoDuplicates(subscribers)
      && openRequests == (if isOpen then 1 else 0)
      && (isOpen ==> storeExists)
      && (!storeExists ==> records == map[])
    }

    /**
     * The extension starting over a persisted database: `persisted` is the
     * object store left by an earlier run, or None when there is none yet.
     */
    constructor (persisted: Option<Records>, failing: set<ListenerId>)
      requires persisted.Some? ==> KeyedById(persisted.value)
      ensures Valid() && !isOpen && this.failing == failing
      ensures storeExists == persisted.Some? && records == persisted.GetOr(map[])
      ensures subscribers == [] && deliveries == [] && notifications == 0
    {
      isOpen := false;
      openRequests := 0;
      storeExists := persisted.Some?;
      records := persisted.GetOr(map[]);
      subscribers := [];
      this.failing := failing;
      deliveries := [];
      notifications := 0;
    }

    /**
     * `openDb()`: the first call issues the open request, whose upgrade
     * creates the `cards` store only if it is missing; later calls reuse it.
     * No record is ever touched.
     */
    method Open()
      requires Valid()
      modifies this
      ensures Valid() && isOpen && storeExists
      ensures openRequests == 1
      ensures records == old(records)
      ensures old(isOpen) ==> storeExists == old(storeExists)
      ensures subscribers == old(subscribers) && deliveries == old(deliveries)
      ensures notifications == old(notifications)
    {
      if !isOpen {
        openRequests := openRequests + 1;
        if !storeExists {
          storeExists := true;
          records := map[];
        }
        isOpen := true;
      }
    }

    /** `notify()`: invoke each subscriber once; a throwing one does not stop the rest. */
    method Notify()
      requires Valid()
      modifies this
      ensures Valid()
      ensures deliveries == old(deliveries) + Round(subscribers, failing)
      ensures notifications == old(notifications) + 1
      ensures records == old(records) && subscribers == old(subscribers)
      ensures isOpen == old(isOpen) && openRequests == old(openRequests) && storeExists == old(storeExists)
    {
      var i := 0;
      var sent: seq<Delivery> := [];
      while i < |subscribers|
        invariant 0 <= i <= |subscribers|
        invariant sent == Round(subscribers[..i], failing)
        modifies {}
      {
        var cb := subscribers[i];
        var threw := cb in failing;
        sent := sent + [Delivery(cb, threw)];
        RoundSnoc(subscribers[..i], cb, failing);
        assert subscribers[..i + 1] == subscribers[..i] + [cb];
        i := i + 1;
      }
      assert subscribers[..i] == subscribers;
      deliveries := deliveries + sent;
      notifications := notifications + 1;
    }

    /** `dbAddCard(card)`: put, then notify. */
    method AddCard(card: Card)
      requires Valid()
      modifies this
      ensures Valid() && isOpen
      ensures records == Put(old(records), card)
      ensures subscribers == old(subscribers)
      ensures deliveries == old(deliveries) + Round(subscribers, failing)
      ensures notifications == old(notifications) + 1
    {
      Open();
      records := Put(records, card);
      Notify();
    }

    /** `dbGetAllCards()`: every record in key order; nothing is written and nobody is notified. */
    method GetAllCards() returns (all: seq<Card>)
      requires Valid()
      modifies this
      ensures Valid() && isOpen
      ensures records == old(records) && subscribers == old(subscribers)
      ensures deliveries == old(deliveries) && notifications == old(notifications)
      ensures |all| == |records|
      ensures ListsInKeyOrder(all, records)
    {
      Open();
      all := ListAll(records);
    }

    /** `dbUpdateCard(id, updates)`: merge and put when the id is present (then notify); otherwise nothing. */
    method UpdateCard(id: string, updates: CardPatch)
      requires Valid()
      modifies this
      ensures Valid() && isOpen
      ensures records == Update(old(records), id, updates)
      ensures subscribers == old(subscribers)
      ensures id in old(records) ==> deliveries == old(deliveries) + Round(subscribers, failing)
      ensures id in old(records) ==> notifications == old(notifications) + 1
      ensures id !in old(records) ==> deliveries == old(deliveries) && notifications == old(notifications)
    {
      Open();
      if id !in records {
        return;
      }
      var card := records[id];
      var next := Merge(card, updates);
      records := Put(records, next);
      Notify();
    }

    /** `dbDeleteCard(id)`: remove that key, then notify, whether or not it was present. */
    method DeleteCard(id: string)
      requires Valid()
      modifies this
      ensures Valid() && isOpen
      ensures records == Remove(old(records), id)
      ensures subscribers == old(subscribers)
      ensures deliveries == old(deliveries) + Round(subscribers, failing)
      ensures notifications == old(notifications) + 1
    {
      Open();
      records := Remove(records, id);
      Notify();
    }

    /** `dbSubscribe(cb)`: add the callback to the Set. */
    method Subscribe(cb: ListenerId)
      requires Valid()
      modifies this
      ensures Valid()
      ensures subscribers == AddListener(old(subscribers), cb)
      ensures records == old(records) && deliveries == old(deliveries) && notifications == old(notifications)
      ensures isOpen == old(isOpen) && storeExists == old(storeExists) && openRequests == old(openRequests)
    {
      subscribers := AddListener(subscribers, cb);
    }

    /** The handle `dbSubscribe(cb)` returns: delete the callback from the Set. */
    method Unsubscribe(cb: ListenerId)
      requires Valid()
      modifies this
      ensures Valid()
      ensures subscribers == RemoveListener(old(subscribers), cb)
      ensures records == old(records) && deliveries == old(deliveries) && notifications == old(notifications)
      ensures isOpen == old(isOpen) && storeExists == old(storeExists) && openRequests == old(openRequests)
    {
      subscribers := RemoveListener(subscribers, cb);
    }
  }

  /** A session of calls goes through one open request, and an existing store keeps its records. */
  method OpenOnceScenario(persisted: Records, card: Card) returns (db: CardDb)
    requires KeyedById(persisted)
    ensures db.Valid() && db.openRequests == 1
    ensures db.records == Put(persisted, card)
  {
    db := new CardDb(Some(persisted), {});
    var before := db.GetAllCards();
    db.AddCard(card);
    var after := db.GetAllCards();
    assert |after| == |Put(persisted, card)|;
  }
}
