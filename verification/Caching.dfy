/**
 The read/write-through cache of `pkg/cache`.

 A `Cache` keeps two repositories in front of a `Source`: the entities it has seen, and
 one "hit" per cached query, which lists the ids of the entities that answered it.
 Invalidating an entity invalidates queries, and invalidating a query invalidates the
 entities it lists, so the two operations call each other over a shrinking hit table.

 Every method of the cache is one atomic step.  A source lookup may fail at any time:
 `Source.fails(k)` decides whether the k-th lookup fails, and nothing is known about it.
 */
module Caching {
  import opened Common

  /** The key of a cached query.  `ByID(id)` is the key of the cache's own FindByID query. */
  datatype HitID<ID> = ByID(id: ID) | Named(name: string)

  datatype Hit<ID> = Hit(id: HitID<ID>, entityIDs: seq<ID>, timestamp: int)

  /** A user supplied invalidation rule; both checks are optional. */
  datatype Invalidator<!Ent, !ID> = Invalidator(
    checkEntity: Option<Ent -> seq<HitID<ID>>>,
    checkHit: Option<Hit<ID> -> bool>)

  /** The answer of a lookup by id. */
  datatype Lookup<+Ent> = Failed | Absent | Present(entity: Ent)

  /** What iterating over a query yields: some values and, possibly, a final error. */
  datatype Run<+Ent> = Run(values: seq<Ent>, failed: bool)

  /** A query is either the source's FindByID or supplied by the user; the cache may execute it twice. */
  datatype Query<+Ent, +ID> = SourceByID(id: ID) | User(first: Run<Ent>, again: Run<Ent>)

  /** How caching a query fails: at saving an entity after some others, or at recording the hit. */
  datatype CacheFault = NoFault | EntityFault(after: nat) | HitFault

  /** What is saved of the values that a query yields, before caching it fails. */
  function Stored<Ent>(run: Run<Ent>, fault: CacheFault): seq<Ent> {
    if fault.EntityFault? && fault.after < |run.values| then run.values[..fault.after] else run.values
  }

  /** No hit is recorded for the query. */
  predicate Unrecorded<Ent>(run: Run<Ent>, fault: CacheFault) {
    run.failed || fault.HitFault? || (fault.EntityFault? && fault.after < |run.values|)
  }

  /** A public call; the flags say which writes to the cache fail, and what a user query answers. */
  datatype Command<Ent, ID> =
    | CreateEntity(ent: Ent, fault: bool)
    | SaveEntity(ent: Ent, saveFault: bool, refreshFault: CacheFault)
    | UpdateEntity(ent: Ent, saveFault: bool, refreshFault: CacheFault)
    | DeleteEntity(id: ID)
    | DeleteEverything
    | Find(id: ID)
    | QueryMany(name: string, ids: seq<ID>, fails: bool, again: seq<ID>, failsAgain: bool)
    | QueryOne(name: string, ids: seq<ID>, fails: bool, again: seq<ID>, failsAgain: bool)
    | Refresh(id: ID)
    | RefreshQuery(name: string, ids: seq<ID>, fails: bool)
    | InvalidateEntity(id: ID)
    | InvalidateHit(hitID: HitID<ID>)
    | Drop

  predicate Faultless<Ent, ID>(command: Command<Ent, ID>) {
    match command
    case CreateEntity(_, fault) => !fault
    case SaveEntity(_, saveFault, _) => !saveFault
    case UpdateEntity(_, saveFault, _) => !saveFault
    case _ => true
  }

  /** The contents of the two cache repositories. */
  datatype Store<Ent, ID> = Store(hits: map<HitID<ID>, Hit<ID>>, entities: map<ID, Ent>)

  class Source<Ent(!new), ID(==, !new)> {
    const idOf: Ent -> ID
    const fails: nat -> bool
    var records: map<ID, Ent>
    var lookups: nat

    ghost predicate Valid()
      reads this`records
    {
      forall id :: id in records ==> idOf(records[id]) == id
    }

    ghost function Find(id: ID): Lookup<Ent>
      reads this`records
    {
      if id in records then Present(records[id]) else Absent
    }

    constructor (idOf: Ent -> ID, fails: nat -> bool)
      ensures Valid() && records == map[] && lookups == 0
      ensures this.idOf == idOf && this.fails == fails
    {
      this.idOf, this.fails, records, lookups := idOf, fails, map[], 0;
    }

    method FindByID(id: ID) returns (r: Lookup<Ent>)
      modifies this`lookups
      ensures lookups == old(lookups) + 1
      ensures r == if fails(old(lookups)) then Failed else Find(id)
    {
      r := if fails(lookups) then Failed else if id in records then Present(records[id]) else Absent;
      lookups := lookups + 1;
    }

    method Create(ent: Ent) returns (ok: bool)
      requires Valid()
      modifies this`records
      ensures Valid() && ok == (idOf(ent) !in old(records))
      ensures records == if ok then old(records)[idOf(ent) := ent] else old(records)
    {
      ok := idOf(ent) !in records;
      if ok {
        records := records[idOf(ent) := ent];
      }
    }

    method Save(ent: Ent)
      requires Valid()
      modifies this`records
      ensures Valid() && records == old(records)[idOf(ent) := ent]
    {
      records := records[idOf(ent) := ent];
    }

    method Update(ent: Ent) returns (ok: bool)
      requires Valid()
      modifies this`records
      ensures Valid() && ok == (idOf(ent) in old(records))
      ensures records == if ok then old(records)[idOf(ent) := ent] else old(records)
    {
      ok := idOf(ent) in records;
      if ok {
        records := records[idOf(ent) := ent];
      }
    }

    method DeleteByID(id: ID) returns (ok: bool)
      requires Valid()
      modifies this`records
      ensures Valid() && ok == (id in old(records)) && records == old(records) - {id}
    {
      ok := id in records;
      records := records - {id};
    }

    method DeleteAll()
      modifies this`records
      ensures Valid() && records == map[]
    {
      records := map[];
    }
  }

  // ---------------------------------------------------------------- predicates over a store

  /** No hit lists the entity `id`. */
  ghost predicate Unreferenced<Ent, ID(!new)>(s: Store<Ent, ID>, id: ID) {
    forall h :: h in s.hits ==> id !in s.hits[h].entityIDs
  }

  /** `t` is `s` with some hits and entities removed. */
  ghost predicate Shrunk<Ent, ID(!new)>(s: Store<Ent, ID>, t: Store<Ent, ID>) {
    && (forall h :: h in t.hits ==> h in s.hits && t.hits[h] == s.hits[h])
    && (forall x :: x in t.entities ==> x in s.entities && t.entities[x] == s.entities[x])
  }

  /**
   The cache agrees with `records` about every id outside `flight`, the ids whose
   invalidation has begun but not ended:
   cached entities are the source's own, every id a hit lists is cached, the hit of
   FindByID(id) lists `id` or nothing, and it lists nothing only while the source has
   no such record or the entity table answers first.
   */
  ghost predicate CoherentExcept<Ent, ID(!new)>(s: Store<Ent, ID>, records: map<ID, Ent>, flight: set<ID>) {
    && (forall x :: x in s.entities && x !in flight ==> x in records && records[x] == s.entities[x])
    && (forall h, x :: h in s.hits && x in s.hits[h].entityIDs && x !in flight ==> x in s.entities)
    && (forall x :: ByID(x) in s.hits ==> s.hits[ByID(x)].entityIDs == [] || s.hits[ByID(x)].entityIDs == [x])
    && (forall x :: ByID(x) in s.hits && s.hits[ByID(x)].entityIDs == [] && x in records && x !in flight
           ==> x in s.entities)
  }

  ghost predicate TriggeredBy<Ent, ID(!new)>(rules: seq<Invalidator<Ent, ID>>, ent: Ent, h: HitID<ID>) {
    exists i :: 0 <= i < |rules| && rules[i].checkEntity.Some? && h in rules[i].checkEntity.value(ent)
  }

  predicate CheckedBy<Ent, ID(!new)>(rules: seq<Invalidator<Ent, ID>>, hit: Hit<ID>) {
    exists i :: 0 <= i < |rules| && rules[i].checkHit.Some? && rules[i].checkHit.value(hit)
  }

  /** Invalidating `x` asks for the cascading invalidation of the query `h`. */
  ghost predicate Causes<Ent, ID(!new)>(rules: seq<Invalidator<Ent, ID>>, records: map<ID, Ent>,
                                        s: Store<Ent, ID>, x: ID, h: HitID<ID>) {
    || h == ByID(x)
    || (x in s.entities && TriggeredBy(rules, s.entities[x], h))
    || (x in records && TriggeredBy(rules, records[x], h))
  }

  /** `reach` contains every id that the cascade can get to from a member of `reach`. */
  ghost predicate SelfContained<Ent, ID(!new)>(rules: seq<Invalidator<Ent, ID>>, records: map<ID, Ent>,
                                               s: Store<Ent, ID>, reach: set<ID>) {
    forall x, h :: x in reach && h in s.hits && Causes(rules, records, s, x, h) ==>
      forall y :: y in s.hits[h].entityIDs ==> y in reach
  }

  /** The hit `h` is one that invalidating members of `reach` is meant to drop. */
  ghost predicate Concerned<Ent, ID(!new)>(rules: seq<Invalidator<Ent, ID>>, records: map<ID, Ent>,
                                           s: Store<Ent, ID>, reach: set<ID>, h: HitID<ID>)
    requires h in s.hits
  {
    || CheckedBy(rules, s.hits[h])
    || (exists x :: x in reach && Causes(rules, records, s, x, h))
    || (exists x :: x in reach && x in s.hits[h].entityIDs)
  }

  /** Going from `s` to `t` removed no entity outside `reach`, and only concerned hits or hits in `asked`. */
  ghost predicate Surgical<Ent, ID(!new)>(rules: seq<Invalidator<Ent, ID>>, records: map<ID, Ent>,
                                          s: Store<Ent, ID>, t: Store<Ent, ID>,
                                          reach: set<ID>, asked: set<HitID<ID>>) {
    && (forall x :: x in s.entities && x !in reach ==> x in t.entities)
    && (forall h :: h in s.hits && h !in t.hits && h !in asked ==> Concerned(rules, records, s, reach, h))
  }

  /** Everything one step of an invalidation guarantees. */
  ghost predicate Narrowed<Ent, ID(!new)>(rules: seq<Invalidator<Ent, ID>>, records: map<ID, Ent>,
                                          s: Store<Ent, ID>, t: Store<Ent, ID>, flight: set<ID>,
                                          seed: set<ID>, reach: set<ID>, asked: set<HitID<ID>>) {
    && Shrunk(s, t)
    && (CoherentExcept(s, records, flight) ==> CoherentExcept(t, records, flight))
    && (seed <= reach && SelfContained(rules, records, s, reach) ==> Surgical(rules, records, s, t, reach, asked))
  }

  lemma SelfContainedShrunk<Ent, ID(!new)>(rules: seq<Invalidator<Ent, ID>>, records: map<ID, Ent>,
                                           s: Store<Ent, ID>, t: Store<Ent, ID>, reach: set<ID>)
    requires Shrunk(s, t) && SelfContained(rules, records, s, reach)
    ensures SelfContained(rules, records, t, reach)
  {
    forall x, h | x in reach && h in t.hits && Causes(rules, records, t, x, h)
      ensures forall y :: y in t.hits[h].entityIDs ==> y in reach
    {
      assert Causes(rules, records, s, x, h);
    }
  }

  lemma ConcernedShrunk<Ent, ID(!new)>(rules: seq<Invalidator<Ent, ID>>, records: map<ID, Ent>,
                                       s: Store<Ent, ID>, t: Store<Ent, ID>, reach: set<ID>, h: HitID<ID>)
    requires Shrunk(s, t) && h in t.hits && Concerned(rules, records, t, reach, h)
    ensures Concerned(rules, records, s, reach, h)
  {
    if x :| x in reach && Causes(rules, records, t, x, h) {
      assert Causes(rules, records, s, x, h);
    }
  }

  /** Steps of an invalidation compose. */
  lemma NarrowedTrans<Ent, ID(!new)>(rules: seq<Invalidator<Ent, ID>>, records: map<ID, Ent>,
                                     s: Store<Ent, ID>, t: Store<Ent, ID>, u: Store<Ent, ID>, flight: set<ID>,
                                     seed: set<ID>, seed': set<ID>, reach: set<ID>,
                                     asked: set<HitID<ID>>, asked': set<HitID<ID>>)
    requires Narrowed(rules, records, s, t, flight, seed, reach, asked)
    requires Narrowed(rules, records, t, u, flight, seed', reach, asked')
    requires seed' <= seed && asked' <= asked
    ensures Narrowed(rules, records, s, u, flight, seed, reach, asked)
  {
    assert Shrunk(s, u);
    if seed <= reach && SelfContained(rules, records, s, reach) {
      SelfContainedShrunk(rules, records, s, t, reach);
      forall h | h in s.hits && h !in u.hits && h !in asked
        ensures Concerned(rules, records, s, reach, h)
      {
        if h in t.hits {
          ConcernedShrunk(rules, records, s, t, reach, h);
        }
      }
    }
  }

  /**
   A cascading step from an entity to a query that entity causes, seen from the start of the
   entity's invalidation.
   */
  lemma NarrowedCaused<Ent, ID(!new)>(rules: seq<Invalidator<Ent, ID>>, records: map<ID, Ent>,
                                      s: Store<Ent, ID>, t: Store<Ent, ID>, u: Store<Ent, ID>, flight: set<ID>,
                                      id: ID, reach: set<ID>, h: HitID<ID>)
    requires Narrowed(rules, records, s, t, flight, {id}, reach, {})
    requires Narrowed(rules, records, t, u, flight, Listed(t, h), reach, {h})
    requires Causes(rules, records, s, id, h)
    ensures Narrowed(rules, records, s, u, flight, {id}, reach, {})
  {
    assert Shrunk(s, u);
    if id in reach && SelfContained(rules, records, s, reach) {
      SelfContainedShrunk(rules, records, s, t, reach);
      assert Listed(t, h) <= reach;
      forall g | g in s.hits && g !in u.hits ensures Concerned(rules, records, s, reach, g) {
        if g in t.hits && g != h {
          ConcernedShrunk(rules, records, s, t, reach, g);
        }
      }
    }
  }

  /** Dropping a hit because it lists `id`, or because a rule says so, needs no further reason. */
  lemma NarrowedRelated<Ent, ID(!new)>(rules: seq<Invalidator<Ent, ID>>, records: map<ID, Ent>,
                                       s: Store<Ent, ID>, t: Store<Ent, ID>, flight: set<ID>,
                                       id: ID, reach: set<ID>, h: HitID<ID>)
    requires Narrowed(rules, records, s, t, flight, {id}, reach, {h})
    requires h in s.hits ==> id in s.hits[h].entityIDs || CheckedBy(rules, s.hits[h])
    ensures Narrowed(rules, records, s, t, flight, {id}, reach, {})
  {
  }

  /** Removing the entity breaks coherence for its own id only. */
  lemma NarrowedEntity<Ent, ID(!new)>(rules: seq<Invalidator<Ent, ID>>, records: map<ID, Ent>,
                                      s: Store<Ent, ID>, id: ID, flight: set<ID>, reach: set<ID>)
    ensures Narrowed(rules, records, s, s.(entities := s.entities - {id}), flight + {id}, {id}, reach, {})
  {
  }

  /** An id whose hits are all gone lands: it no longer counts as in flight. */
  lemma Landing<Ent, ID(!new)>(s: Store<Ent, ID>, records: map<ID, Ent>, flight: set<ID>, id: ID)
    requires CoherentExcept(s, records, flight + {id})
    requires id !in s.entities && ByID(id) !in s.hits && Unreferenced(s, id)
    ensures CoherentExcept(s, records, flight - {id})
  {
  }

  lemma CoherentWeaken<Ent, ID(!new)>(s: Store<Ent, ID>, records: map<ID, Ent>, flight: set<ID>, flight': set<ID>)
    requires CoherentExcept(s, records, flight) && flight <= flight'
    ensures CoherentExcept(s, records, flight')
  {
  }

  /**
   Why each hit is gone that was there in `s` and is not in `t`: every entity it lists went with
   it, or a rule checks the hit, or it lists an id whose invalidation started from `roots` or
   from another hit that is gone.
   */
  ghost predicate Accounted<Ent, ID(!new)>(rules: seq<Invalidator<Ent, ID>>, s: Store<Ent, ID>, t: Store<Ent, ID>,
                                           roots: set<ID>, asked: set<HitID<ID>>) {
    forall h :: h in s.hits && h !in t.hits && h !in asked ==>
      AllGone(t, s.hits[h].entityIDs) || CheckedBy(rules, s.hits[h]) || Reached(s, t, roots, h)
  }

  ghost predicate AllGone<Ent, ID(!new)>(t: Store<Ent, ID>, ids: seq<ID>) {
    forall x :: x in ids ==> x !in t.entities
  }

  ghost predicate Reached<Ent, ID(!new)>(s: Store<Ent, ID>, t: Store<Ent, ID>, roots: set<ID>, h: HitID<ID>)
    requires h in s.hits
  {
    exists x :: x in s.hits[h].entityIDs && (x in roots || ListedElsewhere(s, t, x, h))
  }

  ghost predicate ListedElsewhere<Ent, ID(!new)>(s: Store<Ent, ID>, t: Store<Ent, ID>, x: ID, h: HitID<ID>) {
    exists g :: g != h && g in s.hits && g !in t.hits && x in s.hits[g].entityIDs
  }

  lemma AccountedTrans<Ent, ID(!new)>(rules: seq<Invalidator<Ent, ID>>, s: Store<Ent, ID>, t: Store<Ent, ID>,
                                      u: Store<Ent, ID>, roots: set<ID>, roots': set<ID>, asked: set<HitID<ID>>)
    requires Shrunk(s, t) && Shrunk(t, u)
    requires Accounted(rules, s, t, roots, asked) && Accounted(rules, t, u, roots', {})
    requires forall x :: x in roots' ==>
      x in roots || exists g :: g in s.hits && g !in t.hits && x in s.hits[g].entityIDs
    ensures Accounted(rules, s, u, roots, asked)
  {
    forall h | h in s.hits && h !in u.hits && h !in asked
      ensures AllGone(u, s.hits[h].entityIDs) || CheckedBy(rules, s.hits[h]) || Reached(s, u, roots, h)
    {
      if h in t.hits {
        if Reached(t, u, roots', h) {
          ReachedBefore(s, t, u, roots, roots', h);
        }
      } else if Reached(s, t, roots, h) {
        var x :| x in s.hits[h].entityIDs && (x in roots || ListedElsewhere(s, t, x, h));
        assert x in roots || ListedElsewhere(s, u, x, h);
      }
    }
  }

  lemma ReachedBefore<Ent, ID(!new)>(s: Store<Ent, ID>, t: Store<Ent, ID>, u: Store<Ent, ID>, roots: set<ID>,
                                     roots': set<ID>, h: HitID<ID>)
    requires Shrunk(s, t) && Shrunk(t, u) && h in t.hits && Reached(t, u, roots', h)
    requires forall x :: x in roots' ==>
      x in roots || exists g :: g in s.hits && g !in t.hits && x in s.hits[g].entityIDs
    ensures h in s.hits && Reached(s, u, roots, h)
  {
    var x :| x in t.hits[h].entityIDs && (x in roots' || ListedElsewhere(t, u, x, h));
    if x !in roots' {
      var g :| g != h && g in t.hits && g !in u.hits && x in t.hits[g].entityIDs;
      assert g in s.hits && x in s.hits[g].entityIDs;
      assert ListedElsewhere(s, u, x, h);
    } else if x !in roots {
      var g :| g in s.hits && g !in t.hits && x in s.hits[g].entityIDs;
      assert ListedElsewhere(s, u, x, h);
    }
    assert x in s.hits[h].entityIDs && (x in roots || ListedElsewhere(s, u, x, h));
  }

  lemma AccountedDropped<Ent, ID(!new)>(rules: seq<Invalidator<Ent, ID>>, s: Store<Ent, ID>, h: HitID<ID>, id: ID)
    requires h in s.hits && (id in s.hits[h].entityIDs || CheckedBy(rules, s.hits[h]))
    ensures Accounted(rules, s, s.(hits := s.hits - {h}), {id}, {})
  {
  }

  /** The hit that was asked for is accounted for when every entity it lists is gone. */
  lemma AccountedAsked<Ent, ID(!new)>(rules: seq<Invalidator<Ent, ID>>, s: Store<Ent, ID>, t: Store<Ent, ID>,
    h: HitID<ID>)
    requires Accounted(rules, s, t, {}, {h}) && (h in s.hits ==> AllGone(t, s.hits[h].entityIDs))
    ensures Accounted(rules, s, t, {}, {})
  {
  }

  /** The queries the rules name for the entity are gone. */
  ghost predicate Untriggered<Ent, ID(!new)>(rules: seq<Invalidator<Ent, ID>>, ent: Ent, t: Store<Ent, ID>) {
    forall h :: TriggeredBy(rules, ent, h) ==> h !in t.hits
  }

  /** Every entity that went took with it the queries that the rules name for it. */
  ghost predicate Trailed<Ent, ID(!new)>(rules: seq<Invalidator<Ent, ID>>, s: Store<Ent, ID>, t: Store<Ent, ID>) {
    && Shrunk(s, t)
    && forall x :: x in s.entities && x !in t.entities ==> Untriggered(rules, s.entities[x], t)
  }

  lemma TrailedTrans<Ent, ID(!new)>(rules: seq<Invalidator<Ent, ID>>, s: Store<Ent, ID>, t: Store<Ent, ID>,
                                    u: Store<Ent, ID>)
    requires Trailed(rules, s, t) && Trailed(rules, t, u)
    ensures Trailed(rules, s, u)
  {
    hide TriggeredBy;
  }

  /** An entity is deleted, its queries go, and then some more hits. */
  lemma TrailedDeleted<Ent, ID(!new)>(rules: seq<Invalidator<Ent, ID>>, s: Store<Ent, ID>, t: Store<Ent, ID>,
                                      u: Store<Ent, ID>, id: ID)
    requires Trailed(rules, s.(entities := s.entities - {id}), t) && Shrunk(t, u) && u.entities == t.entities
    requires id in s.entities ==> Untriggered(rules, s.entities[id], t)
    ensures Trailed(rules, s, u)
  {
    hide TriggeredBy;
  }

  /** One more rule triggers its own queries. */
  lemma TriggeredMore<Ent, ID(!new)>(rules: seq<Invalidator<Ent, ID>>, ent: Ent, i: nat, h: HitID<ID>)
    requires i < |rules|
    ensures TriggeredBy(rules[..i + 1], ent, h) <==>
      TriggeredBy(rules[..i], ent, h) || (rules[i].checkEntity.Some? && h in rules[i].checkEntity.value(ent))
  {
    if TriggeredBy(rules[..i + 1], ent, h) {
      var k :| 0 <= k < i + 1 && rules[..i + 1][k].checkEntity.Some? && h in rules[..i + 1][k].checkEntity.value(ent);
      assert k < i ==> rules[..i][k] == rules[k];
    }
    if TriggeredBy(rules[..i], ent, h) {
      var k :| 0 <= k < i && rules[..i][k].checkEntity.Some? && h in rules[..i][k].checkEntity.value(ent);
      assert rules[..i + 1][k] == rules[k];
    }
    if rules[i].checkEntity.Some? && h in rules[i].checkEntity.value(ent) {
      assert rules[..i + 1][i] == rules[i];
    }
  }

  lemma NarrowedShrunk<Ent, ID(!new)>(rules: seq<Invalidator<Ent, ID>>, records: map<ID, Ent>, s: Store<Ent, ID>,
                                      t: Store<Ent, ID>, flight: set<ID>, seeds: set<ID>, reach: set<ID>,
                                      asked: set<HitID<ID>>)
    requires Narrowed(rules, records, s, t, flight, seeds, reach, asked)
    ensures Shrunk(s, t)
  {
  }

  lemma TriggerRule<Ent, ID(!new)>(rules: seq<Invalidator<Ent, ID>>, ent: Ent, i: nat, h: HitID<ID>)
    requires i < |rules| && rules[i].checkEntity.Some? && h in rules[i].checkEntity.value(ent)
    ensures TriggeredBy(rules, ent, h)
  {
  }

  lemma UnreferencedShrunk<Ent, ID(!new)>(s: Store<Ent, ID>, t: Store<Ent, ID>, id: ID)
    requires Shrunk(s, t) && Unreferenced(s, id)
    ensures Unreferenced(t, id)
  {
  }

  ghost function Listed<Ent, ID(!new)>(s: Store<Ent, ID>, h: HitID<ID>): set<ID> {
    if h in s.hits then set x | x in s.hits[h].entityIDs else {}
  }

  lemma CoherentListed<Ent, ID(!new)>(s: Store<Ent, ID>, records: map<ID, Ent>, flight: set<ID>, h: HitID<ID>)
    requires CoherentExcept(s, records, flight) && h in s.hits
    ensures forall x :: x in s.hits[h].entityIDs && x !in flight ==>
      x in s.entities && x in records && s.entities[x] == records[x]
  {
  }

  lemma CoherentWithoutHit<Ent, ID(!new)>(s: Store<Ent, ID>, records: map<ID, Ent>, flight: set<ID>, h: HitID<ID>)
    requires CoherentExcept(s, records, flight)
    ensures CoherentExcept(s.(hits := s.hits - {h}), records, flight)
  {
  }

  /** Saving current records keeps the cache coherent. */
  lemma CoherentSaved<Ent, ID(!new)>(s: Store<Ent, ID>, t: Store<Ent, ID>, records: map<ID, Ent>, flight: set<ID>)
    requires CoherentExcept(s, records, flight) && t.hits == s.hits && s.entities.Keys <= t.entities.Keys
    requires forall x :: x in t.entities ==>
               || (x in s.entities && t.entities[x] == s.entities[x])
               || (x in records && t.entities[x] == records[x])
    ensures CoherentExcept(t, records, flight)
  {
  }

  /** So does recording a hit whose entities are cached and which is not a wrong answer to a FindByID. */
  lemma CoherentHit<Ent, ID(!new)>(s: Store<Ent, ID>, records: map<ID, Ent>, flight: set<ID>, h: HitID<ID>,
    hit: Hit<ID>)
    requires CoherentExcept(s, records, flight)
    requires forall x :: x in hit.entityIDs ==> x in s.entities
    requires h.ByID? ==> hit.entityIDs == if h.id in records then [h.id] else []
    ensures CoherentExcept(s.(hits := s.hits[h := hit]), records, flight)
  {
  }

  /** An id whose cached entity is the current record is not stale. */
  lemma CoherentHealed<Ent, ID(!new)>(s: Store<Ent, ID>, records: map<ID, Ent>, flight: set<ID>, id: ID)
    requires CoherentExcept(s, records, flight)
    requires id in s.entities && id in records && s.entities[id] == records[id]
    ensures CoherentExcept(s, records, flight - {id})
  {
  }

  /** Writing one record of the source leaves the cache coherent about every other id. */
  lemma CoherentRewritten<Ent, ID(!new)>(s: Store<Ent, ID>, before: map<ID, Ent>, after: map<ID, Ent>,
    flight: set<ID>, id: ID)
    requires CoherentExcept(s, before, flight) && after - {id} == before - {id}
    ensures CoherentExcept(s, after, flight + {id})
  {
    forall x | x != id
      ensures x in before <==> x in after
      ensures x in before ==> before[x] == after[x]
    {
      assert x in before <==> x in before - {id};
      assert x in after <==> x in after - {id};
      if x in before {
        assert (before - {id})[x] == before[x];
      }
    }
  }

  // ---------------------------------------------------------------- the cache

  class Cache<Ent(!new), ID(==, !new)> {
    const source: Source<Ent, ID>
    const rules: seq<Invalidator<Ent, ID>>
    /** Whether the entity repository yields entities one by one before it meets a missing id. */
    const eager: bool
    var hits: map<HitID<ID>, Hit<ID>>
    var entities: map<ID, Ent>
    /** The ids for which a failed write-through was reported or logged and not yet repaired. */
    ghost var stale: set<ID>

    ghost function Now(): Store<Ent, ID>
      reads this
    {
      Store(hits, entities)
    }

    /** The invariant between calls. */
    ghost predicate Coherent()
      reads this, source
    {
      && source.Valid()
      && (forall x :: x in entities ==> source.idOf(entities[x]) == x)
      && CoherentExcept(Now(), source.records, stale)
    }

    ghost predicate FailedLookup(since: nat)
      reads source
    {
      exists k :: since <= k < source.lookups && source.fails(k)
    }

    constructor (source: Source<Ent, ID>, rules: seq<Invalidator<Ent, ID>>, eager: bool)
      requires source.Valid()
      ensures Coherent() && this.source == source && this.rules == rules && this.eager == eager
      ensures hits == map[] && entities == map[] && stale == {}
    {
      this.source, this.rules, this.eager := source, rules, eager;
      hits, entities, stale := map[], map[], {};
    }

    /** Deletes one hit and reports it; never fails. */
    method InvalidateWithoutCascade(hitID: HitID<ID>, ghost flight: set<ID>, ghost seed: set<ID>, ghost reach: set<ID>)
      returns (hit: Option<Hit<ID>>)
      modifies this`hits
      ensures hit == if hitID in old(hits) then Some(old(hits)[hitID]) else None
      ensures hits == old(hits) - {hitID}
      ensures Narrowed(rules, source.records, old(Now()), Now(), flight, seed, reach, {hitID})
    {
      if hitID in hits {
        hit := Some(hits[hitID]);
        hits := hits - {hitID};
      } else {
        hit := None;
      }
    }

    /**
     Invalidates the query `hitID`: drops the hit, then every entity it lists.
     `flight` holds the ids whose own invalidation is still running in a caller.
     */
    method InvalidateCachedQuery(hitID: HitID<ID>, ghost flight: set<ID>, ghost reach: set<ID>) returns (ok: bool)
      modifies this`hits, this`entities, source`lookups
      ensures source.lookups >= old(source.lookups)
      ensures ok <==> !FailedLookup(old(source.lookups))
      ensures (exists x :: x in Listed(old(Now()), hitID) && x !in old(entities)) ==>
        source.lookups > old(source.lookups)
      ensures !ok ==> Now() == old(Now())
      ensures ok ==> hitID !in hits
      ensures ok ==> forall x :: x in Listed(old(Now()), hitID) ==> x !in entities && Unreferenced(Now(), x)
      ensures ok ==> Narrowed(rules, source.records, old(Now()), Now(), flight, Listed(old(Now()), hitID), reach,
        {hitID})
      ensures ok ==> Accounted(rules, old(Now()), Now(), {}, {}) && Trailed(rules, old(Now()), Now())
      ensures ok ==> forall x :: x in Listed(old(Now()), hitID) ==> Followed(old(Now()), Now(), x) && NoneChecked()
      decreases hits.Keys, 0
    {
      hide CoherentExcept, SelfContained, Surgical, Unreferenced, Accounted, TriggeredBy, CheckedBy, Followed, Trailed;
      ghost var s := Now();
      var hits0, entities0 := hits, entities;
      var hit := InvalidateWithoutCascade(hitID, flight, Listed(s, hitID), reach);
      AskedOnly(s, hitID);
      HitTrailed(s, hitID);
      if hit == None {
        assert hits == hits0 && Now() == s;
        return true;
      }
      var ids := hit.value.entityIDs;
      for i := 0 to |ids|
        invariant source.lookups >= old(source.lookups) && !FailedLookup(old(source.lookups))
        invariant hitID !in hits
        invariant Narrowed(rules, source.records, s, Now(), flight, Listed(s, hitID), reach, {hitID})
        invariant forall j :: 0 <= j < i ==> ids[j] !in entities && Unreferenced(Now(), ids[j])
        invariant forall j :: 0 <= j < i && ids[j] !in s.entities ==> source.lookups > old(source.lookups)
        invariant Accounted(rules, s, Now(), {}, {hitID}) && Trailed(rules, s, Now())
        invariant forall j :: 0 <= j < i ==> Followed(s, Now(), ids[j]) && NoneChecked()
      {
        ghost var t := Now();
        ok := InvalidateByID(ids[i], flight, reach);
        if !ok {
          hits, entities := hits0, entities0;
          return;
        }
        NarrowedTrans(rules, source.records, s, t, Now(), flight, Listed(s, hitID), {ids[i]}, reach, {hitID}, {});
        AccountedTrans(rules, s, t, Now(), {}, {ids[i]}, {hitID});
        forall j | 0 <= j < i ensures ids[j] !in entities && Unreferenced(Now(), ids[j]) && Followed(s, Now(), ids[j]) {
          UnreferencedShrunk(t, Now(), ids[j]);
          FollowedShrunk(s, t, Now(), ids[j]);
        }
        FollowedBefore(s, t, Now(), ids[i]);
        TrailedTrans(rules, s, t, Now());
      }
      AccountedAsked(rules, s, Now(), hitID);
      return true;
    }

    /** Invalidates the entity `id`: its own hit, the queries its rules name, and every hit that lists it. */
    method InvalidateByID(id: ID, ghost flight: set<ID>, ghost reach: set<ID>) returns (ok: bool)
      modifies this`hits, this`entities, source`lookups
      ensures source.lookups >= old(source.lookups) + (if id in old(entities) then 0 else 1)
      ensures ok <==> !FailedLookup(old(source.lookups))
      ensures !ok ==> Now() == old(Now())
      ensures ok ==> id !in entities && ByID(id) !in hits && Unreferenced(Now(), id)
      ensures ok && CoherentExcept(old(Now()), source.records, flight + {id}) ==>
                CoherentExcept(Now(), source.records, flight - {id})
      ensures ok ==> Narrowed(rules, source.records, old(Now()), Now(), flight, {id}, reach, {})
      ensures rules == [] && id in Listed(old(Now()), ByID(id)) ==> source.lookups > old(source.lookups)
      ensures ok ==> Accounted(rules, old(Now()), Now(), {id}, {})
      ensures ok ==> Trailed(rules, old(Now()), Now()) && Followed(old(Now()), Now(), id) && NoneChecked()
      decreases hits.Keys, 3
    {
      hide CoherentExcept, SelfContained, Surgical, Concerned, TriggeredBy, Narrowed, Unreferenced, Accounted,
        CheckedBy, Untriggered, Trailed, Shrunk;
      ghost var s := Now();
      var hits0, entities0 := hits, entities;
      var found := if id in entities then Present(entities[id]) else Absent;
      entities := entities - {id};
      NarrowedEntity(rules, source.records, s, id, flight, reach);
      AccountedEntity(s, id);
      if found == Absent {
        found := source.FindByID(id);
        if found == Failed {
          entities := entities0;
          return false;
        }
      }
      assert Listed(Now(), ByID(id)) == Listed(s, ByID(id));
      ok := Cascade(id, found, s, flight + {id}, reach);
      if !ok {
        hits, entities := hits0, entities0;
        return;
      }
      ghost var t := Now();
      DropRelated(id, s, flight + {id}, reach);
      Landed(s, Now(), flight, id, reach);
      TrailedDeleted(rules, s, t, Now(), id);
      UntriggeredShrunk(found, t, Now());
    }

    lemma UntriggeredShrunk(found: Lookup<Ent>, t: Store<Ent, ID>, u: Store<Ent, ID>)
      requires Shrunk(t, u)
      ensures found.Present? && Untriggered(rules, found.entity, t) ==> Untriggered(rules, found.entity, u)
    {
    }

    lemma HitTrailed(s: Store<Ent, ID>, h: HitID<ID>)
      ensures Trailed(rules, s, s.(hits := s.hits - {h})) && Trailed(rules, s, s)
    {
    }

    lemma FollowedShrunk(s: Store<Ent, ID>, t: Store<Ent, ID>, u: Store<Ent, ID>, id: ID)
      requires Followed(s, t, id) && Trailed(rules, t, u)
      ensures Followed(s, u, id)
    {
    }

    /** What is invalidated after other invalidations has its queries gone, or lost them before. */
    lemma FollowedBefore(s: Store<Ent, ID>, t: Store<Ent, ID>, u: Store<Ent, ID>, id: ID)
      requires Trailed(rules, s, t) && Trailed(rules, t, u) && Followed(t, u, id)
      ensures Followed(s, u, id)
    {
      hide TriggeredBy;
    }

    lemma AccountedEntity(s: Store<Ent, ID>, id: ID)
      ensures Accounted(rules, s, s.(entities := s.entities - {id}), {id}, {})
    {
    }

    lemma AskedOnly(s: Store<Ent, ID>, h: HitID<ID>)
      ensures Accounted(rules, s, s.(hits := s.hits - {h}), {}, {h})
      ensures Accounted(rules, s, s, {}, {})
    {
    }

    /** The entity that an invalidation of `id` looks at: the cached one, or else the source's. */
    ghost function Looked(s: Store<Ent, ID>, id: ID): Lookup<Ent>
      reads source`records
    {
      if id in s.entities then Present(s.entities[id]) else source.Find(id)
    }

    /** Every query the rules name for that entity is gone. */
    ghost predicate Followed(s: Store<Ent, ID>, t: Store<Ent, ID>, id: ID)
      reads source`records
    {
      Looked(s, id).Present? ==> Untriggered(rules, Looked(s, id).entity, t)
    }

    /** No hit that a rule checks is left. */
    ghost predicate NoneChecked()
      reads this
    {
      forall h :: h in hits ==> !CheckedBy(rules, hits[h])
    }

    /** The id lands once its invalidation is through. */
    lemma Landed(s: Store<Ent, ID>, t: Store<Ent, ID>, flight: set<ID>, id: ID, reach: set<ID>)
      requires Narrowed(rules, source.records, s, t, flight + {id}, {id}, reach, {})
      requires id !in t.entities && ByID(id) !in t.hits && Unreferenced(t, id)
      ensures CoherentExcept(s, source.records, flight + {id}) ==> CoherentExcept(t, source.records, flight - {id})
      ensures Narrowed(rules, source.records, s, t, flight, {id}, reach, {})
    {
      hide CoherentExcept, Surgical, SelfContained, Unreferenced;
      if CoherentExcept(s, source.records, flight) {
        CoherentWeaken(s, source.records, flight, flight + {id});
      }
      if CoherentExcept(s, source.records, flight + {id}) {
        Landing(t, source.records, flight, id);
        CoherentWeaken(t, source.records, flight - {id}, flight);
      }
    }

    /** The cascading part: the queries the rules name for the entity, and the entity's own hit. */
    method Cascade(id: ID, found: Lookup<Ent>, ghost s: Store<Ent, ID>, ghost flight: set<ID>, ghost reach: set<ID>)
      returns (ok: bool)
      requires id !in entities && found != Failed
      requires Narrowed(rules, source.records, s, Now(), flight, {id}, reach, {})
      requires found.Present? ==> Known(s, id, found.entity)
      requires Accounted(rules, s, Now(), {id}, {})
      modifies this`hits, this`entities, source`lookups
      ensures source.lookups >= old(source.lookups)
      ensures ok <==> !FailedLookup(old(source.lookups))
      ensures ok ==> id !in entities && ByID(id) !in hits
      ensures ok ==> Narrowed(rules, source.records, s, Now(), flight, {id}, reach, {})
      ensures rules == [] && id in Listed(old(Now()), ByID(id)) ==> source.lookups > old(source.lookups)
      ensures ok ==> Accounted(rules, s, Now(), {id}, {})
      ensures ok && found.Present? ==> Untriggered(rules, found.entity, Now())
      ensures ok ==> Trailed(rules, old(Now()), Now())
      decreases hits.Keys, 2
    {
      hide CoherentExcept, SelfContained, Surgical, Concerned, TriggeredBy, Narrowed, Known, FailedLookup, Accounted,
        Trailed;
      NothingFailed();
      HitTrailed(Now(), ByID(id));
      if found.Present? {
        NoneTriggered(found.entity);
        for i := 0 to |rules|
          invariant i == 0 ==> hits == old(hits)
          invariant source.lookups >= old(source.lookups) && !FailedLookup(old(source.lookups))
          invariant id !in entities && hits.Keys <= old(hits).Keys
          invariant Narrowed(rules, source.records, s, Now(), flight, {id}, reach, {})
          invariant Accounted(rules, s, Now(), {id}, {}) && Trailed(rules, old(Now()), Now())
          invariant forall h :: TriggeredBy(rules[..i], found.entity, h) ==> h !in hits
        {
          forall h ensures TriggeredBy(rules[..i + 1], found.entity, h) <==>
              || TriggeredBy(rules[..i], found.entity, h)
              || (rules[i].checkEntity.Some? && h in rules[i].checkEntity.value(found.entity))
          {
            TriggeredMore(rules, found.entity, i, h);
          }
          if rules[i].checkEntity.Some? {
            var queries := rules[i].checkEntity.value(found.entity);
            for j := 0 to |queries|
              invariant source.lookups >= old(source.lookups) && !FailedLookup(old(source.lookups))
              invariant id !in entities && hits.Keys <= old(hits).Keys
              invariant Narrowed(rules, source.records, s, Now(), flight, {id}, reach, {})
              invariant Accounted(rules, s, Now(), {id}, {}) && Trailed(rules, old(Now()), Now())
              invariant forall h :: TriggeredBy(rules[..i], found.entity, h) ==> h !in hits
              invariant forall k :: 0 <= k < j ==> queries[k] !in hits
            {
              KnownCauses(s, id, found.entity, i, queries[j]);
              ghost var t := Now();
              ok := CascadeInto(id, queries[j], old(source.lookups), s, flight, reach);
              if !ok {
                return;
              }
              TrailedTrans(rules, old(Now()), t, Now());
            }
          }
        }
      }
      assert rules[..|rules|] == rules;
      OwnCauses(s, id);
      ghost var t := Now();
      ok := CascadeInto(id, ByID(id), old(source.lookups), s, flight, reach);
      if ok {
        TrailedTrans(rules, old(Now()), t, Now());
      }
    }

    /** One cascading invalidation of a query that the entity causes. */
    method CascadeInto(id: ID, h: HitID<ID>, ghost since: nat, ghost s: Store<Ent, ID>, ghost flight: set<ID>,
      ghost reach: set<ID>)
      returns (ok: bool)
      requires id !in entities && Causes(rules, source.records, s, id, h)
      requires since <= source.lookups && !FailedLookup(since)
      requires Narrowed(rules, source.records, s, Now(), flight, {id}, reach, {})
      requires Accounted(rules, s, Now(), {id}, {})
      modifies this`hits, this`entities, source`lookups
      ensures source.lookups >= old(source.lookups)
      ensures ok <==> !FailedLookup(since)
      ensures ok ==> id !in entities && h !in hits && hits.Keys <= old(hits).Keys
      ensures id in Listed(old(Now()), h) ==> source.lookups > old(source.lookups)
      ensures ok ==> Narrowed(rules, source.records, s, Now(), flight, {id}, reach, {})
      ensures ok ==> Accounted(rules, s, Now(), {id}, {}) && Trailed(rules, old(Now()), Now())
      decreases hits.Keys, 1
    {
      hide CoherentExcept, SelfContained, Surgical, Concerned, TriggeredBy, Causes, Accounted, Trailed;
      ghost var t := Now();
      ok := InvalidateCachedQuery(h, flight, reach);
      if ok {
        NarrowedCaused(rules, source.records, s, t, Now(), flight, id, reach, h);
        AccountedTrans(rules, s, t, Now(), {id}, {}, {});
      }
    }

    /** Drops the hits that list the entity or that a rule checks, without cascading. */
    method DropRelated(id: ID, ghost s: Store<Ent, ID>, ghost flight: set<ID>, ghost reach: set<ID>)
      requires id !in entities && ByID(id) !in hits
      requires Narrowed(rules, source.records, s, Now(), flight, {id}, reach, {})
      requires Accounted(rules, s, Now(), {id}, {})
      modifies this`hits
      ensures ByID(id) !in hits && Unreferenced(Now(), id)
      ensures Narrowed(rules, source.records, s, Now(), flight, {id}, reach, {})
      ensures Accounted(rules, s, Now(), {id}, {}) && NoneChecked() && Shrunk(old(Now()), Now())
    {
      hide CoherentExcept, SelfContained, Surgical, Concerned, Narrowed, Accounted, CheckedBy;
      var related := set h | h in hits && (id in hits[h].entityIDs || CheckedBy(rules, hits[h]));
      while related != {}
        invariant ByID(id) !in hits
        invariant forall h :: h in related ==> h in hits && (id in hits[h].entityIDs || CheckedBy(rules, hits[h]))
        invariant forall h :: h in hits && h !in related ==> id !in hits[h].entityIDs && !CheckedBy(rules, hits[h])
        invariant Accounted(rules, s, Now(), {id}, {}) && Shrunk(old(Now()), Now())
        invariant Narrowed(rules, source.records, s, Now(), flight, {id}, reach, {})
      {
        var h :| h in related;
        ghost var u := Now();
        var _ := InvalidateWithoutCascade(h, flight, {id}, reach);
        NarrowedShrunk(rules, source.records, s, u, flight, {id}, reach, {});
        AccountedDropped(rules, u, h, id);
        NarrowedRelated(rules, source.records, u, Now(), flight, id, reach, h);
        NarrowedTrans(rules, source.records, s, u, Now(), flight, {id}, {id}, reach, {}, {});
        AccountedTrans(rules, s, u, Now(), {id}, {id}, {});
        related := related - {h};
      }
    }

    /** The entity that an invalidation found, in the cache or in the source. */
    ghost predicate Known(s: Store<Ent, ID>, id: ID, ent: Ent)
      reads source`records
    {
      (id in s.entities && s.entities[id] == ent) || (id in source.records && source.records[id] == ent)
    }

    lemma KnownCauses(s: Store<Ent, ID>, id: ID, ent: Ent, i: nat, h: HitID<ID>)
      requires Known(s, id, ent) && i < |rules| && rules[i].checkEntity.Some?
      requires h in rules[i].checkEntity.value(ent)
      ensures Causes(rules, source.records, s, id, h)
    {
      TriggerRule(rules, ent, i, h);
    }

    lemma OwnCauses(s: Store<Ent, ID>, id: ID)
      ensures Causes(rules, source.records, s, id, ByID(id))
    {
    }

    lemma NoneTriggered(ent: Ent)
      ensures forall h :: !TriggeredBy(rules[..0], ent, h)
    {
    }

    lemma NothingFailed()
      ensures !FailedLookup(source.lookups)
    {
    }

    method DropCachedValues()
      modifies this`hits, this`entities, this`stale
      ensures hits == map[] && entities == map[] && stale == {}
      ensures source.Valid() ==> Coherent()
    {
      hits, entities, stale := map[], map[], {};
    }

    // -------------------------------------------------------------- read through

    ghost predicate Current(ent: Ent)
      reads source`records
    {
      source.idOf(ent) in source.records && source.records[source.idOf(ent)] == ent
    }

    /** User queries answer with current source records, and never use a FindByID key. */
    ghost predicate Admissible(hitID: HitID<ID>, query: Query<Ent, ID>)
      reads source`records
    {
      match query
      case SourceByID(id) => hitID == ByID(id)
      case User(first, again) =>
        hitID.Named? && forall e :: e in first.values || e in again.values ==> Current(e)
    }

    /** What executing the query yields when `lookups` source lookups were made before. */
    ghost function Outcome(query: Query<Ent, ID>, again: bool, lookups: nat): Run<Ent>
      reads source`records
    {
      match query
      case SourceByID(id) =>
        if source.fails(lookups) then Run([], true)
        else if id in source.records then Run([source.records[id]], false)
        else Run([], false)
      case User(first, second) => if again then second else first
    }

    lemma OutcomeCurrent(hitID: HitID<ID>, query: Query<Ent, ID>, again: bool, lookups: nat)
      requires source.Valid() && Admissible(hitID, query)
      ensures forall v :: v in Outcome(query, again, lookups).values ==> Current(v)
      ensures query.SourceByID? && Outcome(query, again, lookups).failed ==> source.fails(lookups)
    {
    }

    ghost function Ids(ents: seq<Ent>): set<ID> {
      set e | e in ents :: source.idOf(e)
    }

    method RunQuery(query: Query<Ent, ID>, again: bool) returns (run: Run<Ent>)
      modifies source`lookups
      ensures run == Outcome(query, again, old(source.lookups))
      ensures source.lookups == old(source.lookups) + (if query.SourceByID? then 1 else 0)
    {
      match query
      case SourceByID(id) =>
        var found := source.FindByID(id);
        run := match found
          case Failed => Run([], true)
          case Absent => Run([], false)
          case Present(e) => Run([e], false);
      case User(first, second) =>
        run := if again then second else first;
    }

    /** The entities listed before the first id that is not cached. */
    function Leading(ids: seq<ID>): seq<Ent>
      reads this`entities
    {
      if ids == [] || ids[0] !in entities then [] else [entities[ids[0]]] + Leading(ids[1..])
    }

    lemma {:induction false} LeadingListed(ids: seq<ID>)
      ensures forall v :: v in Leading(ids) ==> exists x :: x in ids && x in entities && entities[x] == v
      ensures (forall x :: x in ids ==> x in entities) ==>
        |Leading(ids)| == |ids| && forall i :: 0 <= i < |ids| ==> Leading(ids)[i] == entities[ids[i]]
    {
      if ids != [] && ids[0] in entities {
        LeadingListed(ids[1..]);
        assert ids == [ids[0]] + ids[1..];
      }
    }

    /**
     Entities().FindByIDs.  When some id is missing the iterator ends in an error; it then has
     yielded nothing, or, if it is eager, the entities listed before.
     */
    method FindByIDs(ids: seq<ID>) returns (values: seq<Ent>, missing: bool)
      ensures missing <==> exists x :: x in ids && x !in entities
      ensures missing ==> values == if eager then Leading(ids) else []
      ensures !missing ==> forall v :: v in values <==> exists x :: x in ids && entities[x] == v
      ensures !missing ==> |values| == if eager then |ids| else |set x | x in ids|
      ensures !missing ==> (values == [] <==> ids == [])
    {
      missing := exists x :: x in ids && x !in entities;
      LeadingListed(ids);
      if eager {
        values := Leading(ids);
        assert !missing ==> forall x :: x in ids ==> entities[x] in values;
      } else if missing {
        values := [];
      } else {
        values := Gather(ids);
      }
    }

    /** One entity per distinct id, in no particular order. */
    method Gather(ids: seq<ID>) returns (values: seq<Ent>)
      requires forall x :: x in ids ==> x in entities
      ensures forall v :: v in values <==> exists x :: x in ids && entities[x] == v
      ensures |values| == |set x | x in ids| && (values == [] <==> ids == [])
    {
      values := [];
      var rest := set x | x in ids;
      while rest != {}
        invariant forall x :: x in rest ==> x in ids
        invariant forall v :: v in values <==> exists x :: x in ids && x !in rest && entities[x] == v
        invariant |values| + |rest| == |set x | x in ids|
      {
        var x :| x in rest;
        var before := values;
        values := values + [entities[x]];
        rest := rest - {x};
        forall v ensures v in values <==> exists y :: y in ids && y !in rest && entities[y] == v {
          if v == entities[x] {
            assert x in ids && x !in rest;
          } else {
            assert v in values <==> v in before;
          }
        }
      }
      assert ids != [] ==> entities[ids[0]] in values;
      assert ids == [] ==> (set x | x in ids) == {};
    }

    /** What a cached lookup returns is what the source holds, for every id that is not stale. */
    lemma CachedValues(values: seq<Ent>, ids: seq<ID>)
      requires Coherent()
      requires forall v :: v in values ==> exists x :: x in ids && x in entities && entities[x] == v
      ensures forall v :: v in values && source.idOf(v) !in stale ==> Current(v)
      ensures (forall x :: x in ids ==> x in entities && x in source.records && entities[x] == source.records[x]) ==>
                forall v :: v in values ==> Current(v)
      ensures (forall x :: x in ids ==> x in entities && entities[x] in values) ==> Ids(values) == set x | x in ids
    {
    }

    /** Saves every value in order and lists their ids. */
    method SaveAll(values: seq<Ent>) returns (ids: seq<ID>)
      requires forall v :: v in values ==> Current(v)
      modifies this`entities
      ensures |ids| == |values| && (set x | x in ids) == Ids(values)
      ensures entities.Keys == old(entities).Keys + Ids(values)
      ensures forall x :: x in Ids(values) ==> x in source.records && entities[x] == source.records[x]
      ensures forall x :: x in old(entities) && x !in Ids(values) ==> entities[x] == old(entities)[x]
    {
      ids := [];
      for i := 0 to |values|
        invariant |ids| == i && (set x | x in ids) == Ids(values[..i])
        invariant entities.Keys == old(entities).Keys + Ids(values[..i])
        invariant forall x :: x in Ids(values[..i]) ==> x in source.records && entities[x] == source.records[x]
        invariant forall x :: x in old(entities) && x !in Ids(values[..i]) ==> entities[x] == old(entities)[x]
      {
        var v := values[i];
        assert Current(v) by { assert v in values; }
        assert values[..i + 1] == values[..i] + [v];
        assert Ids(values[..i + 1]) == Ids(values[..i]) + {source.idOf(v)};
        ids := ids + [source.idOf(v)];
        entities := entities[source.idOf(v) := v];
      }
      assert values[..|values|] == values;
    }

    /** Executes the query, saves what it yields, and records the hit, unless the query or one of these writes fails. */
    method CacheQuery(hitID: HitID<ID>, query: Query<Ent, ID>, fault: CacheFault, ghost flight: set<ID>)
      returns (ids: Option<seq<ID>>)
      requires source.Valid() && Admissible(hitID, query)
      modifies this`hits, this`entities, source`lookups
      ensures source.lookups == old(source.lookups) + (if query.SourceByID? then 1 else 0)
      ensures var run := Outcome(query, false, old(source.lookups));
        var stored := Stored(run, fault);
        && (ids == None <==> Unrecorded(run, fault))
        && entities.Keys == old(entities).Keys + Ids(stored)
        && (forall x :: x in Ids(stored) ==> x in source.records && entities[x] == source.records[x])
        && (forall x :: x in old(entities) && x !in Ids(stored) ==> entities[x] == old(entities)[x])
        && (ids.Some? ==> (set x | x in ids.value) == Ids(run.values) && |ids.value| == |run.values|)
      ensures ids == None ==> hits == old(hits)
      ensures ids.Some? ==>
        hitID in hits && hits == old(hits)[hitID := hits[hitID]] && hits[hitID].entityIDs == ids.value
      ensures CoherentExcept(old(Now()), source.records, flight) ==> CoherentExcept(Now(), source.records, flight)
      ensures query.SourceByID? && query.id in source.records && query.id in entities
                && entities[query.id] == source.records[query.id] ==>
                CoherentExcept(old(Now()), source.records, flight) ==>
                CoherentExcept(Now(), source.records, flight - {query.id})
    {
      hide CoherentExcept;
      ghost var s := Now();
      var run := RunQuery(query, false);
      var values := Stored(run, fault);
      var saved := SaveAll(values);
      if CoherentExcept(s, source.records, flight) {
        CoherentSaved(s, Now(), source.records, flight);
        HealedIfCurrent(query, flight);
      }
      if Unrecorded(run, fault) {
        return None;
      }
      var now: int := *;
      var hit := Hit(hitID, saved, now);
      if CoherentExcept(s, source.records, flight) {
        assert query.SourceByID? ==> saved == if query.id in source.records then [query.id] else [];
        CoherentHit(Now(), source.records, flight, hitID, hit);
      }
      hits := hits[hitID := hit];
      if CoherentExcept(s, source.records, flight) {
        HealedIfCurrent(query, flight);
      }
      return Some(saved);
    }

    lemma HealedIfCurrent(query: Query<Ent, ID>, flight: set<ID>)
      requires CoherentExcept(Now(), source.records, flight)
      ensures query.SourceByID? && query.id in source.records && query.id in entities
                && entities[query.id] == source.records[query.id] ==>
                CoherentExcept(Now(), source.records, flight - {query.id})
    {
      hide CoherentExcept;
      if query.SourceByID? && query.id in source.records && query.id in entities
         && entities[query.id] == source.records[query.id] {
        CoherentHealed(Now(), source.records, flight, query.id);
      }
    }

    /** Answers a query that has a hit; a hit that lists an uncached entity is dropped. */
    method ServeHit(hitID: HitID<ID>, query: Query<Ent, ID>) returns (r: Run<Ent>)
      requires Coherent() && Admissible(hitID, query) && hitID in hits
      modifies this`hits, source`lookups
      ensures Coherent() && source.lookups >= old(source.lookups)
      ensures forall v :: v in r.values && source.idOf(v) !in stale ==> Current(v)
      ensures (forall x :: x in old(hits)[hitID].entityIDs ==> x in entities) ==>
                && !r.failed && source.lookups == old(source.lookups) && hits == old(hits)
                && Ids(r.values) == (set x | x in hits[hitID].entityIDs) && AsCached(r.values)
      ensures (exists x :: x in old(hits)[hitID].entityIDs && x !in entities) ==>
                && hits == old(hits) - {hitID}
                && r == if eager && Leading(old(hits)[hitID].entityIDs) != []
                        then Run(Leading(old(hits)[hitID].entityIDs), false)
                        else Outcome(query, false, old(source.lookups))
      ensures query.SourceByID? && r.failed ==> FailedLookup(old(source.lookups))
    {
      hide CoherentExcept;
      var hit := hits[hitID];
      if hit.entityIDs == [] {
        return Run([], false);
      }
      CoherentListed(Now(), source.records, stale, hitID);
      var values, missing := FindByIDs(hit.entityIDs);
      if missing {
        LeadingListed(hit.entityIDs);
        CoherentWithoutHit(Now(), source.records, stale, hitID);
        hits := hits - {hitID};
      }
      if values != [] {
        CachedValues(values, hit.entityIDs);
        return Run(values, false);
      }
      r := RunQuery(query, false);
    }

    /** Looks up entities that have just been cached. */
    method Recall(ids: seq<ID>) returns (values: seq<Ent>)
      requires Coherent()
      requires forall x :: x in ids ==> x in entities && x in source.records && entities[x] == source.records[x]
      ensures Ids(values) == (set x | x in ids) && (values == [] <==> ids == [])
      ensures forall v :: v in values ==> Current(v)
    {
      hide CoherentExcept;
      var missing;
      values, missing := FindByIDs(ids);
      CachedValues(values, ids);
    }

    ghost predicate AsCached(values: seq<Ent>)
      reads this
    {
      forall v :: v in values ==> source.idOf(v) in entities && entities[source.idOf(v)] == v
    }

    /** What a query that had no hit yielded is cached now, and recorded unless the query failed. */
    ghost predicate Kept(hitID: HitID<ID>, run: Run<Ent>, before: map<HitID<ID>, Hit<ID>>)
      reads this, source
    {
      && (forall x :: x in Ids(run.values) ==> x in entities && x in source.records && entities[x] == source.records[x])
      && (run.failed ==> hits == before)
      && (!run.failed ==>
           && hitID in hits && hits == before[hitID := hits[hitID]]
           && (set x | x in hits[hitID].entityIDs) == Ids(run.values) && |hits[hitID].entityIDs| == |run.values|)
    }

    lemma NothingLost(run: Run<Ent>)
      ensures Stored(run, NoFault) == run.values && (Unrecorded(run, NoFault) <==> run.failed)
    {
    }

    /** Answers a query that has no hit by executing it, up to twice. */
    method ServeMiss(hitID: HitID<ID>, query: Query<Ent, ID>) returns (r: Run<Ent>)
      requires Coherent() && Admissible(hitID, query)
      modifies this`hits, this`entities, source`lookups
      ensures Coherent() && source.lookups >= old(source.lookups)
      ensures forall v :: v in r.values ==> Current(v)
      ensures var first := Outcome(query, false, old(source.lookups));
              var again := Outcome(query, true, old(source.lookups) + (if query.SourceByID? then 1 else 0));
              if first.failed || first.values == [] then r == again
              else !r.failed && Ids(r.values) == Ids(first.values)
      ensures query.SourceByID? && r.failed ==> FailedLookup(old(source.lookups))
      ensures Kept(hitID, Outcome(query, false, old(source.lookups)), old(hits))
    {
      hide CoherentExcept, Outcome, Stored, Unrecorded;
      NothingLost(Outcome(query, false, source.lookups));
      var ids := CacheQuery(hitID, query, NoFault, stale);
      if ids != None {
        forall x | x in ids.value ensures x in entities && x in source.records && entities[x] == source.records[x] {
          assert x in set y | y in ids.value;
        }
        var values := Recall(ids.value);
        if values != [] {
          return Run(values, false);
        }
      }
      OutcomeCurrent(hitID, query, true, source.lookups);
      r := RunQuery(query, true);
    }

    /** Answers a query from its hit, or executes and caches it. */
    method CachedQueryMany(hitID: HitID<ID>, query: Query<Ent, ID>) returns (r: Run<Ent>)
      requires Coherent() && Admissible(hitID, query)
      modifies this`hits, this`entities, source`lookups
      ensures Coherent() && source.lookups >= old(source.lookups)
      // every value that is returned is the source's current record
      ensures hitID !in old(hits) ==> forall v :: v in r.values ==> Current(v)
      ensures forall v :: v in r.values && source.idOf(v) !in stale ==> Current(v)
      // a cached query is answered without its source, with the entities that answered it when it was cached
      ensures hitID in old(hits) && (forall x :: x in old(hits)[hitID].entityIDs ==> x in old(entities)) ==>
                && !r.failed && source.lookups == old(source.lookups) && Now() == old(Now())
                && Ids(r.values) == (set x | x in hits[hitID].entityIDs) && AsCached(r.values)
      // a hit that lists an entity no longer cached is dropped; the entities listed before it are the
      // answer if the repository yields them, else the query is executed
      ensures hitID in old(hits) && (exists x :: x in old(hits)[hitID].entityIDs && x !in old(entities)) ==>
                && hits == old(hits) - {hitID} && entities == old(entities)
                && r == if eager && old(Leading(hits[hitID].entityIDs)) != []
                        then Run(old(Leading(hits[hitID].entityIDs)), false)
                        else Outcome(query, false, old(source.lookups))
      // without a hit the answer is that of one execution of the query
      ensures hitID !in old(hits) ==>
                var first := Outcome(query, false, old(source.lookups));
                var again := Outcome(query, true, old(source.lookups) + (if query.SourceByID? then 1 else 0));
                if first.failed || first.values == [] then r == again
                else !r.failed && Ids(r.values) == Ids(first.values)
      // and what it yielded is cached
      ensures hitID !in old(hits) ==> Kept(hitID, Outcome(query, false, old(source.lookups)), old(hits))
      // the cache's own query fails only when a source lookup failed
      ensures query.SourceByID? && r.failed ==> FailedLookup(old(source.lookups))
    {
      hide CoherentExcept, FailedLookup, Outcome, Kept;
      if hitID in hits {
        r := ServeHit(hitID, query);
      } else {
        r := ServeMiss(hitID, query);
      }
    }

    /** The first answer of a query, as CachedQueryOne reports it. */
    function First(r: Run<Ent>): Lookup<Ent> {
      if r.values != [] then Present(r.values[0]) else if r.failed then Failed else Absent
    }

    /** The cached entity, or else the cached absence, of `id` contradicts the source. */
    ghost predicate Misleads(id: ID)
      reads this`hits, this`entities, source`records
    {
      if id in entities then id !in source.records || source.records[id] != entities[id]
      else ByID(id) in hits && hits[ByID(id)].entityIDs == [] && id in source.records
    }

    /** What the store answers for `id` differs from `ent`. */
    ghost predicate Outdated(s: Store<Ent, ID>, id: ID, ent: Ent) {
      if id in s.entities then s.entities[id] != ent
      else ByID(id) in s.hits && s.hits[ByID(id)].entityIDs == []
    }

    /** The cache can mislead only about stale ids; a FindByID hit lists its own id or nothing. */
    lemma OnlyStaleMisleads(id: ID)
      requires Coherent()
      ensures Misleads(id) ==> id in stale
      ensures ByID(id) in hits ==> hits[ByID(id)].entityIDs == [] || hits[ByID(id)].entityIDs == [id]
    {
    }

    method CachedQueryOne(hitID: HitID<ID>, query: Query<Ent, ID>) returns (r: Lookup<Ent>)
      requires Coherent() && Admissible(hitID, query)
      modifies this`hits, this`entities, source`lookups
      ensures Coherent() && source.lookups >= old(source.lookups)
      ensures r.Present? && source.idOf(r.entity) !in stale ==> Current(r.entity)
      ensures query.SourceByID? && query.id !in old(entities) && r != Failed ==>
                (r == source.Find(query.id) <==> !old(Misleads(query.id)))
      ensures query.SourceByID? && query.id !in old(entities) && old(Misleads(query.id)) ==> r == Absent
      ensures query.SourceByID? && r == Failed ==> FailedLookup(old(source.lookups))
      // with a hit: one of the entities that answered the query, or none if there was none
      ensures hitID in old(hits) && (forall x :: x in old(hits)[hitID].entityIDs ==> x in old(entities)) ==>
                && source.lookups == old(source.lookups) && Now() == old(Now())
                && (old(hits)[hitID].entityIDs == [] ==> r == Absent)
                && (old(hits)[hitID].entityIDs != [] ==>
                     r.Present? && source.idOf(r.entity) in old(hits)[hitID].entityIDs && AsCached([r.entity]))
      // without one: one of the entities the query yields, or what its second execution says first
      ensures hitID !in old(hits) ==>
                var first := Outcome(query, false, old(source.lookups));
                var again := Outcome(query, true, old(source.lookups) + (if query.SourceByID? then 1 else 0));
                if first.failed || first.values == [] then
                  r == if again.values != [] then Present(again.values[0]) else if again.failed then Failed else Absent
                else r.Present? && source.idOf(r.entity) in Ids(first.values)
      ensures hitID !in old(hits) ==> Kept(hitID, Outcome(query, false, old(source.lookups)), old(hits))
    {
      hide FailedLookup, Kept, Ids;
      if query.SourceByID? && query.id !in entities && hitID in hits {
        OnlyStaleMisleads(query.id);
        assert hits[hitID].entityIDs != [] ==> query.id in hits[hitID].entityIDs;
      }
      var run := CachedQueryMany(hitID, query);
      r := First(run);
      if query.SourceByID? && hitID !in old(hits) {
        FirstOwn(query.id, old(source.lookups));
      }
      FirstIn(run.values);
      if hitID in old(hits) && old(hits)[hitID].entityIDs != [] {
        ghost var listed := set x | x in old(hits)[hitID].entityIDs;
        assert old(hits)[hitID].entityIDs[0] in listed;
        if forall x :: x in old(hits)[hitID].entityIDs ==> x in old(entities) {
          assert Ids(run.values) == listed;
        }
      }
      FirstIn(Outcome(query, false, old(source.lookups)).values);
    }

    lemma FirstOwn(id: ID, lookups: nat)
      requires source.Valid()
      ensures var values := Outcome(SourceByID(id), false, lookups).values; values == [] || Ids(values) == {id}
    {
      var values := Outcome(SourceByID(id), false, lookups).values;
      assert values != [] ==> values[0] in values;
    }

    lemma FirstIn(values: seq<Ent>)
      ensures values == [] ==> Ids(values) == {}
      ensures values != [] ==> values[0] in values && source.idOf(values[0]) in Ids(values)
    {
    }

    /** The cached FindByID is the source's FindByID exactly when the cache does not mislead about the id. */
    method FindByID(id: ID) returns (r: Lookup<Ent>)
      requires Coherent()
      modifies this`hits, this`entities, source`lookups
      ensures Coherent() && source.lookups >= old(source.lookups)
      ensures r != Failed ==> (r == source.Find(id) <==> !old(Misleads(id)))
      ensures id !in stale && r != Failed ==> r == source.Find(id)
      ensures r == Failed ==> FailedLookup(old(source.lookups))
      ensures id in old(entities) ==> r == Present(old(entities)[id]) && source.lookups == old(source.lookups)
      ensures id !in old(entities) && old(Misleads(id)) ==> r == Absent
      ensures id !in old(entities) && ByID(id) !in old(hits) ==>
                Kept(ByID(id), Outcome(SourceByID(id), false, old(source.lookups)), old(hits))
      ensures id !in old(entities) && ByID(id) in old(hits) && old(hits)[ByID(id)].entityIDs == [] ==>
                r == Absent && source.lookups == old(source.lookups) && Now() == old(Now())
    {
      OnlyStaleMisleads(id);
      if id in entities {
        return Present(entities[id]);
      }
      r := CachedQueryOne(ByID(id), SourceByID(id));
    }

    // -------------------------------------------------------------- refresh and invalidate

    ghost predicate NoFaults() {
      forall k :: !source.fails(k)
    }

    method RefreshByID(id: ID) returns (ok: bool)
      requires Coherent()
      modifies this`hits, this`entities, this`stale, source`lookups
      ensures Coherent() && source.lookups == old(source.lookups) + 1
      ensures ok <==> !source.fails(old(source.lookups))
      ensures !ok ==> Now() == old(Now())
      ensures ok ==> Listed(Now(), ByID(id)) == if id in source.records then {id} else {}
      ensures ok ==> ByID(id) in hits
      ensures id !in source.records ==> entities == old(entities)
      ensures ok && id in source.records ==> id in entities && entities[id] == source.records[id]
      ensures stale == if ok && id in source.records then old(stale) - {id} else old(stale)
    {
      var ids := CacheQuery(ByID(id), SourceByID(id), NoFault, stale);
      ok := ids != None;
      if ok && id in source.records {
        assert id in Ids([source.records[id]]);
        stale := stale - {id};
      }
    }

    method RefreshQueryMany(hitID: HitID<ID>, query: Query<Ent, ID>) returns (ok: bool)
      requires Coherent() && Admissible(hitID, query)
      modifies this`hits, this`entities, source`lookups
      ensures Coherent() && source.lookups >= old(source.lookups)
      ensures ok <==> !Outcome(query, false, old(source.lookups)).failed
      ensures ok ==>
                && hitID in hits
                && (set x | x in hits[hitID].entityIDs) == Ids(Outcome(query, false, old(source.lookups)).values)
    {
      hide CoherentExcept;
      var ids := CacheQuery(hitID, query, NoFault, stale);
      ok := ids != None;
    }

    /**
     The public InvalidateByID.  For any set `reach` that the cascade cannot leave, nothing
     outside `reach` is evicted.
     */
    method Invalidate(id: ID, ghost reach: set<ID>) returns (ok: bool)
      requires Coherent()
      modifies this`hits, this`entities, this`stale, source`lookups
      ensures Coherent() && source.lookups >= old(source.lookups)
      ensures ok <==> !FailedLookup(old(source.lookups))
      ensures !ok ==> Now() == old(Now())
      ensures ok ==> id !in entities && ByID(id) !in hits && Unreferenced(Now(), id) && Shrunk(old(Now()), Now())
      ensures ok && id in reach && SelfContained(rules, source.records, old(Now()), reach) ==>
                Surgical(rules, source.records, old(Now()), Now(), reach, {})
      ensures stale == if ok then old(stale) - {id} else old(stale)
      ensures ok ==> Accounted(rules, old(Now()), Now(), {id}, {}) && Trailed(rules, old(Now()), Now())
      ensures ok ==> Followed(old(Now()), Now(), id) && NoneChecked()
    {
      hide SelfContained, Surgical, FailedLookup, Accounted, TriggeredBy, CheckedBy;
      ok := InvalidateByID(id, stale, reach);
      if ok {
        CoherentWeaken(old(Now()), source.records, stale, stale + {id});
        stale := stale - {id};
      }
    }

    method InvalidateQuery(hitID: HitID<ID>, ghost reach: set<ID>) returns (ok: bool)
      requires Coherent()
      modifies this`hits, this`entities, source`lookups
      ensures Coherent() && source.lookups >= old(source.lookups)
      ensures ok <==> !FailedLookup(old(source.lookups))
      ensures !ok ==> Now() == old(Now())
      ensures ok ==> hitID !in hits && Shrunk(old(Now()), Now())
      ensures ok ==> forall x :: x in Listed(old(Now()), hitID) ==> x !in entities && Unreferenced(Now(), x)
      ensures ok && Listed(old(Now()), hitID) <= reach && SelfContained(rules, source.records, old(Now()), reach) ==>
                Surgical(rules, source.records, old(Now()), Now(), reach, {hitID})
      ensures ok ==> Accounted(rules, old(Now()), Now(), {}, {}) && Trailed(rules, old(Now()), Now())
      ensures ok ==> forall x :: x in Listed(old(Now()), hitID) ==> Followed(old(Now()), Now(), x) && NoneChecked()
    {
      hide SelfContained, Surgical, FailedLookup, Accounted, Trailed, Followed;
      ok := InvalidateCachedQuery(hitID, stale, reach);
    }

    // -------------------------------------------------------------- write through

    /**
     The cache's own Create fails by a fault, or because the id is cached already, as it is after
     a delete whose invalidation failed.  What the cache answered before then stays its answer.
     */
    method Create(ent: Ent, fault: bool) returns (ok: bool)
      requires Coherent()
      modifies this`entities, this`stale, source`records
      ensures Coherent()
      ensures ok == (source.idOf(ent) !in old(source.records))
      ensures source.records == if ok then old(source.records)[source.idOf(ent) := ent] else old(source.records)
      ensures entities ==
        if ok && !fault && source.idOf(ent) !in old(entities) then old(entities)[source.idOf(ent) := ent]
        else old(entities)
      ensures
        || stale == old(stale)
        || (fault && ByID(source.idOf(ent)) in hits && stale == old(stale) + {source.idOf(ent)})
      ensures ok ==>
                (Misleads(source.idOf(ent)) <==>
                  (fault || source.idOf(ent) in old(entities)) && Outdated(old(Now()), source.idOf(ent), ent))
      ensures !ok ==> (Misleads(source.idOf(ent)) <==> old(Misleads(source.idOf(ent))))
    {
      ghost var s := Now();
      ghost var before := source.records;
      var id := source.idOf(ent);
      ok := source.Create(ent);
      if !ok {
        return;
      }
      CoherentRewritten(s, before, source.records, stale, id);
      if !fault && id !in entities {
        entities := entities[id := ent];
        CoherentSaved(s, Now(), source.records, stale + {id});
        if id !in stale {
          CoherentHealed(Now(), source.records, stale + {id}, id);
          assert stale + {id} - {id} == stale;
        } else {
          assert stale + {id} == stale;
        }
      } else if ByID(id) in hits {
        stale := stale + {id};
      }
    }

    /**
     After a write to the source: save the entity in the cache, else refresh it, else invalidate it.
     Only when all three fail does the original log a potentially invalid cache state; the cache
     then misleads exactly if the refresh had not saved the record before it failed, and what the
     cache held before is no longer right.
     */
    method ShouldUpdateRefresh(ent: Ent, saveFault: bool, refreshFault: CacheFault, ghost reach: set<ID>)
      returns (logged: bool)
      requires source.Valid() && Current(ent)
      requires forall x :: x in entities ==> source.idOf(entities[x]) == x
      requires CoherentExcept(Now(), source.records, stale + {source.idOf(ent)})
      modifies this`hits, this`entities, this`stale, source`lookups
      ensures Coherent() && source.lookups >= old(source.lookups)
      ensures stale == if logged && !HalfRefreshed(refreshFault, old(source.lookups))
                       then old(stale) + {source.idOf(ent)} else old(stale) - {source.idOf(ent)}
      ensures logged <==> Unrepaired(saveFault, refreshFault, old(source.lookups))
      ensures logged ==> FailedLookup(old(source.lookups))
      ensures source.idOf(ent) !in old(entities) ==>
                (LostFirst(saveFault, refreshFault, old(source.lookups)) ==> logged)
      ensures Misleads(source.idOf(ent)) <==>
                && logged && !HalfRefreshed(refreshFault, old(source.lookups))
                && Outdated(old(Now()), source.idOf(ent), ent)
      ensures !saveFault ==>
                && hits == old(hits) && entities == old(entities)[source.idOf(ent) := ent]
                && source.lookups == old(source.lookups)
      ensures saveFault && !RefreshFails(refreshFault, old(source.lookups)) ==>
                && source.idOf(ent) in entities && entities[source.idOf(ent)] == ent
                && ByID(source.idOf(ent)) in hits
      ensures saveFault && RefreshFails(refreshFault, old(source.lookups)) && !logged ==>
                && source.idOf(ent) !in entities && ByID(source.idOf(ent)) !in hits
                && Unreferenced(Now(), source.idOf(ent)) && NoneChecked()
    {
      hide FailedLookup, CoherentExcept, SelfContained, Surgical;
      var id := source.idOf(ent);
      ghost var aloft := stale + {id};
      ghost var s := Now();
      logged := false;
      if !saveFault {
        entities := entities[id := ent];
        CoherentSaved(s, Now(), source.records, aloft);
        CoherentHealed(Now(), source.records, aloft, id);
        stale := stale - {id};
        assert aloft - {id} == stale;
        return;
      }
      ghost var half := HalfRefreshed(refreshFault, source.lookups);
      var refreshed := RefreshWritten(ent, refreshFault, aloft);
      ghost var low := if refreshed || half then stale - {id} else stale;
      assert aloft - {id} == stale - {id} && low + {id} == aloft && low - {id} == stale - {id};
      if refreshed {
        stale := low;
        return;
      }
      label L:
      var ok := InvalidateByID(id, low, reach);
      FirstFails(old@L(source.lookups));
      if ok {
        stale := stale - {id};
      } else {
        FailedSince(old(source.lookups), old@L(source.lookups));
        stale := if half then low else stale + {id};
        logged := true;
      }
    }

    /** The refresh of the entity that was just written to the source. */
    method RefreshWritten(ent: Ent, fault: CacheFault, ghost flight: set<ID>) returns (ok: bool)
      requires source.Valid() && Current(ent)
      requires forall x :: x in entities ==> source.idOf(entities[x]) == x
      requires CoherentExcept(Now(), source.records, flight)
      modifies this`hits, this`entities, source`lookups
      ensures source.lookups == old(source.lookups) + 1
      ensures forall x :: x in entities ==> source.idOf(entities[x]) == x
      ensures CoherentExcept(Now(), source.records, flight)
      ensures ok <==> !RefreshFails(fault, old(source.lookups))
      ensures ok || HalfRefreshed(fault, old(source.lookups)) ==>
        && source.idOf(ent) in entities && entities[source.idOf(ent)] == ent
        && CoherentExcept(Now(), source.records, flight - {source.idOf(ent)})
      ensures !ok && !HalfRefreshed(fault, old(source.lookups)) ==> Now() == old(Now())
      ensures ok ==> ByID(source.idOf(ent)) in hits
    {
      hide CoherentExcept;
      var id := source.idOf(ent);
      var ids := CacheQuery(ByID(id), SourceByID(id), fault, flight);
      ok := ids != None;
      assert id in Ids([ent]);
    }

    /** The refresh of one entity fails: at the source, at saving the entity, or at recording the hit. */
    ghost predicate RefreshFails(refreshFault: CacheFault, since: nat) {
      source.fails(since) || refreshFault.HitFault? || refreshFault == EntityFault(0)
    }

    /** The refresh saved the entity and failed at recording the hit. */
    ghost predicate HalfRefreshed(refreshFault: CacheFault, since: nat) {
      !source.fails(since) && refreshFault.HitFault?
    }

    /** The cache's save failed, the refresh failed, and a lookup of the invalidation failed. */
    ghost predicate Unrepaired(saveFault: bool, refreshFault: CacheFault, since: nat)
      reads source
    {
      saveFault && RefreshFails(refreshFault, since) && FailedLookup(since + 1)
    }

    /** So it is, for an entity that is not cached, when refresh and the first lookup of invalidation fail. */
    ghost predicate LostFirst(saveFault: bool, refreshFault: CacheFault, since: nat) {
      && saveFault && RefreshFails(refreshFault, since) && !HalfRefreshed(refreshFault, since)
      && source.fails(since + 1)
    }

    lemma FirstFails(since: nat)
      ensures since < source.lookups && source.fails(since) ==> FailedLookup(since)
    {
    }

    lemma FailedSince(since: nat, later: nat)
      requires since <= later && FailedLookup(later)
      ensures FailedLookup(since)
    {
    }

    method Save(ent: Ent, saveFault: bool, refreshFault: CacheFault, ghost reach: set<ID>) returns (logged: bool)
      requires Coherent()
      modifies this`hits, this`entities, this`stale, source`lookups, source`records
      ensures Coherent() && source.records == old(source.records)[source.idOf(ent) := ent]
      ensures source.lookups >= old(source.lookups)
      ensures stale == if logged && !HalfRefreshed(refreshFault, old(source.lookups))
                       then old(stale) + {source.idOf(ent)} else old(stale) - {source.idOf(ent)}
      ensures logged <==> Unrepaired(saveFault, refreshFault, old(source.lookups))
      ensures logged ==> FailedLookup(old(source.lookups))
      ensures source.idOf(ent) !in old(entities) ==>
                (LostFirst(saveFault, refreshFault, old(source.lookups)) ==> logged)
      ensures Misleads(source.idOf(ent)) <==>
                && logged && !HalfRefreshed(refreshFault, old(source.lookups))
                && Outdated(old(Now()), source.idOf(ent), ent)
      ensures !saveFault ==>
                && hits == old(hits) && entities == old(entities)[source.idOf(ent) := ent]
                && source.lookups == old(source.lookups)
      ensures saveFault && !RefreshFails(refreshFault, old(source.lookups)) ==>
                && source.idOf(ent) in entities && entities[source.idOf(ent)] == ent
                && ByID(source.idOf(ent)) in hits
      ensures saveFault && RefreshFails(refreshFault, old(source.lookups)) && !logged ==>
                && source.idOf(ent) !in entities && ByID(source.idOf(ent)) !in hits
                && Unreferenced(Now(), source.idOf(ent)) && NoneChecked()
    {
      hide FailedLookup, CoherentExcept;
      ghost var before := source.records;
      source.Save(ent);
      CoherentRewritten(Now(), before, source.records, stale, source.idOf(ent));
      logged := ShouldUpdateRefresh(ent, saveFault, refreshFault, reach);
    }

    method Update(ent: Ent, saveFault: bool, refreshFault: CacheFault, ghost reach: set<ID>)
      returns (ok: bool, logged: bool)
      requires Coherent()
      modifies this`hits, this`entities, this`stale, source`lookups, source`records
      ensures Coherent() && source.lookups >= old(source.lookups)
      ensures ok == (source.idOf(ent) in old(source.records))
      ensures source.records == if ok then old(source.records)[source.idOf(ent) := ent] else old(source.records)
      ensures !ok ==> !logged && Now() == old(Now()) && stale == old(stale)
      ensures ok ==>
                stale == if logged && !HalfRefreshed(refreshFault, old(source.lookups))
                         then old(stale) + {source.idOf(ent)} else old(stale) - {source.idOf(ent)}
      ensures logged <==> ok && Unrepaired(saveFault, refreshFault, old(source.lookups))
      ensures logged ==> FailedLookup(old(source.lookups))
      ensures source.idOf(ent) !in old(entities) ==>
                (ok && LostFirst(saveFault, refreshFault, old(source.lookups)) ==> logged)
      ensures ok ==>
                (Misleads(source.idOf(ent)) <==>
                  && logged && !HalfRefreshed(refreshFault, old(source.lookups))
                  && Outdated(old(Now()), source.idOf(ent), ent))
      ensures !ok ==> (Misleads(source.idOf(ent)) <==> old(Misleads(source.idOf(ent))))
      ensures ok && !saveFault ==>
                && hits == old(hits) && entities == old(entities)[source.idOf(ent) := ent]
                && source.lookups == old(source.lookups)
      ensures ok && saveFault && !RefreshFails(refreshFault, old(source.lookups)) ==>
                && source.idOf(ent) in entities && entities[source.idOf(ent)] == ent
                && ByID(source.idOf(ent)) in hits
      ensures ok && saveFault && RefreshFails(refreshFault, old(source.lookups)) && !logged ==>
                && source.idOf(ent) !in entities && ByID(source.idOf(ent)) !in hits
                && Unreferenced(Now(), source.idOf(ent)) && NoneChecked()
    {
      hide FailedLookup, CoherentExcept;
      ghost var before := source.records;
      ok := source.Update(ent);
      logged := false;
      if ok {
        CoherentRewritten(Now(), before, source.records, stale, source.idOf(ent));
        logged := ShouldUpdateRefresh(ent, saveFault, refreshFault, reach);
      }
    }

    /**
     Fails when the source has no such record, or when a lookup of the invalidation fails.  The
     cache then misleads about the deleted record exactly if the entity is still cached.
     */
    method DeleteByID(id: ID, ghost reach: set<ID>) returns (ok: bool)
      requires Coherent()
      modifies this`hits, this`entities, this`stale, source`lookups, source`records
      ensures Coherent() && source.records == old(source.records) - {id} && source.lookups >= old(source.lookups)
      ensures ok <==> id in old(source.records) && !FailedLookup(old(source.lookups))
      ensures ok ==> id !in entities && ByID(id) !in hits && Unreferenced(Now(), id) && stale == old(stale) - {id}
      ensures !ok ==> Now() == old(Now())
      ensures !ok ==> stale == if id in old(source.records) then old(stale) + {id} else old(stale)
      ensures id !in old(source.records) ==> source.lookups == old(source.lookups)
      ensures id in old(source.records) ==> (Misleads(id) <==> !ok && id in old(entities))
      ensures rules == [] && id in old(source.records) && id in Listed(old(Now()), ByID(id)) ==>
                source.lookups > old(source.lookups)
      ensures ok ==> Accounted(rules, old(Now()), Now(), {id}, {}) && Trailed(rules, old(Now()), Now())
      ensures ok ==> Followed(old(Now()), Now(), id) && NoneChecked()
    {
      hide FailedLookup, CoherentExcept;
      ghost var before := source.records;
      ok := source.DeleteByID(id);
      if !ok {
        assert source.records == before;
        return;
      }
      CoherentRewritten(Now(), before, source.records, stale, id);
      ok := InvalidateByID(id, stale, reach);
      stale := if ok then stale - {id} else stale + {id};
    }

    method DeleteAll()
      modifies this`hits, this`entities, this`stale, source`records
      ensures Coherent() && source.records == map[] && hits == map[] && entities == map[] && stale == {}
    {
      source.DeleteAll();
      DropCachedValues();
    }

    // -------------------------------------------------------------- whole runs

    /** The current records with the given ids: what a user query may answer. */
    function Pick(ids: seq<ID>, records: map<ID, Ent>): (r: seq<Ent>)
      ensures forall e :: e in r ==> exists x :: x in records && e == records[x]
    {
      if ids == [] then []
      else (if ids[0] in records then [records[ids[0]]] else []) + Pick(ids[1..], records)
    }

    method UserQuery(ids: seq<ID>, fails: bool, again: seq<ID>, failsAgain: bool) returns (q: Query<Ent, ID>)
      requires source.Valid()
      ensures forall name :: Admissible(Named(name), q)
      ensures q.User? && q.first.failed == fails
    {
      q := User(Run(Pick(ids, source.records), fails), Run(Pick(again, source.records), failsAgain));
    }

    /** The id a write can leave stale, if anything in it fails. */
    ghost function Exposed(command: Command<Ent, ID>): set<ID> {
      match command
      case CreateEntity(ent, fault) => if fault then {source.idOf(ent)} else {}
      case SaveEntity(ent, saveFault, _) => if saveFault then {source.idOf(ent)} else {}
      case UpdateEntity(ent, saveFault, _) => if saveFault then {source.idOf(ent)} else {}
      case DeleteEntity(id) => {id}
      case _ => {}
    }

    /** Of these, the ids that need no failing lookup. */
    ghost function Uncreated(command: Command<Ent, ID>): set<ID> {
      if command.CreateEntity? then Exposed(command) else {}
    }

    ghost function AllExposed(commands: seq<Command<Ent, ID>>): set<ID> {
      set c, x | c in commands && x in Exposed(c) :: x
    }

    ghost function AllUncreated(commands: seq<Command<Ent, ID>>): set<ID> {
      set c, x | c in commands && x in Uncreated(c) :: x
    }

    /** What a call does to the source, whatever becomes of the cache. */
    ghost function Written(command: Command<Ent, ID>, records: map<ID, Ent>): map<ID, Ent> {
      match command
      case CreateEntity(ent, _) =>
        if source.idOf(ent) in records then records else records[source.idOf(ent) := ent]
      case SaveEntity(ent, _, _) => records[source.idOf(ent) := ent]
      case UpdateEntity(ent, _, _) =>
        if source.idOf(ent) in records then records[source.idOf(ent) := ent] else records
      case DeleteEntity(id) => records - {id}
      case DeleteEverything => map[]
      case _ => records
    }

    ghost function AllWritten(commands: seq<Command<Ent, ID>>, records: map<ID, Ent>): map<ID, Ent> {
      if commands == [] then records
      else Written(commands[|commands| - 1], AllWritten(commands[..|commands| - 1], records))
    }

    /** A call with a user's query, which ends up recorded unless it fails. */
    method Ask(command: Command<Ent, ID>)
      requires Coherent() && (command.QueryMany? || command.QueryOne? || command.RefreshQuery?)
      modifies this`hits, this`entities, source`lookups
      ensures Coherent() && source.lookups >= old(source.lookups)
      ensures !command.fails && (command.RefreshQuery? || Named(command.name) !in old(hits)) ==>
                Named(command.name) in hits
    {
      hide CoherentExcept;
      match command {
        case QueryMany(name, ids, fails, again, failsAgain) =>
          var q := UserQuery(ids, fails, again, failsAgain);
          var _ := CachedQueryMany(Named(name), q);
        case QueryOne(name, ids, fails, again, failsAgain) =>
          var q := UserQuery(ids, fails, again, failsAgain);
          var _ := CachedQueryOne(Named(name), q);
        case RefreshQuery(name, ids, fails) =>
          var q := UserQuery(ids, fails, [], false);
          var _ := RefreshQueryMany(Named(name), q);
      }
    }

    /** A call leaves at most the id it writes stale, and then something in it failed. */
    method Step(command: Command<Ent, ID>)
      requires Coherent()
      modifies this`hits, this`entities, this`stale, source`lookups, source`records
      ensures Coherent() && source.lookups >= old(source.lookups)
      ensures stale <= old(stale) + Exposed(command)
      ensures !FailedLookup(old(source.lookups)) ==> stale <= old(stale) + Uncreated(command)
      ensures NoFaults() && Faultless(command) && old(stale) == {} ==> stale == {}
      ensures source.records == Written(command, old(source.records))
      ensures command.Drop? || command.DeleteEverything? ==> hits == map[] && entities == map[]
      ensures command.InvalidateEntity? && !FailedLookup(old(source.lookups)) ==>
                && command.id !in entities && ByID(command.id) !in hits && Unreferenced(Now(), command.id)
                && Followed(old(Now()), Now(), command.id) && NoneChecked()
      ensures command.InvalidateHit? && !FailedLookup(old(source.lookups)) ==> command.hitID !in hits
      ensures command.Refresh? && !source.fails(old(source.lookups)) ==>
                && ByID(command.id) in hits
                && (command.id in source.records ==> AsCached([source.records[command.id]]))
      ensures command.RefreshQuery? && !command.fails ==> Named(command.name) in hits
      ensures command.QueryMany? && !command.fails && Named(command.name) !in old(hits) ==> Named(command.name) in hits
      ensures command.QueryOne? && !command.fails && Named(command.name) !in old(hits) ==> Named(command.name) in hits
      ensures command.Find? && command.id !in old(entities) && ByID(command.id) !in old(hits) ==>
                Kept(ByID(command.id), Outcome(SourceByID(command.id), false, old(source.lookups)), old(hits))
    {
      hide CoherentExcept, FailedLookup, Unreferenced, Followed, NoneChecked, Accounted, Trailed, Shrunk, Surgical,
        SelfContained, Misleads, Outdated;
      match command {
        case CreateEntity(ent, fault) => var _ := Create(ent, fault);
        case SaveEntity(ent, saveFault, refreshFault) => var _ := Save(ent, saveFault, refreshFault, {});
        case UpdateEntity(ent, saveFault, refreshFault) => var _, _ := Update(ent, saveFault, refreshFault, {});
        case DeleteEntity(id) => var _ := DeleteByID(id, {});
        case DeleteEverything => DeleteAll();
        case Find(id) => var _ := FindByID(id);
        case QueryMany(_, _, _, _, _) => Ask(command);
        case QueryOne(_, _, _, _, _) => Ask(command);
        case Refresh(id) => var _ := RefreshByID(id);
        case RefreshQuery(_, _, _) => Ask(command);
        case InvalidateEntity(id) => var _ := Invalidate(id, {});
        case InvalidateHit(hitID) => var _ := InvalidateQuery(hitID, {});
        case Drop => DropCachedValues();
      }
      NoneFails(old(source.lookups));
    }

    lemma NoneFails(since: nat)
      ensures NoFaults() ==> !FailedLookup(since)
    {
    }

    /**
     Read-your-source, over every run from an empty cache and for every pattern of failing
     lookups and failing cache writes: the cached FindByID answers exactly as the source would,
     for every id that no failing write touched: neither a create, save or update whose own
     cache write failed, nor a delete.  As long as no lookup fails, only failing creates matter.
     */
    method RunThenFind(commands: seq<Command<Ent, ID>>, id: ID) returns (r: Lookup<Ent>)
      requires Coherent() && stale == {}
      modifies this`hits, this`entities, this`stale, source`lookups, source`records
      ensures Coherent() && stale <= AllExposed(commands)
      ensures source.records == AllWritten(commands, old(source.records))
      ensures r == Failed || id in AllExposed(commands) || r == source.Find(id)
      ensures !FailedLookup(old(source.lookups)) ==>
                r != Failed && stale <= AllUncreated(commands) && (id in AllUncreated(commands) || r == source.Find(id))
      ensures NoFaults() && (forall c :: c in commands ==> Faultless(c)) ==> stale == {} && r == source.Find(id)
    {
      hide CoherentExcept;
      ghost var since := source.lookups;
      assert commands[..0] == [];
      for i := 0 to |commands|
        invariant source.records == AllWritten(commands[..i], old(source.records))
        invariant Coherent() && since <= source.lookups
        invariant stale <= AllExposed(commands)
        invariant !FailedLookup(since) ==> stale <= AllUncreated(commands)
        invariant NoFaults() && (forall c :: c in commands ==> Faultless(c)) ==> stale == {}
      {
        assert commands[i] in commands && commands[..i + 1][..i] == commands[..i];
        Step(commands[i]);
      }
      assert commands[..|commands|] == commands;
      r := FindByID(id);
    }
  }

  /**
   An absence is cached, the record is created and the cache's own write fails: the cache goes
   on answering that there is no record.
   */
  method CreatedButAbsent<Ent(!new), ID(==, !new)>(idOf: Ent -> ID, ent: Ent)
    returns (source: Source<Ent, ID>, before: Lookup<Ent>, after: Lookup<Ent>)
    ensures before == Absent && after == Absent && source.Find(idOf(ent)) == Present(ent)
    ensures source.idOf == idOf && forall k :: !source.fails(k)
  {
    source := new Source<Ent, ID>(idOf, _ => false);
    var cache := new Cache<Ent, ID>(source, [], false);
    before := cache.FindByID(idOf(ent));
    var refreshed := cache.RefreshByID(idOf(ent));
    var created := cache.Create(ent, true);
    after := cache.FindByID(idOf(ent));
  }

  /**
   A record is deleted while it is cached with a hit of its own, and the source's lookups fail
   just then: the delete reports an error, the record is gone, and the cache goes on serving it.
   */
  method DeletedButPresent<Ent(!new), ID(==, !new)>(idOf: Ent -> ID, ent: Ent)
    returns (source: Source<Ent, ID>, ok: bool, after: Lookup<Ent>)
    ensures !ok && after == Present(ent) && source.Find(idOf(ent)) == Absent
  {
    source := new Source<Ent, ID>(idOf, k => k > 0);
    var cache := new Cache<Ent, ID>(source, [], false);
    var created := cache.Create(ent, false);
    var refreshed := cache.RefreshByID(idOf(ent));
    assert source.lookups == 1 && idOf(ent) in source.records;
    ok := cache.DeleteByID(idOf(ent), {});
    assert source.lookups > 1 && source.fails(1);
    cache.FirstFails(1);
    after := cache.FindByID(idOf(ent));
  }

  /**
   The failed delete again, and then a new record under the same id: the entity repository
   refuses it, with no fault and no cached absence, and the cache serves the deleted record.
   */
  method CreatedButOld<Ent(!new), ID(==, !new)>(idOf: Ent -> ID, first: Ent, second: Ent)
    returns (source: Source<Ent, ID>, created: bool, after: Lookup<Ent>)
    requires idOf(first) == idOf(second)
    ensures created && after == Present(first) && source.Find(idOf(second)) == Present(second)
  {
    source := new Source<Ent, ID>(idOf, k => k > 0);
    var cache := new Cache<Ent, ID>(source, [], false);
    created := cache.Create(first, false);
    var refreshed := cache.RefreshByID(idOf(first));
    assert source.lookups == 1 && idOf(first) in source.records;
    var ok := cache.DeleteByID(idOf(first), {});
    assert source.lookups > 1 && source.fails(1);
    cache.FirstFails(1);
    created := cache.Create(second, false);
    after := cache.FindByID(idOf(second));
  }
}
