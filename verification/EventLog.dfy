/**
 The event-sourced repository (`adapter/memory/EventLog.go`, `EventLogRepository.go`).

 The log is a sequence of events; a repository's entities are a fold over the events of its
 namespace.  A transaction is a layer of further events on a log or on another transaction.
 Compaction rewrites the log underneath everything that is layered on it.
 */
module EventSourcing {
  import opened Common

  datatype Kind = Create | Save | Update | DeleteByID | DeleteAll

  datatype RepoEvent<+Ent> = RepoEvent(ns: string, kind: Kind, value: Ent)

  /**
   What a log holds: transaction markers, other log events, events of repositories of this entity
   type, anything else.
   */
  datatype Event<+Ent> = Marker(name: string) | LogEvent(name: string) | Own(e: RepoEvent<Ent>) | Foreign(tag: int)

  // ---------------------------------------------------------------- views

  /** What one event does to the entities of namespace `ns`. */
  function Apply<Ent, ID>(idOf: Ent -> ID, ns: string, m: map<ID, Ent>, event: Event<Ent>): map<ID, Ent> {
    if !event.Own? || event.e.ns != ns then m
    else match event.e.kind
      case Create => m[idOf(event.e.value) := event.e.value]
      case Update => m[idOf(event.e.value) := event.e.value]
      case DeleteByID => m - {idOf(event.e.value)}
      case DeleteAll => map[]
      case Save => m
  }

  /** The entities that the events leave, starting from `m`. */
  function ViewFrom<Ent, ID>(idOf: Ent -> ID, ns: string, m: map<ID, Ent>, events: seq<Event<Ent>>): map<ID, Ent> {
    if events == [] then m
    else Apply(idOf, ns, ViewFrom(idOf, ns, m, events[..|events| - 1]), events[|events| - 1])
  }

  function View<Ent, ID>(idOf: Ent -> ID, ns: string, events: seq<Event<Ent>>): map<ID, Ent> {
    ViewFrom(idOf, ns, map[], events)
  }

  lemma {:induction false} ViewConcat<Ent, ID>(idOf: Ent -> ID, ns: string, m: map<ID, Ent>, a: seq<Event<Ent>>,
    b: seq<Event<Ent>>)
    ensures ViewFrom(idOf, ns, m, a + b) == ViewFrom(idOf, ns, ViewFrom(idOf, ns, m, a), b)
  {
    if b == [] {
      assert a + b == a;
    } else {
      assert (a + b)[..|a + b| - 1] == a + b[..|b| - 1];
      ViewConcat(idOf, ns, m, a, b[..|b| - 1]);
    }
  }

  lemma ViewAppend<Ent, ID>(idOf: Ent -> ID, ns: string, events: seq<Event<Ent>>, e: Event<Ent>)
    ensures View(idOf, ns, events + [e]) == Apply(idOf, ns, View(idOf, ns, events), e)
  {
    assert (events + [e])[..|events|] == events;
  }

  /** Events of other namespaces do nothing to a view. */
  lemma {:induction false} ViewIdle<Ent(!new), ID>(idOf: Ent -> ID, ns: string, m: map<ID, Ent>,
    events: seq<Event<Ent>>)
    requires forall i :: 0 <= i < |events| ==> !Concerns(ns, events[i])
    ensures ViewFrom(idOf, ns, m, events) == m
  {
    if events != [] {
      ViewIdle(idOf, ns, m, events[..|events| - 1]);
    }
  }

  predicate Concerns<Ent>(ns: string, e: Event<Ent>) {
    e.Own? && e.e.ns == ns
  }

  // ---------------------------------------------------------------- compaction

  /** The parts compaction by the repository of namespace `ns` sorts the log into. */
  datatype Part = Dropped | Unrelated | Sibling | Mine

  function PartOf<Ent>(ns: string, e: Event<Ent>): Part {
    match e
    case Marker(_) => Dropped
    case LogEvent(_) => Unrelated
    case Foreign(_) => Unrelated
    case Own(r) => if r.ns == ns then Mine else Sibling
  }

  function Only<Ent>(ns: string, part: Part, events: seq<Event<Ent>>): (r: seq<Event<Ent>>)
    ensures forall i :: 0 <= i < |r| ==> PartOf(ns, r[i]) == part
  {
    if events == [] then []
    else
      var rest, last := events[..|events| - 1], events[|events| - 1];
      Only(ns, part, rest) + (if PartOf(ns, last) == part then [last] else [])
  }

  /** The part that holds all events of namespace `n` carries its whole view. */
  lemma {:induction false} ViewOnly<Ent(!new), ID>(idOf: Ent -> ID, ns: string, n: string, m: map<ID, Ent>,
    events: seq<Event<Ent>>)
    ensures ViewFrom(idOf, n, m, Only(ns, if n == ns then Mine else Sibling, events)) == ViewFrom(idOf, n, m, events)
  {
    if events != [] {
      var part := if n == ns then Mine else Sibling;
      var rest, last := events[..|events| - 1], events[|events| - 1];
      ViewOnly(idOf, ns, n, m, rest);
      if PartOf(ns, last) == part {
        assert Only(ns, part, events)[..|Only(ns, part, events)| - 1] == Only(ns, part, rest);
      } else {
        assert Only(ns, part, events) == Only(ns, part, rest);
      }
    }
  }

  predicate Creates<Ent, ID(==)>(idOf: Ent -> ID, ns: string, e: Event<Ent>, x: ID) {
    Concerns(ns, e) && e.e.kind == Create && idOf(e.e.value) == x
  }

  ghost predicate Created<Ent(!new), ID(!new)>(idOf: Ent -> ID, ns: string, news: seq<Event<Ent>>, x: ID) {
    exists i :: 0 <= i < |news| && Creates(idOf, ns, news[i], x)
  }

  /** Each event creates the entity that `m` holds under its id. */
  ghost predicate CreatesFrom<Ent(!new), ID(!new)>(idOf: Ent -> ID, ns: string, m: map<ID, Ent>,
    news: seq<Event<Ent>>) {
    forall i :: 0 <= i < |news| ==>
      && Concerns(ns, news[i]) && news[i].e.kind == Create
      && idOf(news[i].e.value) in m && m[idOf(news[i].e.value)] == news[i].e.value
  }

  /** `news` creates every entity of `m`, each once, in some order. */
  ghost predicate Snapshot<Ent(!new), ID(!new)>(idOf: Ent -> ID, ns: string, m: map<ID, Ent>, news: seq<Event<Ent>>) {
    && |news| == |m|
    && CreatesFrom(idOf, ns, m, news)
    && (forall x :: x in m ==> Created(idOf, ns, news, x))
  }

  /** The log compaction leaves: the rest in place, then one creation for each live entity. */
  ghost predicate Compacted<Ent(!new), ID(!new)>(idOf: Ent -> ID, ns: string, before: seq<Event<Ent>>,
    after: seq<Event<Ent>>) {
    exists news ::
      && after == Only(ns, Unrelated, before) + Only(ns, Sibling, before) + news
      && Snapshot(idOf, ns, View(idOf, ns, before), news)
  }

  /** Creating entities of `m` one by one, whatever the order, rebuilds the part of `m` created so far. */
  lemma {:induction false} ViewCreates<Ent(!new), ID(!new)>(idOf: Ent -> ID, ns: string, m: map<ID, Ent>,
    news: seq<Event<Ent>>)
    requires CreatesFrom(idOf, ns, m, news)
    ensures var v := View(idOf, ns, news);
      && (forall x :: x in v <==> Created(idOf, ns, news, x))
      && (forall x :: x in v ==> x in m && v[x] == m[x])
  {
    if news != [] {
      var rest, last := news[..|news| - 1], news[|news| - 1];
      ViewCreates(idOf, ns, m, rest);
      var u, v := View(idOf, ns, rest), View(idOf, ns, news);
      forall x ensures x in v <==> Created(idOf, ns, news, x) {
        if x in u {
          var i :| 0 <= i < |rest| && Creates(idOf, ns, rest[i], x);
          assert news[i] == rest[i];
        }
        if i :| 0 <= i < |news| && Creates(idOf, ns, news[i], x) && i != |news| - 1 {
          assert rest[i] == news[i];
        }
        assert news[|news| - 1] == last;
      }
    }
  }

  lemma SnapshotView<Ent(!new), ID(!new)>(idOf: Ent -> ID, ns: string, m: map<ID, Ent>, news: seq<Event<Ent>>)
    requires Snapshot(idOf, ns, m, news)
    ensures View(idOf, ns, news) == m
  {
    hide ViewFrom, Created, CreatesFrom;
    ViewCreates(idOf, ns, m, news);
    assert View(idOf, ns, news).Keys == m.Keys;
  }

  /** Compaction changes no view, of any namespace, nor any view of events layered on the log. */
  lemma CompactionPreserves<Ent(!new), ID(!new)>(idOf: Ent -> ID, ns: string, before: seq<Event<Ent>>,
    after: seq<Event<Ent>>,
                                                 n: string, layered: seq<Event<Ent>>)
    requires Compacted(idOf, ns, before, after)
    ensures View(idOf, n, after + layered) == View(idOf, n, before + layered)
  {
    var news :| after == Only(ns, Unrelated, before) + Only(ns, Sibling, before) + news
                && Snapshot(idOf, ns, View(idOf, ns, before), news);
    var unrelated, sibling := Only(ns, Unrelated, before), Only(ns, Sibling, before);
    ViewConcat(idOf, n, map[], after, layered);
    ViewConcat(idOf, n, map[], before, layered);
    ViewConcat(idOf, n, map[], unrelated + sibling, news);
    ViewConcat(idOf, n, map[], unrelated, sibling);
    ViewIdle(idOf, n, map[], unrelated);
    if n == ns {
      ViewIdle(idOf, n, map[], sibling);
      SnapshotView(idOf, ns, View(idOf, ns, before), news);
    } else {
      ViewOnly(idOf, ns, n, map[], before);
      ViewIdle(idOf, n, View(idOf, n, sibling), news);
    }
  }

  /** The views of layers on top of the same log. */
  function Views<Ent, ID>(idOf: Ent -> ID, n: string, log: seq<Event<Ent>>,
    layers: seq<seq<Event<Ent>>>): seq<map<ID, Ent>> {
    if layers == [] then []
    else Views(idOf, n, log, layers[..|layers| - 1]) + [View(idOf, n, log + layers[|layers| - 1])]
  }

  lemma {:induction false} CompactionViews<Ent(!new), ID(!new)>(idOf: Ent -> ID, ns: string, before: seq<Event<Ent>>,
    after: seq<Event<Ent>>,
                                                                n: string, layers: seq<seq<Event<Ent>>>)
    requires Compacted(idOf, ns, before, after)
    ensures Views(idOf, n, after, layers) == Views(idOf, n, before, layers)
  {
    if layers != [] {
      CompactionViews(idOf, ns, before, after, n, layers[..|layers| - 1]);
      CompactionPreserves(idOf, ns, before, after, n, layers[|layers| - 1]);
    }
  }

  lemma {:induction false} OnlyConcat<Ent>(ns: string, part: Part, a: seq<Event<Ent>>, b: seq<Event<Ent>>)
    ensures Only(ns, part, a + b) == Only(ns, part, a) + Only(ns, part, b)
  {
    if b == [] {
      assert a + b == a;
    } else {
      assert (a + b)[..|a + b| - 1] == a + b[..|b| - 1];
      OnlyConcat(ns, part, a, b[..|b| - 1]);
    }
  }

  lemma {:induction false} OnlyAll<Ent>(ns: string, part: Part, other: Part, events: seq<Event<Ent>>)
    requires forall i :: 0 <= i < |events| ==> PartOf(ns, events[i]) == other
    ensures Only(ns, part, events) == if part == other then events else []
  {
    if events != [] {
      OnlyAll(ns, part, other, events[..|events| - 1]);
    }
  }

  lemma SnapshotMine<Ent(!new), ID(!new)>(idOf: Ent -> ID, ns: string, m: map<ID, Ent>, news: seq<Event<Ent>>)
    requires Snapshot(idOf, ns, m, news)
    ensures |news| == |m| && forall i :: 0 <= i < |news| ==> PartOf(ns, news[i]) == Mine
  {
  }

  /** Afterwards the log holds no transaction marker and exactly one own event per live entity. */
  lemma CompactionCount<Ent(!new), ID(!new)>(idOf: Ent -> ID, ns: string, before: seq<Event<Ent>>,
    after: seq<Event<Ent>>)
    requires Compacted(idOf, ns, before, after)
    ensures |Only(ns, Mine, after)| == |View(idOf, ns, before)| && Only(ns, Dropped, after) == []
    ensures Only(ns, Unrelated, after) == Only(ns, Unrelated, before)
      && Only(ns, Sibling, after) == Only(ns, Sibling, before)
  {
    hide Only, ViewFrom, Snapshot;
    var news :| after == Only(ns, Unrelated, before) + Only(ns, Sibling, before) + news
                && Snapshot(idOf, ns, View(idOf, ns, before), news);
    SnapshotMine(idOf, ns, View(idOf, ns, before), news);
    var unrelated, sibling := Only(ns, Unrelated, before), Only(ns, Sibling, before);
    forall part: Part
      ensures Only(ns, part, after) == (if part == Unrelated then unrelated else [])
                + (if part == Sibling then sibling else []) + (if part == Mine then news else [])
    {
      OnlyConcat(ns, part, unrelated + sibling, news);
      OnlyConcat(ns, part, unrelated, sibling);
      OnlyAll(ns, part, Unrelated, unrelated);
      OnlyAll(ns, part, Sibling, sibling);
      OnlyAll(ns, part, Mine, news);
    }
  }

  // ---------------------------------------------------------------- the log and its transactions

  /** The log without its transaction markers. */
  function WithoutMarkers<Ent>(events: seq<Event<Ent>>): seq<Event<Ent>> {
    if events == [] then []
    else
      var last := events[|events| - 1];
      WithoutMarkers(events[..|events| - 1]) + (if last.Marker? then [] else [last])
  }

  lemma {:induction false} OnlyWithoutMarkers<Ent>(ns: string, part: Part, events: seq<Event<Ent>>)
    requires part != Dropped
    ensures Only(ns, part, WithoutMarkers(events)) == Only(ns, part, events)
  {
    if events != [] {
      var rest, last := events[..|events| - 1], events[|events| - 1];
      OnlyWithoutMarkers(ns, part, rest);
      if !last.Marker? {
        OnlyConcat(ns, part, WithoutMarkers(rest), [last]);
        OnlyConcat(ns, part, rest, [last]);
        assert rest + [last] == events;
      } else {
        assert WithoutMarkers(events) == WithoutMarkers(rest) && Only(ns, part, events) == Only(ns, part, rest);
      }
    }
  }

  lemma ViewWithoutMarkers<Ent(!new), ID>(idOf: Ent -> ID, ns: string, events: seq<Event<Ent>>)
    ensures View(idOf, ns, WithoutMarkers(events)) == View(idOf, ns, events)
  {
    ViewOnly(idOf, ns, ns, map[], events);
    ViewOnly(idOf, ns, ns, map[], WithoutMarkers(events));
    OnlyWithoutMarkers(ns, Mine, events);
  }

  lemma {:induction false} NoMarkers<Ent>(events: seq<Event<Ent>>)
    ensures forall i :: 0 <= i < |WithoutMarkers(events)| ==> !WithoutMarkers(events)[i].Marker?
  {
    if events != [] {
      NoMarkers(events[..|events| - 1]);
    }
  }

  /** Entities are kept under their own id. */
  lemma {:induction false} ViewKeyed<Ent(!new), ID(!new)>(idOf: Ent -> ID, ns: string, events: seq<Event<Ent>>)
    ensures forall x :: x in View(idOf, ns, events) ==> idOf(View(idOf, ns, events)[x]) == x
  {
    if events != [] {
      var rest := events[..|events| - 1];
      ViewKeyed(idOf, ns, rest);
      assert View(idOf, ns, events) == Apply(idOf, ns, View(idOf, ns, rest), events[|events| - 1]);
    }
  }

  class Log<Ent(!new)> {
    var events: seq<Event<Ent>>

    constructor ()
      ensures events == []
    {
      events := [];
    }

    method Append(e: Event<Ent>)
      modifies this
      ensures events == old(events) + [e]
    {
      events := events + [e];
    }

    method Compress()
      modifies this
      ensures events == WithoutMarkers(old(events))
    {
      var out: seq<Event<Ent>> := [];
      for i := 0 to |events|
        invariant events == old(events) && out == WithoutMarkers(events[..i])
      {
        assert events[..i + 1][..i] == events[..i];
        if !events[i].Marker? {
          out := out + [events[i]];
        }
      }
      assert events[..|events|] == events;
      events := out;
    }
  }

  /** What a transaction is layered on. */
  datatype Parent<!Ent(!new)> = Base(log: Log<Ent>) | Nested(tx: Tx<Ent>)

  class Tx<Ent(!new)> {
    const parent: Parent<Ent>
    var events: seq<Event<Ent>>
    var committed: bool
    var rolledBack: bool
    ghost const Repr: set<object>

    ghost predicate Valid()
      reads this, Repr
      decreases Repr
      ensures Valid() ==> this in Repr
    {
      this in Repr &&
      match parent
      case Base(log) => log in Repr && Repr == {this, log}
      case Nested(tx) => tx in Repr && tx.Repr <= Repr && this !in tx.Repr && Repr == tx.Repr + {this} && tx.Valid()
    }

    ghost function Below(): object {
      match parent
      case Base(log) => log
      case Nested(tx) => tx
    }

    /** The log at the bottom. */
    ghost function Root(): Log<Ent>
      requires Valid()
      reads this, Repr
      decreases Repr
    {
      match parent
      case Base(log) => log
      case Nested(tx) => tx.Root()
    }

    ghost function ParentEvents(): seq<Event<Ent>>
      requires Valid()
      reads this, Repr
      decreases Repr, 0
    {
      match parent
      case Base(log) => log.events
      case Nested(tx) => tx.All()
    }

    /** What the transaction sees: its parent's events, then its own. */
    ghost function All(): seq<Event<Ent>>
      requires Valid()
      reads this, Repr
      decreases Repr, 1
    {
      ParentEvents() + events
    }

    /** The events on top of the log. */
    ghost function Layered(): seq<Event<Ent>>
      requires Valid()
      reads this, Repr
      decreases Repr
    {
      match parent
      case Base(_) => events
      case Nested(tx) => tx.Layered() + events
    }

    /** The same for the log and every transaction below this one. */
    ghost function Layers(): seq<seq<Event<Ent>>>
      requires Valid()
      reads this, Repr
      decreases Repr
    {
      match parent
      case Base(_) => [[]]
      case Nested(tx) => tx.Layers() + [tx.Layered()]
    }

    lemma AllIsLayered()
      requires Valid()
      ensures All() == Root().events + Layered()
      decreases Repr
    {
      if parent.Nested? {
        parent.tx.AllIsLayered();
      }
    }

    /** Since the old state nothing but the log has changed. */
    twostate predicate Untouched(log: Log<Ent>)
      reads Repr
    {
      forall o :: o in Repr && o != log ==> unchanged(o)
    }

    /** Changes to the log alone change nothing above it. */
    twostate lemma LogOnly(log: Log<Ent>)
      requires old(Valid()) && old(Root()) == log && Untouched(log)
      ensures Valid() && Root() == log && Cancelled() == old(Cancelled())
      ensures Layered() == old(Layered()) && Layers() == old(Layers())
      ensures All() == log.events + Layered() && old(All()) == old(log.events) + Layered()
      decreases Repr
    {
      if parent.Nested? {
        parent.tx.LogOnly(log);
      }
    }

    predicate IsDone()
      reads this
    {
      committed || rolledBack
    }

    /** Its context is cancelled once it, or a transaction below it, is done. */
    predicate Cancelled()
      requires Valid()
      reads this, Repr
      decreases Repr
    {
      IsDone() || match parent
                  case Base(_) => false
                  case Nested(tx) => tx.Cancelled()
    }

    constructor (parent: Parent<Ent>)
      requires parent.Nested? ==> parent.tx.Valid()
      ensures Valid() && fresh(this) && this.parent == parent && !IsDone() && events == [Marker("BeginTx")]
    {
      this.parent := parent;
      events, committed, rolledBack := [Marker("BeginTx")], false, false;
      Repr := {this} + (match parent
        case Base(log) => {log}
        case Nested(tx) => tx.Repr);
    }

    method Append(e: Event<Ent>)
      requires Valid()
      modifies this`events
      ensures Valid() && events == old(events) + [e] && ParentEvents() == old(ParentEvents())
      ensures All() == old(All()) + [e] && Layers() == old(Layers())
      ensures Root() == old(Root()) && Cancelled() == old(Cancelled())
    {
      events := events + [e];
    }

    /** What the transaction is layered on has not moved, apart from events appended to the parent itself. */
    twostate predicate BelowUnmoved()
      requires old(Valid()) && Valid()
      reads this, Repr
    {
      && Root() == old(Root())
      && (parent.Nested? ==>
            && parent.tx.Cancelled() == old(parent.tx.Cancelled())
            && parent.tx.ParentEvents() == old(parent.tx.ParentEvents())
            && parent.tx.Layers() == old(parent.tx.Layers()))
    }

    method AppendBelow(e: Event<Ent>)
      requires Valid()
      modifies Below()
      ensures Valid() && BelowUnmoved() && ParentEvents() == old(ParentEvents()) + [e]
      ensures events == old(events) && IsDone() == old(IsDone())
    {
      match parent
      case Base(log) => log.Append(e);
      case Nested(tx) =>
        tx.Append(e);
    }

    /** The parent gets, in order, everything this transaction holds. */
    method Commit()
      requires Valid() && !IsDone()
      modifies this`events, this`committed, Below()
      ensures Valid() && IsDone() && BelowUnmoved()
      ensures ParentEvents() == old(All()) + [Marker("CommitTx")]
    {
      Append(Marker("CommitTx"));
      committed := true;
      for i := 0 to |events|
        invariant Valid() && IsDone() && BelowUnmoved() && events == old(events) + [Marker("CommitTx")]
        invariant ParentEvents() == old(ParentEvents()) + events[..i]
      {
        AppendBelow(events[i]);
        assert events[..i + 1] == events[..i] + [events[i]];
      }
      assert events[..|events|] == events;
    }

    /** The parent is left as it was. */
    method Rollback()
      requires Valid() && !IsDone()
      modifies this`events, this`rolledBack
      ensures Valid() && IsDone() && ParentEvents() == old(ParentEvents())
        && events == old(events) + [Marker("RollbackTx")]
    {
      Append(Marker("RollbackTx"));
      rolledBack := true;
    }
  }

  // ---------------------------------------------------------------- the repository

  datatype Ctx<!Ent(!new)> = NoTx | InTx(tx: Tx<Ent>)

  datatype Result = Ok | Cancelled | TxDone | MissingTx | AlreadyExists | NotFound

  /** What a user of the repository does, in the log or in a transaction; `Compact` may come from anywhere. */
  datatype Op<Ent, ID> =
    | DoCreate(ent: Ent)
    | DoUpdate(ent: Ent)
    | DoSave(ent: Ent)
    | DoDelete(id: ID)
    | DoDeleteAll(zero: Ent)
    | Compact
    | Sub(ops: seq<Op<Ent, ID>>, commit: bool)

  /** The same on a plain map: illegal operations do nothing, rolled back transactions neither. */
  function Effects<Ent, ID(==)>(idOf: Ent -> ID, ops: seq<Op<Ent, ID>>, m: map<ID, Ent>): map<ID, Ent>
    decreases ops
  {
    if ops == [] then m
    else Effect(idOf, ops[|ops| - 1], Effects(idOf, ops[..|ops| - 1], m))
  }

  function Effect<Ent, ID(==)>(idOf: Ent -> ID, op: Op<Ent, ID>, m: map<ID, Ent>): map<ID, Ent>
    decreases op
  {
    match op
    case DoCreate(ent) => if idOf(ent) in m then m else m[idOf(ent) := ent]
    case DoUpdate(ent) => if idOf(ent) in m then m[idOf(ent) := ent] else m
    case DoSave(ent) => m[idOf(ent) := ent]
    case DoDelete(id) => m - {id}
    case DoDeleteAll(_) => map[]
    case Compact => m
    case Sub(ops, commit) => if commit then Effects(idOf, ops, m) else m
  }

  class Repository<Ent(!new), ID(==, !new)> {
    const log: Log<Ent>
    const ns: string
    const idOf: Ent -> ID
    /** An entity that has nothing but an id, as a deletion event carries it. */
    const blank: ID -> Ent
    const compressEventLog: bool

    constructor (log: Log<Ent>, ns: string, idOf: Ent -> ID, blank: ID -> Ent, compressEventLog: bool)
      requires forall id :: idOf(blank(id)) == id
      ensures Valid() && this.log == log && this.ns == ns && this.idOf == idOf
        && this.compressEventLog == compressEventLog
    {
      this.log, this.ns, this.idOf, this.blank, this.compressEventLog := log, ns, idOf, blank, compressEventLog;
    }

    ghost predicate Valid() {
      forall id :: idOf(blank(id)) == id
    }

    /** The context belongs to this repository's log. */
    ghost predicate Belongs(ctx: Ctx<Ent>)
      reads if ctx.InTx? then {ctx.tx} + ctx.tx.Repr else {}
    {
      ctx.InTx? ==> ctx.tx.Valid() && ctx.tx.Root() == log
    }

    predicate Live(ctx: Ctx<Ent>)
      requires Belongs(ctx)
      reads if ctx.InTx? then {ctx.tx} + ctx.tx.Repr else {}
    {
      ctx.InTx? ==> !ctx.tx.Cancelled()
    }

    ghost function Seen(ctx: Ctx<Ent>): seq<Event<Ent>>
      requires Belongs(ctx)
      reads log, if ctx.InTx? then {ctx.tx} + ctx.tx.Repr else {}
    {
      if ctx.InTx? then ctx.tx.All() else log.events
    }

    /** The entities of namespace `n` in the context. */
    ghost function Entities(ctx: Ctx<Ent>, n: string): map<ID, Ent>
      requires Belongs(ctx)
      reads log, if ctx.InTx? then {ctx.tx} + ctx.tx.Repr else {}
    {
      View(idOf, n, Seen(ctx))
    }

    /** The entities of namespace `n` in the log and in every transaction below the given one. */
    ghost function Beneath(tx: Tx<Ent>, n: string): seq<map<ID, Ent>>
      requires tx.Valid()
      reads log, tx, tx.Repr
    {
      Views(idOf, n, log.events, tx.Layers())
    }

    ghost function BeneathCtx(ctx: Ctx<Ent>, n: string): seq<map<ID, Ent>>
      requires Belongs(ctx)
      reads log, if ctx.InTx? then {ctx.tx} + ctx.tx.Repr else {}
    {
      if ctx.InTx? then Beneath(ctx.tx, n) else []
    }

    method ViewOf(events: seq<Event<Ent>>) returns (m: map<ID, Ent>)
      ensures m == View(idOf, ns, events)
    {
      m := map[];
      for i := 0 to |events|
        invariant m == View(idOf, ns, events[..i])
      {
        assert events[..i + 1][..i] == events[..i];
        var event := events[i];
        if event.Own? && event.e.ns == ns {
          match event.e.kind {
            case Create => m := m[idOf(event.e.value) := event.e.value];
            case Update => m := m[idOf(event.e.value) := event.e.value];
            case DeleteByID => m := m - {idOf(event.e.value)};
            case DeleteAll => m := map[];
            case Save =>
          }
        }
      }
      assert events[..|events|] == events;
    }

    method EventsInContext(ctx: Ctx<Ent>) returns (events: seq<Event<Ent>>)
      requires Belongs(ctx)
      ensures events == Seen(ctx)
      decreases if ctx.InTx? then ctx.tx.Repr else {}
    {
      match ctx
      case NoTx => events := log.events;
      case InTx(tx) =>
        match tx.parent {
          case Base(l) => events := l.events;
          case Nested(p) =>
            events := EventsInContext(InTx(p));
            assert Seen(InTx(p)) == p.All();
        }
        assert events == tx.ParentEvents();
        events := events + tx.events;
    }

    /** One creation event per entity, in any order. */
    method Creations(m: map<ID, Ent>) returns (news: seq<Event<Ent>>)
      requires forall x :: x in m ==> idOf(m[x]) == x
      ensures Snapshot(idOf, ns, m, news)
    {
      news := [];
      var rest := m.Keys;
      while rest != {}
        invariant rest <= m.Keys && |news| + |rest| == |m|
        invariant CreatesFrom(idOf, ns, m, news)
        invariant forall x :: x in m && x !in rest ==> Created(idOf, ns, news, x)
      {
        var id :| id in rest;
        ghost var before := news;
        news := news + [Own(RepoEvent(ns, Kind.Create, m[id]))];
        forall x | x in m && x !in rest - {id} ensures Created(idOf, ns, news, x) {
          if x == id {
            assert Creates(idOf, ns, news[|before|], x);
          } else {
            var i :| 0 <= i < |before| && Creates(idOf, ns, before[i], x);
            assert news[i] == before[i];
          }
        }
        rest := rest - {id};
      }
    }

    /** Replaces the log by the rest of it and a creation event for each live entity. */
    method Compress()
      modifies log
      ensures Compacted(idOf, ns, old(log.events), log.events)
    {
      hide Only, WithoutMarkers, ViewFrom, Snapshot;
      ghost var before := log.events;
      log.Compress();
      NoMarkers(before);
      var unrelated, sibling, own := SortOut(log.events);
      OnlyWithoutMarkers(ns, Unrelated, before);
      OnlyWithoutMarkers(ns, Sibling, before);
      OnlyWithoutMarkers(ns, Mine, before);
      ViewOnly(idOf, ns, ns, map[], before);
      var live := ViewOf(own);
      ViewKeyed(idOf, ns, own);
      var news := Creations(live);
      log.events := unrelated + sibling + news;
    }

    /** The parts of a log without markers. */
    method SortOut(es: seq<Event<Ent>>)
      returns (unrelated: seq<Event<Ent>>, sibling: seq<Event<Ent>>, own: seq<Event<Ent>>)
      requires forall i :: 0 <= i < |es| ==> !es[i].Marker?
      ensures unrelated == Only(ns, Unrelated, es) && sibling == Only(ns, Sibling, es) && own == Only(ns, Mine, es)
    {
      unrelated, sibling, own := [], [], [];
      for i := 0 to |es|
        invariant unrelated == Only(ns, Unrelated, es[..i])
        invariant sibling == Only(ns, Sibling, es[..i])
        invariant own == Only(ns, Mine, es[..i])
      {
        assert es[..i + 1][..i] == es[..i];
        if !es[i].Own? {
          unrelated := unrelated + [es[i]];
        } else if es[i].e.ns == ns {
          own := own + [es[i]];
        } else {
          sibling := sibling + [es[i]];
        }
      }
      assert es[..|es|] == es;
    }

    /** Compaction underneath a transaction shows neither in it nor in any transaction below it. */
    twostate lemma CompactedUnder(tx: Tx<Ent>)
      requires old(tx.Valid()) && old(tx.Root()) == log
      requires tx.Untouched(log)
      requires Compacted(idOf, ns, old(log.events), log.events)
      ensures tx.Valid() && tx.Root() == log && tx.Cancelled() == old(tx.Cancelled())
      ensures forall n :: View(idOf, n, tx.All()) == View(idOf, n, old(tx.All()))
      ensures forall n :: Beneath(tx, n) == old(Beneath(tx, n))
    {
      tx.LogOnly(log);
      var before, layered, layers := old(log.events), tx.Layered(), tx.Layers();
      forall n
        ensures View(idOf, n, log.events + layered) == View(idOf, n, before + layered)
        ensures Views(idOf, n, log.events, layers) == Views(idOf, n, before, layers)
      {
        CompactionPreserves(idOf, ns, before, log.events, n, layered);
        CompactionViews(idOf, ns, before, log.events, n, layers);
      }
    }

    // -------------------------------------------------------------- operations

    /** What a write may change. */
    ghost function Frame(ctx: Ctx<Ent>): set<object> {
      {log} + (if ctx.InTx? then {ctx.tx} else {})
    }

    /** Whatever the context was layered on shows what it showed. */
    twostate predicate BelowSame(ctx: Ctx<Ent>)
      requires old(Belongs(ctx)) && Belongs(ctx)
      reads log, if ctx.InTx? then {ctx.tx} + ctx.tx.Repr else {}
    {
      forall n :: BeneathCtx(ctx, n) == old(BeneathCtx(ctx, n))
    }

    /** Appends to the innermost open transaction, or to the log; compacts the log if so configured. */
    method Append(ctx: Ctx<Ent>, e: RepoEvent<Ent>) returns (r: Result)
      requires Belongs(ctx)
      modifies Frame(ctx)
      ensures Belongs(ctx) && Live(ctx) == old(Live(ctx)) && BelowSame(ctx)
      ensures r == if old(Live(ctx)) then Ok else Cancelled
      ensures r != Ok ==> forall n :: Entities(ctx, n) == old(Entities(ctx, n))
      ensures r == Ok ==> forall n :: Entities(ctx, n) == Apply(idOf, n, old(Entities(ctx, n)), Own(e))
      ensures ctx.InTx? ==> ctx.tx.events == old(ctx.tx.events) + (if r == Ok then [Own(e)] else [])
      ensures var logged := old(log.events) + (if r == Ok && ctx.NoTx? then [Own(e)] else []);
        if r == Ok && compressEventLog then Compacted(idOf, ns, logged, log.events) else log.events == logged
    {
      hide Compacted, Entities, BeneathCtx, Belongs, Live;
      if !Live(ctx) {
        return Cancelled;
      }
      AppendTo(ctx, e);
      if compressEventLog {
        CompressIn(ctx);
      }
      r := Ok;
    }

    method AppendTo(ctx: Ctx<Ent>, e: RepoEvent<Ent>)
      requires Belongs(ctx) && Live(ctx)
      modifies Frame(ctx)
      ensures Belongs(ctx) && Live(ctx) && BelowSame(ctx)
      ensures forall n :: Entities(ctx, n) == Apply(idOf, n, old(Entities(ctx, n)), Own(e))
      ensures ctx.InTx? ==> ctx.tx.events == old(ctx.tx.events) + [Own(e)]
      ensures log.events == old(log.events) + (if ctx.NoTx? then [Own(e)] else [])
    {
      match ctx {
        case NoTx => log.Append(Own(e));
        case InTx(tx) =>
          tx.Append(Own(e));
      }
      forall n {
        ViewAppend(idOf, n, old(Seen(ctx)), Own(e));
      }
      assert Seen(ctx) == old(Seen(ctx)) + [Own(e)];
    }

    /** Compaction, seen from a context. */
    method CompressIn(ctx: Ctx<Ent>)
      requires Belongs(ctx)
      modifies log
      ensures Belongs(ctx) && Live(ctx) == old(Live(ctx)) && BelowSame(ctx)
      ensures forall n :: Entities(ctx, n) == old(Entities(ctx, n))
      ensures Compacted(idOf, ns, old(log.events), log.events)
    {
      hide Compacted;
      Compress();
      if ctx.InTx? {
        CompactedUnder(ctx.tx);
      } else {
        forall n ensures View(idOf, n, log.events) == View(idOf, n, old(log.events)) {
          CompactionPreserves(idOf, ns, old(log.events), log.events, n, []);
          assert log.events + [] == log.events && old(log.events) + [] == old(log.events);
        }
      }
    }

    method FindByID(ctx: Ctx<Ent>, id: ID) returns (r: Result, ent: Option<Ent>)
      requires Belongs(ctx)
      ensures r == if Live(ctx) then Ok else Cancelled
      ensures r == Ok ==> ent == if id in Entities(ctx, ns) then Some(Entities(ctx, ns)[id]) else None
    {
      if !Live(ctx) {
        return Cancelled, None;
      }
      var events := EventsInContext(ctx);
      var view := ViewOf(events);
      r, ent := Ok, if id in view then Some(view[id]) else None;
    }

    method Create(ctx: Ctx<Ent>, ent: Ent) returns (r: Result)
      requires Belongs(ctx)
      modifies Frame(ctx)
      ensures Belongs(ctx) && Live(ctx) == old(Live(ctx)) && BelowSame(ctx)
      ensures r == if !old(Live(ctx)) then Cancelled
                   else if idOf(ent) in old(Entities(ctx, ns)) then AlreadyExists
                   else Ok
      ensures Entities(ctx, ns) == if r == Ok then old(Entities(ctx, ns))[idOf(ent) := ent] else old(Entities(ctx, ns))
      ensures forall n :: n != ns ==> Entities(ctx, n) == old(Entities(ctx, n))
    {
      hide Entities, BeneathCtx, Belongs, Live;
      var found;
      r, found := FindByID(ctx, idOf(ent));
      if r != Ok {
        return;
      }
      if found.Some? {
        return AlreadyExists;
      }
      r := Append(ctx, RepoEvent(ns, Kind.Create, ent));
    }

    method Update(ctx: Ctx<Ent>, ent: Ent) returns (r: Result)
      requires Belongs(ctx)
      modifies Frame(ctx)
      ensures Belongs(ctx) && Live(ctx) == old(Live(ctx)) && BelowSame(ctx)
      ensures r == if !old(Live(ctx)) then Cancelled else if idOf(ent) !in old(Entities(ctx, ns)) then NotFound else Ok
      ensures Entities(ctx, ns) == if r == Ok then old(Entities(ctx, ns))[idOf(ent) := ent] else old(Entities(ctx, ns))
      ensures forall n :: n != ns ==> Entities(ctx, n) == old(Entities(ctx, n))
    {
      hide Entities, BeneathCtx, Belongs, Live;
      var found;
      r, found := FindByID(ctx, idOf(ent));
      if r != Ok {
        return;
      }
      if found.None? {
        return NotFound;
      }
      r := Append(ctx, RepoEvent(ns, Kind.Update, ent));
    }

    method DeleteByID(ctx: Ctx<Ent>, id: ID) returns (r: Result)
      requires Belongs(ctx) && Valid()
      modifies Frame(ctx)
      ensures Belongs(ctx) && Live(ctx) == old(Live(ctx)) && BelowSame(ctx)
      ensures r == if !old(Live(ctx)) then Cancelled else if id !in old(Entities(ctx, ns)) then NotFound else Ok
      ensures Entities(ctx, ns) == if r == Ok then old(Entities(ctx, ns)) - {id} else old(Entities(ctx, ns))
      ensures forall n :: n != ns ==> Entities(ctx, n) == old(Entities(ctx, n))
    {
      hide Entities, BeneathCtx, Belongs, Live;
      var found;
      r, found := FindByID(ctx, id);
      if r != Ok {
        return;
      }
      if found.None? {
        return NotFound;
      }
      r := Append(ctx, RepoEvent(ns, Kind.DeleteByID, blank(id)));
    }

    method DeleteAll(ctx: Ctx<Ent>, zero: Ent) returns (r: Result)
      requires Belongs(ctx)
      modifies Frame(ctx)
      ensures Belongs(ctx) && Live(ctx) == old(Live(ctx)) && BelowSame(ctx)
      ensures r == if old(Live(ctx)) then Ok else Cancelled
      ensures Entities(ctx, ns) == if r == Ok then map[] else old(Entities(ctx, ns))
      ensures forall n :: n != ns ==> Entities(ctx, n) == old(Entities(ctx, n))
    {
      hide Entities, BeneathCtx, Belongs, Live;
      r := Append(ctx, RepoEvent(ns, Kind.DeleteAll, zero));
    }

    // -------------------------------------------------------------- transactions

    /** The context a transaction was begun in. */
    function Outer(tx: Tx<Ent>): Ctx<Ent> {
      match tx.parent
      case Base(_) => NoTx
      case Nested(p) => InTx(p)
    }

    method BeginTx(ctx: Ctx<Ent>) returns (r: Result, tx: Option<Tx<Ent>>)
      requires Belongs(ctx)
      ensures r == if Live(ctx) then Ok else if ctx.tx.IsDone() then TxDone else Cancelled
      ensures r == Ok <==> tx.Some?
      ensures tx.Some? ==> fresh(tx.value) && Belongs(InTx(tx.value)) && Live(InTx(tx.value)) && Outer(tx.value) == ctx
      ensures tx.Some? ==> tx.value.Repr == {tx.value} + (if ctx.InTx? then ctx.tx.Repr else {log})
      ensures tx.Some? ==> forall n :: Entities(InTx(tx.value), n) == Entities(ctx, n)
    {
      if ctx.InTx? && ctx.tx.IsDone() {
        return TxDone, None;
      }
      if !Live(ctx) {
        return Cancelled, None;
      }
      var t := new Tx(if ctx.InTx? then Nested(ctx.tx) else Base(log));
      assert t.All() == Seen(ctx) + [Marker("BeginTx")];
      forall n ensures Entities(InTx(t), n) == Entities(ctx, n) {
        ViewAppend(idOf, n, Seen(ctx), Marker("BeginTx"));
      }
      r, tx := Ok, Some(t);
    }

    /** Commit: what the outer context sees is what the transaction saw. */
    method CommitTx(tx: Tx<Ent>) returns (r: Result)
      requires Belongs(InTx(tx))
      modifies tx, tx.Below()
      ensures Belongs(InTx(tx)) && Belongs(Outer(tx))
      ensures r == if old(tx.IsDone()) then TxDone else if old(tx.Cancelled()) then Cancelled else Ok
      ensures r == Ok ==> tx.IsDone() && Live(Outer(tx)) && BelowSame(Outer(tx))
      ensures r == Ok ==> forall n :: Entities(Outer(tx), n) == old(Entities(InTx(tx), n))
      ensures r != Ok ==> forall n :: Entities(InTx(tx), n) == old(Entities(InTx(tx), n))
    {
      if tx.IsDone() {
        return TxDone;
      }
      if tx.Cancelled() {
        return Cancelled;
      }
      tx.Commit();
      forall n ensures Entities(Outer(tx), n) == old(Entities(InTx(tx), n)) {
        ViewAppend(idOf, n, old(tx.All()), Marker("CommitTx"));
      }
      r := Ok;
    }

    /** Rollback: the outer context, still usable, sees nothing of the transaction. */
    method RollbackTx(tx: Tx<Ent>) returns (r: Result)
      requires Belongs(InTx(tx))
      modifies tx
      ensures Belongs(InTx(tx)) && Belongs(Outer(tx))
      ensures r == if old(tx.IsDone()) then TxDone else if old(tx.Cancelled()) then Cancelled else Ok
      ensures r == Ok ==> tx.IsDone() && Live(Outer(tx)) && BelowSame(Outer(tx))
      ensures forall n :: Entities(Outer(tx), n) == old(Entities(Outer(tx), n))
    {
      if tx.IsDone() {
        return TxDone;
      }
      if tx.Cancelled() {
        return Cancelled;
      }
      tx.Rollback();
      r := Ok;
    }

    /** The views below a transaction are the outer context's own and those below it. */
    lemma BeneathParts(tx: Tx<Ent>)
      requires Belongs(InTx(tx))
      ensures Belongs(Outer(tx))
      ensures forall n :: |Beneath(tx, n)| > 0 && Beneath(tx, n)[|Beneath(tx, n)| - 1] == Entities(Outer(tx), n)
      ensures forall n :: Beneath(tx, n)[..|Beneath(tx, n)| - 1] == BeneathCtx(Outer(tx), n)
    {
      match tx.parent
      case Base(l) =>
        assert l.events + [] == l.events && tx.Layers() == [[]];
        forall n ensures Beneath(tx, n) == [View(idOf, n, l.events)] {
          assert tx.Layers()[..0] == [] && Views(idOf, n, l.events, []) == [];
        }
      case Nested(p) =>
        p.AllIsLayered();
    }

    /** Everything a context can reach. */
    ghost function Reach(ctx: Ctx<Ent>): set<object> {
      {log} + (if ctx.InTx? then ctx.tx.Repr else {})
    }

    method CreateOrUpdate(ctx: Ctx<Ent>, ent: Ent)
      requires Belongs(ctx) && Live(ctx)
      modifies Frame(ctx)
      ensures Belongs(ctx) && Live(ctx) && BelowSame(ctx)
      ensures Entities(ctx, ns) == old(Entities(ctx, ns))[idOf(ent) := ent]
      ensures forall n :: n != ns ==> Entities(ctx, n) == old(Entities(ctx, n))
    {
      hide Entities, BeneathCtx, Belongs, Live;
      var _, found := FindByID(ctx, idOf(ent));
      if found.Some? {
        var _ := Update(ctx, ent);
      } else {
        var _ := Create(ctx, ent);
      }
    }

    /** Create or update, in a transaction of its own. */
    method Save(ctx: Ctx<Ent>, ent: Ent) returns (r: Result)
      requires Belongs(ctx)
      modifies Reach(ctx)
      ensures Belongs(ctx) && Live(ctx) == old(Live(ctx)) && BelowSame(ctx)
      ensures r == Ok <==> old(Live(ctx))
      ensures Entities(ctx, ns) == if r == Ok then old(Entities(ctx, ns))[idOf(ent) := ent] else old(Entities(ctx, ns))
      ensures forall n :: n != ns ==> Entities(ctx, n) == old(Entities(ctx, n))
    {
      hide Entities, Beneath;
      var begun;
      r, begun := BeginTx(ctx);
      if r != Ok {
        return;
      }
      var tx := begun.value;
      BeneathParts(tx);
      label Begun:
      CreateOrUpdate(InTx(tx), ent);
      BeneathParts(tx);
      forall n ensures BeneathCtx(ctx, n) == old(BeneathCtx(ctx, n)) {
        assert BeneathCtx(InTx(tx), n) == old@Begun(BeneathCtx(InTx(tx), n));
        assert Beneath(tx, n) == old@Begun(Beneath(tx, n));
      }
      r := CommitTx(tx);
    }

    /**
     Whatever is done, in nested transactions that commit or roll back, with compactions in
     between, the context ends up showing what a plain map would hold, the contexts it is
     layered on show what they showed, and it stays usable.
     */
    method Perform(ctx: Ctx<Ent>, ops: seq<Op<Ent, ID>>)
      requires Belongs(ctx) && Live(ctx) && Valid()
      modifies Reach(ctx)
      ensures Belongs(ctx) && Live(ctx) && BelowSame(ctx)
      ensures Entities(ctx, ns) == Effects(idOf, ops, old(Entities(ctx, ns)))
      ensures forall n :: n != ns ==> Entities(ctx, n) == old(Entities(ctx, n))
      decreases ops, 0
    {
      hide Effect, Entities, BeneathCtx, Belongs, Live;
      for i := 0 to |ops|
        invariant Belongs(ctx) && Live(ctx) && BelowSame(ctx)
        invariant Entities(ctx, ns) == Effects(idOf, ops[..i], old(Entities(ctx, ns)))
        invariant forall n :: n != ns ==> Entities(ctx, n) == old(Entities(ctx, n))
      {
        assert ops[..i + 1][..i] == ops[..i];
        PerformOp(ctx, ops[i]);
      }
      assert ops[..|ops|] == ops;
    }

    method PerformOp(ctx: Ctx<Ent>, op: Op<Ent, ID>)
      requires Belongs(ctx) && Live(ctx) && Valid()
      modifies Reach(ctx)
      ensures Belongs(ctx) && Live(ctx) && BelowSame(ctx)
      ensures Entities(ctx, ns) == Effect(idOf, op, old(Entities(ctx, ns)))
      ensures forall n :: n != ns ==> Entities(ctx, n) == old(Entities(ctx, n))
      ensures var before, after := old(Entities(ctx, ns)), Entities(ctx, ns);
        && (op.DoCreate? ==> after == if idOf(op.ent) in before then before else before[idOf(op.ent) := op.ent])
        && (op.DoUpdate? ==> after == if idOf(op.ent) in before then before[idOf(op.ent) := op.ent] else before)
        && (op.DoSave? ==> after == before[idOf(op.ent) := op.ent])
        && (op.DoDelete? ==> after == before - {op.id})
        && (op.DoDeleteAll? ==> after == map[])
        && (op.Compact? || (op.Sub? && !op.commit) ==> after == before)
        && (op.Sub? && op.commit ==> after == Effects(idOf, op.ops, before))
      ensures op.Compact? ==> Compacted(idOf, ns, old(log.events), log.events)
      decreases op
    {
      hide Entities, BeneathCtx, Live, Effects, Compacted;
      match op
      case DoCreate(ent) => var _ := Create(ctx, ent);
      case DoUpdate(ent) => var _ := Update(ctx, ent);
      case DoSave(ent) => var _ := Save(ctx, ent);
      case DoDelete(id) => var _ := DeleteByID(ctx, id);
      case DoDeleteAll(zero) => var _ := DeleteAll(ctx, zero);
      case Compact => CompressIn(ctx);
      case Sub(ops, commit) => PerformSub(ctx, ops, commit);
    }

    method PerformSub(ctx: Ctx<Ent>, ops: seq<Op<Ent, ID>>, commit: bool)
      requires Belongs(ctx) && Live(ctx) && Valid()
      modifies Reach(ctx)
      ensures Belongs(ctx) && Live(ctx) && BelowSame(ctx)
      ensures Entities(ctx, ns) == if commit then Effects(idOf, ops, old(Entities(ctx, ns))) else old(Entities(ctx, ns))
      ensures forall n :: n != ns ==> Entities(ctx, n) == old(Entities(ctx, n))
      decreases ops, 1
    {
      hide Effects, Entities, Beneath;
      var _, begun := BeginTx(ctx);
      var tx := begun.value;
      BeneathParts(tx);
      label Begun:
      Perform(InTx(tx), ops);
      BeneathParts(tx);
      forall n ensures BeneathCtx(ctx, n) == old(BeneathCtx(ctx, n)) && Entities(ctx, n) == old(Entities(ctx, n)) {
        assert BeneathCtx(InTx(tx), n) == old@Begun(BeneathCtx(InTx(tx), n));
        assert Beneath(tx, n) == old@Begun(Beneath(tx, n));
      }
      if commit {
        var _ := CommitTx(tx);
      } else {
        var _ := RollbackTx(tx);
      }
    }
  }
}
