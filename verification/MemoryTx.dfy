/**
 Nested transactions of the in-memory repository (`adapter/memory/Repository.go`).

 A transaction is a layer of changes, values and tombstones per namespace, over the memory
 or over another transaction.  What it stands for is a complete table per namespace: `View`.
 A chain of open transactions stands for a stack of complete tables: `Stack`.
 */
module MemoryTransactions {
  import opened Common

  type Table<V> = map<string, V>

  datatype Changes<V> = Changes(values: Table<V>, deleted: set<string>)

  function Find<V>(t: Table<V>, key: string): Option<V> {
    if key in t then Some(t[key]) else None
  }

  /** What a layer of changes makes of the table below: tombstones first, then values. */
  function Overlay<V>(below: Table<V>, c: Changes<V>): Table<V> {
    (below - c.deleted) + c.values
  }

  /** A missing table reads as an empty one. */
  function At<V>(tables: map<string, Table<V>>, ns: string): Table<V> {
    if ns in tables then tables[ns] else map[]
  }

  function ChangesAt<V>(changes: map<string, Changes<V>>, ns: string): Changes<V> {
    if ns in changes then changes[ns] else Changes(map[], {})
  }

  lemma OverlayNone<V>(below: Table<V>)
    ensures Overlay(below, Changes(map[], {})) == below
  {
  }

  lemma OverlaySet<V>(below: Table<V>, c: Changes<V>, key: string, value: V)
    ensures Overlay(below, c.(values := c.values[key := value])) == Overlay(below, c)[key := value]
  {
  }

  lemma OverlayDel<V>(below: Table<V>, c: Changes<V>, key: string)
    ensures Overlay(below, Changes(c.values - {key}, c.deleted + {key})) == Overlay(below, c) - {key}
  {
  }

  lemma ChangesMoved<V>(changes: map<string, Changes<V>>, ns: string, c: Changes<V>)
    ensures ChangesAt(changes[ns := c], ns) == c
    ensures forall n :: n != ns ==> ChangesAt(changes[ns := c], n) == ChangesAt(changes, n)
  {
  }

  class Memory<V> {
    var tables: map<string, Table<V>>

    constructor ()
      ensures tables == map[]
    {
      tables := map[];
    }

    ghost function View(ns: string): Table<V>
      reads this
    {
      At(tables, ns)
    }

    method Lookup(ns: string, key: string) returns (r: Option<V>)
      ensures r == Find(View(ns), key)
    {
      r := Find(At(tables, ns), key);
    }

    method All(ns: string) returns (r: Table<V>)
      ensures r == View(ns)
    {
      r := At(tables, ns);
    }

    method Set(ns: string, key: string, value: V)
      modifies this
      ensures View(ns) == old(View(ns))[key := value]
      ensures forall n :: n != ns ==> View(n) == old(View(n))
    {
      tables := tables[ns := At(tables, ns)[key := value]];
    }

    method Del(ns: string, key: string) returns (found: bool)
      modifies this
      ensures found == (key in old(View(ns))) && View(ns) == old(View(ns)) - {key}
      ensures forall n :: n != ns ==> View(n) == old(View(n))
      ensures !found ==> tables == old(tables)
    {
      found := key in At(tables, ns);
      if found {
        tables := tables[ns := At(tables, ns) - {key}];
      }
    }

    method PurgeNamespace(ns: string)
      modifies this
      ensures View(ns) == map[]
      ensures forall n :: n != ns ==> View(n) == old(View(n))
    {
      tables := tables[ns := map[]];
    }
  }

  /** What a transaction is layered on. */
  datatype Super<!V> = Base(m: Memory<V>) | Nested(tx: Tx<V>)

  class Tx<V> {
    const super: Super<V>
    var done: bool
    var changes: map<string, Changes<V>>
    ghost const Repr: set<object>

    ghost predicate Valid()
      reads this, Repr
      decreases Repr
      ensures Valid() ==> this in Repr
    {
      this in Repr &&
      match super
      case Base(m) => m in Repr && Repr == {this, m}
      case Nested(tx) => tx in Repr && tx.Repr <= Repr && this !in tx.Repr && Repr == tx.Repr + {this} && tx.Valid()
    }

    /** The object below. */
    ghost function Below(): object {
      match super
      case Base(m) => m
      case Nested(tx) => tx
    }

    ghost function SuperView(ns: string): Table<V>
      requires Valid()
      reads Repr
      decreases Repr, 0
    {
      match super
      case Base(m) => m.View(ns)
      case Nested(tx) => tx.View(ns)
    }

    /** The complete table the transaction shows. */
    ghost function View(ns: string): Table<V>
      requires Valid()
      reads Repr
      decreases Repr, 1
    {
      Overlay(SuperView(ns), ChangesAt(changes, ns))
    }

    /** The tables of the base memory and of every transaction up to this one. */
    ghost function Stack(ns: string): (s: seq<Table<V>>)
      requires Valid()
      reads Repr
      decreases Repr, 1
      ensures |s| >= 2 && s[|s| - 1] == View(ns) && s[|s| - 2] == SuperView(ns)
    {
      SuperStack(ns) + [View(ns)]
    }

    /** The tables below this transaction. */
    ghost function SuperStack(ns: string): (s: seq<Table<V>>)
      requires Valid()
      reads Repr
      decreases Repr, 0
      ensures |s| >= 1 && s[|s| - 1] == SuperView(ns)
    {
      match super
      case Base(m) => [m.View(ns)]
      case Nested(tx) => tx.Stack(ns)
    }

    lemma StackParts()
      requires Valid()
      ensures forall n :: SuperStack(n) == Stack(n)[..|Stack(n)| - 1] && View(n) == Stack(n)[|Stack(n)| - 1]
    {
    }

    lemma BaseStack(m: Memory<V>)
      requires Valid() && super == Base(m)
      ensures forall n :: SuperStack(n) == [m.View(n)] && SuperStack(n)[0] == m.View(n)
    {
    }

    /** The transaction's context is cancelled as soon as it or any transaction below it is done. */
    predicate Cancelled()
      requires Valid()
      reads Repr
      decreases Repr
    {
      done || match super
              case Base(_) => false
              case Nested(tx) => tx.Cancelled()
    }

    constructor (super: Super<V>)
      requires super.Nested? ==> super.tx.Valid()
      ensures Valid() && fresh(this) && this.super == super && !done
      ensures forall ns :: View(ns) == SuperView(ns)
    {
      this.super := super;
      done := false;
      changes := map[];
      Repr := {this} + (match super
        case Base(m) => {m}
        case Nested(tx) => tx.Repr);
    }

    method All(ns: string) returns (r: Table<V>)
      requires Valid()
      ensures r == View(ns)
      decreases Repr
    {
      var below;
      match super {
        case Base(m) => below := m.All(ns);
        case Nested(tx) => below := tx.All(ns);
      }
      var c := ChangesAt(changes, ns);
      r := below - c.deleted + c.values;
    }

    method Lookup(ns: string, key: string) returns (r: Option<V>)
      requires Valid()
      ensures r == Find(View(ns), key)
      decreases Repr
    {
      var c := ChangesAt(changes, ns);
      if key in c.values {
        return Some(c.values[key]);
      }
      if key in c.deleted {
        return None;
      }
      match super {
        case Base(m) => r := m.Lookup(ns, key);
        case Nested(tx) => r := tx.Lookup(ns, key);
      }
    }

    method Set(ns: string, key: string, value: V)
      requires Valid()
      modifies this
      ensures Valid() && done == old(done)
      ensures forall n :: SuperStack(n) == old(SuperStack(n))
      ensures View(ns) == old(View(ns))[key := value]
      ensures forall n :: n != ns ==> View(n) == old(View(n))
    {
      hide Overlay, ChangesAt;
      var c := ChangesAt(changes, ns);
      OverlaySet(SuperView(ns), c, key, value);
      ChangesMoved(changes, ns, c.(values := c.values[key := value]));
      changes := changes[ns := c.(values := c.values[key := value])];
    }

    method Del(ns: string, key: string) returns (found: bool)
      requires Valid()
      modifies this
      ensures Valid() && done == old(done)
      ensures forall n :: SuperStack(n) == old(SuperStack(n))
      ensures found == (key in old(View(ns))) && View(ns) == old(View(ns)) - {key}
      ensures forall n :: n != ns ==> View(n) == old(View(n))
      ensures !found ==> changes == old(changes)
    {
      hide Overlay, ChangesAt;
      var r := Lookup(ns, key);
      found := r.Some?;
      if found {
        var c := ChangesAt(changes, ns);
        OverlayDel(SuperView(ns), c, key);
        ChangesMoved(changes, ns, Changes(c.values - {key}, c.deleted + {key}));
        changes := changes[ns := Changes(c.values - {key}, c.deleted + {key})];
      }
    }

    /** PurgeNamespace inside a transaction leaves tombstones; the parent keeps its table. */
    method Purge(ns: string)
      requires Valid()
      modifies this
      ensures Valid() && done == old(done)
      ensures forall n :: SuperStack(n) == old(SuperStack(n))
      ensures View(ns) == map[]
      ensures forall n :: n != ns ==> View(n) == old(View(n))
    {
      hide Overlay;
      var all := All(ns);
      var rest := all.Keys;
      while rest != {}
        invariant Valid() && done == old(done)
        invariant forall n :: SuperStack(n) == old(SuperStack(n))
        invariant View(ns).Keys == rest
        invariant forall n :: n != ns ==> View(n) == old(View(n))
      {
        var key :| key in rest;
        var _ := Del(ns, key);
        rest := rest - {key};
      }
    }

    // -------------------------------------------------------------- commit

    method SuperSet(ns: string, key: string, value: V)
      requires Valid()
      modifies Below()
      ensures Valid() && BelowUnmoved()
      ensures SuperView(ns) == old(SuperView(ns))[key := value]
      ensures forall n :: n != ns ==> SuperView(n) == old(SuperView(n))
    {
      match super
      case Base(m) => m.Set(ns, key, value);
      case Nested(tx) => tx.Set(ns, key, value);
    }

    method SuperDel(ns: string, key: string)
      requires Valid()
      modifies Below()
      ensures Valid() && BelowUnmoved()
      ensures SuperView(ns) == old(SuperView(ns)) - {key}
      ensures forall n :: n != ns ==> SuperView(n) == old(SuperView(n))
    {
      match super {
        case Base(m) => var _ := m.Del(ns, key);
        case Nested(tx) => var _ := tx.Del(ns, key);
      }
    }

    /** The transaction below is as open as it was, and what it is layered on has not changed. */
    twostate predicate BelowUnmoved()
      requires old(Valid()) && Valid()
      reads Repr
    {
      match super
      case Base(_) => true
      case Nested(tx) => tx.done == old(tx.done) && forall n :: tx.SuperStack(n) == old(tx.SuperStack(n))
    }

    method FlushDeleted(ns: string, deleted: set<string>)
      requires Valid()
      modifies Below()
      ensures Valid() && BelowUnmoved()
      ensures SuperView(ns) == old(SuperView(ns)) - deleted
      ensures forall n :: n != ns ==> SuperView(n) == old(SuperView(n))
    {
      hide Overlay, View;
      var rest := deleted;
      while rest != {}
        invariant Valid() && BelowUnmoved() && rest <= deleted
        invariant SuperView(ns) == old(SuperView(ns)) - (deleted - rest)
        invariant forall n :: n != ns ==> SuperView(n) == old(SuperView(n))
      {
        var key :| key in rest;
        SuperDel(ns, key);
        rest := rest - {key};
      }
    }

    method FlushValues(ns: string, values: Table<V>)
      requires Valid()
      modifies Below()
      ensures Valid() && BelowUnmoved()
      ensures SuperView(ns) == old(SuperView(ns)) + values
      ensures forall n :: n != ns ==> SuperView(n) == old(SuperView(n))
    {
      hide Overlay, View;
      var rest := values.Keys;
      while rest != {}
        invariant Valid() && BelowUnmoved() && rest <= values.Keys
        invariant SuperView(ns) == old(SuperView(ns)) + (values - rest)
        invariant forall n :: n != ns ==> SuperView(n) == old(SuperView(n))
      {
        var key :| key in rest;
        SuperSet(ns, key, values[key]);
        rest := rest - {key};
      }
      assert values - {} == values;
    }

    /** Applies the changes of one namespace to what is below, in any order. */
    method Flush(ns: string)
      requires Valid() && ns in changes
      modifies Below()
      ensures Valid() && BelowUnmoved()
      ensures SuperView(ns) == Overlay(old(SuperView(ns)), changes[ns])
      ensures forall n :: n != ns ==> SuperView(n) == old(SuperView(n))
    {
      FlushDeleted(ns, changes[ns].deleted);
      FlushValues(ns, changes[ns].values);
    }

    /** Makes what is below show exactly what the transaction showed, in every namespace. */
    method Commit() returns (ok: bool)
      requires Valid()
      modifies this`done, Below()
      ensures Valid() && BelowUnmoved() && done && ok == !old(done)
      ensures forall n :: SuperView(n) == if ok then old(View(n)) else old(SuperView(n))
    {
      hide Overlay;
      if done {
        return false;
      }
      done := true;
      forall n | n !in changes ensures View(n) == SuperView(n) {
        OverlayNone(SuperView(n));
      }
      var todo := changes.Keys;
      while todo != {}
        invariant Valid() && BelowUnmoved() && done && todo <= changes.Keys
        invariant forall n :: n in todo ==> SuperView(n) == old(SuperView(n))
        invariant forall n :: n !in todo ==> SuperView(n) == old(View(n))
      {
        var ns :| ns in todo;
        Flush(ns);
        todo := todo - {ns};
      }
      return true;
    }

    // -------------------------------------------------------------- rollback

    ghost predicate AllDone()
      requires Valid()
      reads Repr
      decreases Repr
    {
      done && match super
              case Base(_) => true
              case Nested(tx) => tx.AllDone()
    }

    /** Marks the transaction and those below it done, up to one that already is. */
    method Rollback() returns (ok: bool)
      requires Valid()
      modifies Repr
      decreases Repr
      ensures Valid() && done
      ensures forall n :: Stack(n) == old(Stack(n))
      ensures ok <==> !old(Cancelled())
      ensures ok ==> AllDone()
    {
      if done {
        return false;
      }
      done := true;
      match super
      case Base(_) => ok := true;
      case Nested(tx) =>
        ok := tx.Rollback();
        assert forall n :: SuperStack(n) == old(SuperStack(n));
    }
  }

  // ---------------------------------------------------------------- contexts

  /** A context carries the innermost transaction begun on it, if any. */
  datatype Ctx<!V> = NoTx(m: Memory<V>) | InTx(tx: Tx<V>)

  datatype Error = Cancelled | TxDone | MissingTx

  datatype Result<+T> = Ok(value: T) | Err(error: Error)

  method BeginTx<V>(ctx: Ctx<V>) returns (r: Result<Tx<V>>)
    requires ctx.InTx? ==> ctx.tx.Valid()
    ensures r == Err(Cancelled) <==> ctx.InTx? && ctx.tx.Cancelled()
    ensures r.Err? ==> r.error == Cancelled
    ensures r.Ok? ==>
      && fresh(r.value) && r.value.Valid() && !r.value.done && !r.value.Cancelled()
      && r.value.super == (if ctx.InTx? then Nested(ctx.tx) else Base(ctx.m))
      && forall n :: r.value.View(n) == r.value.SuperView(n)
  {
    match ctx
    case NoTx(m) =>
      var tx := new Tx(Base(m));
      r := Ok(tx);
    case InTx(parent) =>
      if parent.Cancelled() {
        return Err(Cancelled);
      }
      var tx := new Tx(Nested(parent));
      r := Ok(tx);
  }

  /** Commits the innermost transaction: its parent then shows exactly what it showed. */
  method CommitTx<V>(ctx: Ctx<V>) returns (e: Option<Error>)
    requires ctx.InTx? ==> ctx.tx.Valid()
    modifies if ctx.InTx? then {ctx.tx, ctx.tx.Below()} else {}
    ensures ctx.InTx? ==> ctx.tx.Valid()
    ensures e == if ctx.NoTx? then Some(MissingTx) else if old(ctx.tx.Cancelled()) then Some(Cancelled) else None
    ensures e == None ==> ctx.tx.done && forall n :: ctx.tx.SuperView(n) == old(ctx.tx.View(n))
    ensures e != None && ctx.InTx? ==>
      ctx.tx.done == old(ctx.tx.done) && forall n :: ctx.tx.Stack(n) == old(ctx.tx.Stack(n))
  {
    match ctx
    case NoTx(_) => e := Some(MissingTx);
    case InTx(tx) =>
      if tx.Cancelled() {
        return Some(Cancelled);
      }
      var ok := tx.Commit();
      e := if ok then None else Some(TxDone);
  }

  /** Rolls back the innermost transaction together with all those below it. */
  method RollbackTx<V>(ctx: Ctx<V>) returns (e: Option<Error>)
    requires ctx.InTx? ==> ctx.tx.Valid()
    modifies if ctx.InTx? then ctx.tx.Repr else {}
    ensures ctx.InTx? ==> ctx.tx.Valid() && forall n :: ctx.tx.Stack(n) == old(ctx.tx.Stack(n))
    ensures e == if ctx.NoTx? then Some(MissingTx) else if old(ctx.tx.Cancelled()) then Some(Cancelled) else None
    ensures e == None ==> ctx.tx.AllDone()
  {
    match ctx
    case NoTx(_) => e := Some(MissingTx);
    case InTx(tx) =>
      if tx.Cancelled() {
        return Some(Cancelled);
      }
      var ok := tx.Rollback();
      e := if ok then None else Some(TxDone);
  }

  // ---------------------------------------------------------------- whole runs

  /** What a use of transactions does: writes, and nested transactions that end one way or the other. */
  datatype Op<V> =
    | Put(ns: string, key: string, value: V)
    | Remove(ns: string, key: string)
    | Clear(ns: string)
    | Sub(ops: seq<Op<V>>, commit: bool)

  /** The same use on one plain table, with no layers; None when something in it rolled back. */
  function Plain<V>(ops: seq<Op<V>>, ns: string, t: Table<V>): Option<Table<V>>
    decreases ops
  {
    if ops == [] then Some(t)
    else
      var before := Plain(ops[..|ops| - 1], ns, t);
      if before == None then None
      else PlainOp(ops[|ops| - 1], ns, before.value)
  }

  function PlainOp<V>(op: Op<V>, ns: string, t: Table<V>): Option<Table<V>>
    decreases op
  {
    match op
    case Put(n, key, value) => Some(if n == ns then t[key := value] else t)
    case Remove(n, key) => Some(if n == ns then t - {key} else t)
    case Clear(n) => Some(if n == ns then map[] else t)
    case Sub(ops, commit) => if commit then Plain(ops, ns, t) else None
  }

  /** Whether something in it rolls back does not depend on the tables. */
  predicate Survives<V>(ops: seq<Op<V>>)
    decreases ops
  {
    ops == [] || (Survives(ops[..|ops| - 1]) && SurvivesOp(ops[|ops| - 1]))
  }

  predicate SurvivesOp<V>(op: Op<V>)
    decreases op
  {
    op.Sub? ==> op.commit && Survives(op.ops)
  }

  lemma {:induction false} PlainSurvives<V>(ops: seq<Op<V>>, ns: string, t: Table<V>)
    ensures Plain(ops, ns, t).Some? <==> Survives(ops)
    decreases ops
  {
    if ops != [] {
      PlainSurvives(ops[..|ops| - 1], ns, t);
      var before := Plain(ops[..|ops| - 1], ns, t);
      var op := ops[|ops| - 1];
      if before.Some? && op.Sub? {
        PlainSurvives(op.ops, ns, before.value);
      }
    }
  }

  lemma {:induction false} SurvivesPrefix<V>(ops: seq<Op<V>>, k: nat)
    requires k <= |ops|
    ensures Survives(ops) ==> Survives(ops[..k])
  {
    if k < |ops| {
      SurvivesPrefix(ops[..|ops| - 1], k);
      assert ops[..|ops| - 1][..k] == ops[..k];
    } else {
      assert ops[..k] == ops;
    }
  }

  /**
   Performs the use on layered transactions.  As long as nothing rolls back the transaction
   shows what the plain tables show and its parent sees nothing of it; a rollback anywhere
   inside leaves every table below as it was and ends every transaction of the chain.
   */
  method Perform<V>(tx: Tx<V>, ops: seq<Op<V>>) returns (alive: bool)
    requires tx.Valid() && !tx.Cancelled()
    modifies tx.Repr
    ensures tx.Valid() && alive == Survives(ops)
    ensures forall n :: tx.SuperStack(n) == old(tx.SuperStack(n))
    ensures alive ==> !tx.Cancelled() && forall n :: Some(tx.View(n)) == Plain(ops, n, old(tx.View(n)))
    ensures !alive ==> tx.AllDone()
    decreases ops, 0
  {
    hide PlainOp, SurvivesOp;
    alive := true;
    for i := 0 to |ops|
      invariant tx.Valid() && !tx.Cancelled() && Survives(ops[..i])
      invariant forall n :: tx.SuperStack(n) == old(tx.SuperStack(n))
      invariant forall n :: Some(tx.View(n)) == Plain(ops[..i], n, old(tx.View(n)))
    {
      assert ops[..i + 1][..i] == ops[..i];
      SurvivesPrefix(ops, i + 1);
      alive := PerformOp(tx, ops[i]);
      if !alive {
        return;
      }
    }
    assert ops[..|ops|] == ops;
  }

  method PerformOp<V>(tx: Tx<V>, op: Op<V>) returns (alive: bool)
    requires tx.Valid() && !tx.Cancelled()
    modifies tx.Repr
    ensures tx.Valid() && alive == SurvivesOp(op)
    ensures forall n :: tx.SuperStack(n) == old(tx.SuperStack(n))
    ensures alive ==> !tx.Cancelled() && forall n :: Some(tx.View(n)) == PlainOp(op, n, old(tx.View(n)))
    ensures !alive ==> tx.AllDone()
    ensures op.Put? ==> alive && tx.View(op.ns) == old(tx.View(op.ns))[op.key := op.value]
    ensures op.Remove? ==> alive && tx.View(op.ns) == old(tx.View(op.ns)) - {op.key}
    ensures op.Clear? ==> alive && tx.View(op.ns) == map[]
    ensures !op.Sub? ==> forall n :: n != op.ns ==> tx.View(n) == old(tx.View(n))
    ensures op.Sub? ==> alive == (op.commit && Survives(op.ops))
    ensures op.Sub? && alive ==> forall n :: Some(tx.View(n)) == Plain(op.ops, n, old(tx.View(n)))
    decreases op
  {
    hide Overlay;
    alive := true;
    match op
    case Put(ns, key, value) => tx.Set(ns, key, value);
    case Remove(ns, key) => var _ := tx.Del(ns, key);
    case Clear(ns) => tx.Purge(ns);
    case Sub(inner, commit) => alive := PerformSub(tx, inner, commit);
  }

  lemma ChildStack<V>(tx: Tx<V>, child: Tx<V>)
    requires child.Valid() && child.super == Nested(tx)
    ensures forall n :: child.SuperStack(n)[|child.SuperStack(n)| - 1] == tx.View(n)
    ensures forall n :: child.SuperStack(n)[..|child.SuperStack(n)| - 1] == tx.SuperStack(n)
  {
    tx.StackParts();
  }

  method CommitChild<V>(tx: Tx<V>, child: Tx<V>)
    requires child.Valid() && child.super == Nested(tx) && !child.Cancelled()
    modifies child`done, tx
    ensures tx.Valid() && !tx.Cancelled()
    ensures forall n :: tx.View(n) == old(child.View(n))
    ensures forall n :: tx.SuperStack(n) == old(tx.SuperStack(n))
  {
    hide Overlay;
    var _ := child.Commit();
    assert forall n :: tx.View(n) == child.SuperView(n);
  }

  method RollbackChild<V>(tx: Tx<V>, child: Tx<V>)
    requires child.Valid() && child.super == Nested(tx) && !child.Cancelled()
    modifies child.Repr
    ensures tx.Valid() && tx.AllDone()
    ensures forall n :: tx.SuperStack(n) == old(tx.SuperStack(n))
  {
    hide Overlay;
    child.StackParts();
    ChildStack(tx, child);
    var _ := child.Rollback();
    child.StackParts();
    ChildStack(tx, child);
  }

  method PerformSub<V>(tx: Tx<V>, inner: seq<Op<V>>, commit: bool) returns (alive: bool)
    requires tx.Valid() && !tx.Cancelled()
    modifies tx.Repr
    ensures tx.Valid() && alive == (commit && Survives(inner))
    ensures forall n :: tx.SuperStack(n) == old(tx.SuperStack(n))
    ensures alive ==> !tx.Cancelled() && forall n :: Some(tx.View(n)) == Plain(inner, n, old(tx.View(n)))
    ensures !alive ==> tx.AllDone()
    decreases inner, 1
  {
    hide Overlay, Plain, Survives;
    var child := new Tx(Nested(tx));
    ChildStack(tx, child);
    alive := Perform(child, inner);
    ChildStack(tx, child);
    if alive {
      if commit {
        CommitChild(tx, child);
      } else {
        RollbackChild(tx, child);
        alive := false;
      }
    }
  }

  /** A whole transaction over the memory: all of the plain effect, or none of it. */
  method Transact<V>(m: Memory<V>, ops: seq<Op<V>>, commit: bool) returns (committed: bool)
    modifies m
    ensures committed == (commit && Survives(ops))
    ensures forall n :: Some(m.View(n)) == if committed then Plain(ops, n, old(m.View(n))) else Some(old(m.View(n)))
  {
    var tx := new Tx(Base(m));
    tx.BaseStack(m);
    committed := Perform(tx, ops);
    tx.BaseStack(m);
    assert !committed ==> forall n :: m.View(n) == old(m.View(n));
    if committed && commit {
      var _ := tx.Commit();
      assert forall n :: m.View(n) == tx.SuperView(n);
    } else if committed {
      tx.StackParts();
      var _ := tx.Rollback();
      tx.StackParts();
      tx.BaseStack(m);
      committed := false;
    }
  }
}
