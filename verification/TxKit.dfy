/**
 The context transaction manager (`pkg/txkit/txkit.go`), over its own resource: a list of
 compensations that a rollback runs.

 A context is the node it was begun with, on top of a base context that others may cancel.
 Nodes form chains; only the first of a chain holds the resource.
 */
module TransactionKit {
  import opened Common
  import opened Teardowns

  datatype Event = Begun | Committed | RolledBack

  datatype Error = NoTx | TxDone | ContextOver | StepFailed(err: int)

  /** The context a caller brings along. */
  class Base {
    var cancelled: bool

    constructor ()
      ensures !cancelled
    {
      cancelled := false;
    }
  }

  /** The resource: contextTransaction. */
  class Resource<W> {
    var done: bool
    var events: seq<Event>
    const rollbacks: Teardown<W>

    constructor ()
      ensures fresh(rollbacks) && rollbacks.fns == [] && !done && events == [Begun]
    {
      done, events := false, [Begun];
      rollbacks := new Teardown();
    }

    method OnRollback(fn: Fn<W>) returns (err: seq<Error>)
      modifies rollbacks
      ensures rollbacks.fns == if done then old(rollbacks.fns) else old(rollbacks.fns) + [fn]
      ensures err == if done then [TxDone] else []
    {
      if done {
        return [TxDone];
      }
      rollbacks.Defer(fn);
      err := [];
    }

    method Commit()
      modifies this
      ensures done && events == old(events) + [Committed]
    {
      done := true;
      events := events + [Committed];
    }

    method Rollback(world: World<W>) returns (errs: seq<int>)
      modifies this, rollbacks, world
      ensures done && events == old(events) + [RolledBack]
      ensures rollbacks.fns == [] && world.w == Restored(old(rollbacks.fns), old(world.w))
      ensures errs == Errors(Order(old(rollbacks.fns)))
    {
      done := true;
      events := events + [RolledBack];
      errs := rollbacks.Finish(world);
    }
  }

  /** txInContext. */
  class Node<W> {
    const base: Base
    const parent: Node?<W>
    const tx: Resource?<W>
    var done: bool
    var cancelled: bool
    /** From the first node of the chain to this one. */
    ghost const chain: seq<Node<W>>
    ghost const root: Resource<W>

    ghost predicate Linked() {
      && chain != [] && chain[|chain| - 1] == this
      && (forall i :: 0 <= i < |chain| ==> chain[i].chain == chain[..i + 1])
      && (forall i :: 0 <= i < |chain| ==> chain[i].base == base && chain[i].root == root)
      && (forall i :: 0 < i < |chain| ==> chain[i].parent == chain[i - 1] && chain[i].tx == null)
      && chain[0].parent == null && chain[0].tx == root
    }

    constructor First(base: Base, tx: Resource<W>)
      ensures Linked() && chain == [this] && this.base == base && root == tx
      ensures !done && !cancelled
    {
      this.base, this.parent, this.tx := base, null, tx;
      done, cancelled := false, false;
      chain, root := [this], tx;
    }

    constructor Below(parent: Node<W>)
      requires parent.Linked()
      ensures Linked() && chain == parent.chain + [this] && base == parent.base && root == parent.root
      ensures this.parent == parent && tx == null && !done && !cancelled
    {
      this.base, this.parent, this.tx := parent.base, parent, null;
      done, cancelled := false, false;
      chain, root := parent.chain + [this], parent.root;
    }

    /** ctx.Err(): the base context is over, or a node of the chain cancelled its own. */
    ghost predicate Over()
      reads base, chain
    {
      base.cancelled || exists i :: 0 <= i < |chain| && chain[i].cancelled
    }

    method Err() returns (over: bool)
      requires Linked()
      ensures over == Over()
    {
      over := base.cancelled;
      var node: Node?<W> := this;
      ghost var i := |chain| - 1;
      while !over && node != null
        invariant -1 <= i < |chain| && (node == null <==> i == -1)
        invariant node != null ==> node == chain[i]
        invariant !over ==> !base.cancelled && forall k :: i < k < |chain| ==> !chain[k].cancelled
        invariant over ==> Over()
        decreases i, !over
      {
        if node.cancelled {
          over := true;
        } else {
          assert i > 0 ==> chain[i].parent == chain[i - 1];
          node := node.parent;
          i := i - 1;
        }
      }
    }

    /** lookupRootTx: the resource of the chain. */
    method LookupRoot() returns (tx: Resource<W>)
      requires Linked()
      ensures tx == root
    {
      var node: Node<W> := this;
      ghost var i := |chain| - 1;
      while node.tx == null
        invariant 0 <= i < |chain| && node == chain[i]
        decreases i
      {
        assert chain[i].parent == chain[i - 1];
        node := node.parent;
        i := i - 1;
      }
      tx := node.tx;
    }
  }

  /** A context without a transaction is a base context and no node. */
  ghost predicate Context<W>(base: Base, node: Node?<W>) {
    node != null ==> node.Linked() && node.base == base
  }

  ghost predicate EndedAbove<W>(base: Base, node: Node?<W>)
    reads base, if node == null then {} else {node.base}, if node == null then [] else node.chain
  {
    if node == null then base.cancelled else base.cancelled || node.Over()
  }

  /** Begins below the context's transaction, or a new one, unless the context is over. */
  method BeginTx<W>(base: Base, above: Node?<W>) returns (node: Node?<W>, err: seq<Error>)
    requires Context(base, above)
    ensures err == if EndedAbove(base, above) then [ContextOver] else []
    ensures node == null <==> err != []
    ensures node != null ==> fresh(node) && node.Linked() && node.base == base && !node.done && !node.cancelled
    ensures node != null && above != null ==> node.chain == above.chain + [node] && node.root == above.root
    ensures node != null && above == null ==>
      && node.chain == [node] && fresh(node.root) && fresh(node.root.rollbacks)
      && !node.root.done && node.root.events == [Begun] && node.root.rollbacks.fns == []
  {
    node, err := null, [];
    if above == null {
      if base.cancelled {
        return null, [ContextOver];
      }
      var tx := new Resource<W>();
      node := new Node<W>.First(base, tx);
    } else {
      var over := above.Err();
      if over {
        return null, [ContextOver];
      }
      node := new Node<W>.Below(above);
    }
  }

  /**
   Only the first node's commit reaches the resource, and reaches it as a rollback when the
   context is over; a nested commit only finishes its own node.
   */
  method CommitTx<W>(node: Node?<W>, world: World<W>) returns (err: seq<Error>)
    requires node != null ==> node.Linked()
    modifies if node != null then {node, node.root, node.root.rollbacks, world} else {}
    ensures node == null ==> err == [NoTx]
    ensures node != null && old(node.done) ==> err == [TxDone] && unchanged(node)
    ensures node != null && !old(node.done) ==> node.done && node.cancelled
    ensures node != null && (old(node.done) || 1 < |node.chain|) ==>
      unchanged(node.root, node.root.rollbacks, world)
    ensures node != null && !old(node.done) && 1 < |node.chain| ==>
      err == if old(node.Over()) then [ContextOver] else []
    ensures node != null && !old(node.done) && |node.chain| == 1 ==>
      && node.root.done
      && node.root.events == old(node.root.events) + [if old(node.Over()) then RolledBack else Committed]
    ensures node != null && !old(node.done) && |node.chain| == 1 && old(node.Over()) ==>
      && node.root.rollbacks.fns == []
      && err == [ContextOver] + Wrapped(Errors(Order(old(node.root.rollbacks.fns))))
      && world.w == Restored(old(node.root.rollbacks.fns), old(world.w))
    ensures node != null && !old(node.done) && |node.chain| == 1 && !old(node.Over()) ==>
      unchanged(node.root.rollbacks, world) && err == []
  {
    if node == null {
      return [NoTx];
    }
    var tx: Node<W> := node;
    if tx.done {
      return [TxDone];
    }
    var over := tx.Err();
    tx.done := true;
    if tx.tx == null {
      err := if over then [ContextOver] else [];
    } else if over {
      var errs := tx.tx.Rollback(world);
      err := [ContextOver] + Wrapped(errs);
    } else {
      tx.tx.Commit();
      err := [];
    }
    tx.cancelled := true;
  }

  function Wrapped(errs: seq<int>): (r: seq<Error>)
    ensures |r| == |errs| && forall i :: 0 <= i < |errs| ==> r[i] == StepFailed(errs[i])
  {
    seq(|errs|, i requires 0 <= i < |errs| => StepFailed(errs[i]))
  }

  /**
   Rolling back an unfinished node finishes its whole chain and reaches the resource, whether
   or not the resource was finished before.
   */
  method RollbackTx<W>(node: Node?<W>, world: World<W>) returns (err: seq<Error>)
    requires node != null ==> node.Linked()
    modifies if node != null then (set n <- node.chain) + {node.root, node.root.rollbacks, world} else {}
    ensures node == null ==> err == [NoTx]
    ensures node != null && old(node.done) ==> err == [TxDone]
    ensures node != null && old(node.done) ==> unchanged(node.root, node.root.rollbacks, world)
    ensures node != null && old(node.done) ==> forall n <- node.chain :: unchanged(n)
    ensures node != null && !old(node.done) ==> forall n <- node.chain :: n.done && n.cancelled
    ensures node != null && !old(node.done) ==>
      && node.root.done && node.root.rollbacks.fns == []
      && node.root.events == old(node.root.events) + [RolledBack]
      && world.w == Restored(old(node.root.rollbacks.fns), old(world.w))
    ensures node != null && !old(node.done) ==>
      err == Wrapped(Errors(Order(old(node.root.rollbacks.fns)))) + if old(node.Over()) then [ContextOver] else []
  {
    if node == null {
      return [NoTx];
    }
    var tx: Node<W> := node;
    if tx.done {
      return [TxDone];
    }
    var over := tx.Err();
    var top, passed := FinishUp(node);
    var errs := top.Rollback(world);
    err := Wrapped(errs) + if over then [ContextOver] else [];
    CancelAll(passed);
    forall n | n in node.chain ensures n.done && n.cancelled {
      var j :| 0 <= j < |node.chain| && node.chain[j] == n;
      assert passed[|node.chain| - 1 - j] == n;
    }
  }

  /** The loop of RollbackTx: finishes every node up to the one that holds the resource. */
  method FinishUp<W>(node: Node<W>) returns (top: Resource<W>, passed: seq<Node<W>>)
    requires node.Linked()
    modifies node.chain
    ensures top == node.root && passed == ReversedFrom(node.chain, 0)
    ensures forall n <- node.chain :: n.done && n.cancelled == old(n.cancelled)
  {
    var tx := node;
    passed := [tx];
    tx.done := true;
    ghost var chain := node.chain;
    ghost var i := |chain| - 1;
    while tx.tx == null
      invariant 0 <= i < |chain| && tx == chain[i] && passed == ReversedFrom(chain, i)
      invariant forall k :: i <= k < |chain| ==> chain[k].done
      invariant forall n <- chain :: n.cancelled == old(n.cancelled)
      decreases i
    {
      assert chain[i].parent == chain[i - 1];
      tx := tx.parent;
      i := i - 1;
      passed := passed + [tx];
      tx.done := true;
    }
    top := tx.tx;
  }

  /** The deferred cancellations. */
  method CancelAll<W>(passed: seq<Node<W>>)
    modifies passed
    ensures forall n <- passed :: n.cancelled && n.done == old(n.done)
  {
    for k := 0 to |passed|
      invariant forall j :: 0 <= j < k ==> passed[j].cancelled
      invariant forall n <- passed :: n.done == old(n.done)
    {
      passed[k].cancelled := true;
    }
  }

  /** The chain from its end down to `i`. */
  ghost function ReversedFrom<W>(chain: seq<Node<W>>, i: nat): (r: seq<Node<W>>)
    requires i <= |chain|
    ensures |r| == |chain| - i
    ensures forall j :: 0 <= j < |r| ==> r[j] == chain[|chain| - 1 - j]
  {
    seq(|chain| - i, j requires 0 <= j < |chain| - i => chain[|chain| - 1 - j])
  }

  method OnRollback<W>(node: Node?<W>, fn: Fn<W>) returns (err: seq<Error>)
    requires node != null ==> node.Linked()
    modifies if node != null then {node.root.rollbacks} else {}
    ensures node == null ==> err == [NoTx]
    ensures node != null ==> err == if node.root.done then [TxDone] else []
    ensures node != null ==>
      node.root.rollbacks.fns == old(node.root.rollbacks.fns) + (if node.root.done then [] else [fn])
  {
    if node == null {
      return [NoTx];
    }
    var tx := node.LookupRoot();
    err := tx.OnRollback(fn);
  }

  /** Commits when there is no error to return, and rolls back otherwise. */
  method Finish<W>(returned: seq<Error>, node: Node?<W>, world: World<W>) returns (err: seq<Error>)
    requires node != null ==> node.Linked()
    modifies if node != null then (set n <- node.chain) + {node.root, node.root.rollbacks, world} else {}
    ensures returned != [] ==> err != [] && returned <= err
    ensures node == null ==> err == returned + [NoTx]
    // what is returned otherwise: nothing only if the context was not over and everything went well
    ensures node != null && !old(node.done) && returned == [] ==> (err == [] <==> !old(node.Over()))
    ensures node != null && !old(node.done) && returned == [] && old(node.Over()) ==>
      err == [ContextOver] +
        (if |node.chain| == 1 then Wrapped(Errors(Order(old(node.root.rollbacks.fns)))) else [])
    ensures node != null && !old(node.done) && returned != [] ==>
      err == returned + Wrapped(Errors(Order(old(node.root.rollbacks.fns)))) +
        (if old(node.Over()) then [ContextOver] else [])
    ensures node != null && old(node.done) ==>
      && unchanged(node.root, node.root.rollbacks, world) && (forall n <- node.chain :: unchanged(n))
      && err == if returned == [] then [TxDone] else returned
    ensures node != null && !old(node.done) && returned == [] && 1 < |node.chain| ==>
      && unchanged(node.root, node.root.rollbacks, world) && node.done && node.cancelled
      && (forall n <- node.chain :: n != node ==> unchanged(n))
    ensures node != null && !old(node.done) && returned == [] && |node.chain| == 1 ==>
      && node.root.done
      && node.root.events == old(node.root.events) + [if old(node.Over()) then RolledBack else Committed]
      && world.w == if old(node.Over()) then Restored(old(node.root.rollbacks.fns), old(world.w)) else old(world.w)
    ensures node != null && !old(node.done) && returned != [] ==>
      && (forall n <- node.chain :: n.done && n.cancelled)
      && node.root.done && node.root.rollbacks.fns == []
      && node.root.events == old(node.root.events) + [RolledBack]
      && world.w == Restored(old(node.root.rollbacks.fns), old(world.w))
  {
    if returned == [] {
      err := CommitTx(node, world);
      return;
    }
    var failed := RollbackTx(node, world);
    err := if failed == [] || TxDone in failed then returned else returned + failed;
  }

  /** A step of a use case, and how to compensate it; `err` is what the compensation reports. */
  datatype Step<!W> = Step(do: W -> W, undo: W -> W, err: int)

  /**
   A use case: steps, calls that join the transaction by one of their own and end it with or
   without an error, and the moment at which the caller's context is cancelled.
   */
  datatype Op<!W> = Do(step: Step<W>) | Cancel | Sub(body: seq<Op<W>>, commit: bool)

  /** How the run of a use case stands: rolled back already, or its context cancelled. */
  datatype Mode = Mode(shut: bool, cancelled: bool)

  const GOOD := Mode(false, false)

  function AfterOp<W>(op: Op<W>, m: Mode): Mode
    decreases op, 1
  {
    match op
    case Do(_) => m
    case Cancel => m.(cancelled := true)
    case Sub(body, commit) =>
      if m != GOOD then m
      else if commit then After(body, m)
      else After(body, m).(shut := true)
  }

  function After<W>(ops: seq<Op<W>>, m: Mode): Mode
    decreases ops, 0
  {
    if ops == [] then m
    else AfterOp(ops[|ops| - 1], After(ops[..|ops| - 1], m))
  }

  /** Steps done when the transaction was rolled back already: their compensation is refused. */
  function LateOp<W>(op: Op<W>, m: Mode): seq<Step<W>>
    decreases op, 1
  {
    match op
    case Do(step) => if m.shut then [step] else []
    case Cancel => []
    case Sub(body, _) => if m != GOOD then [] else Late(body, m)
  }

  function Late<W>(ops: seq<Op<W>>, m: Mode): seq<Step<W>>
    decreases ops, 0
  {
    if ops == [] then []
    else Late(ops[..|ops| - 1], m) + LateOp(ops[|ops| - 1], After(ops[..|ops| - 1], m))
  }

  function DoAll<W>(steps: seq<Step<W>>, w: W): W {
    if steps == [] then w
    else steps[|steps| - 1].do(DoAll(steps[..|steps| - 1], w))
  }

  /** What the use case does with no transactions at all. */
  function PlainOp<W>(op: Op<W>, w: W): W
    decreases op, 1
  {
    match op
    case Do(step) => step.do(w)
    case Cancel => w
    case Sub(body, _) => Plain(body, w)
  }

  function Plain<W>(ops: seq<Op<W>>, w: W): W
    decreases ops, 0
  {
    if ops == [] then w
    else PlainOp(ops[|ops| - 1], Plain(ops[..|ops| - 1], w))
  }

  /** All its steps in the order in which they are done, those of the calls that join included. */
  function StepsOf<W>(ops: seq<Op<W>>): seq<Step<W>>
    decreases ops
  {
    if ops == [] then []
    else
      var last := ops[|ops| - 1];
      StepsOf(ops[..|ops| - 1]) +
        if last.Do? then [last.step] else if last.Sub? then StepsOf(last.body) else []
  }

  /** A use case without transactions does its steps one after the other. */
  lemma {:induction false} PlainSteps<W>(ops: seq<Op<W>>, w: W)
    ensures Plain(ops, w) == DoAll(StepsOf(ops), w)
    decreases ops
  {
    if ops != [] {
      var rest, last := ops[..|ops| - 1], ops[|ops| - 1];
      PlainSteps(rest, w);
      match last
      case Do(step) =>
        DoAllConcat(StepsOf(rest), [step], w);
        assert [step][..0] == [];
      case Cancel =>
        assert StepsOf(ops) == StepsOf(rest);
      case Sub(body, _) =>
        PlainSteps(body, Plain(rest, w));
        DoAllConcat(StepsOf(rest), StepsOf(body), w);
    }
  }

  /** No part of the use case fails, and nobody cancels it. */
  predicate Clean<W>(ops: seq<Op<W>>)
    decreases ops
  {
    forall i :: 0 <= i < |ops| ==> !ops[i].Cancel? && (ops[i].Sub? ==> ops[i].commit && Clean(ops[i].body))
  }

  /** Each compensation undoes its step. */
  ghost predicate Inverts<W(!new)>(ops: seq<Op<W>>)
    decreases ops
  {
    forall i :: 0 <= i < |ops| ==>
      && (ops[i].Do? ==> forall w :: ops[i].step.undo(ops[i].step.do(w)) == w)
      && (ops[i].Sub? ==> Inverts(ops[i].body))
  }

  /** A run stays good exactly when every part succeeds and nobody cancels. */
  lemma {:induction false} GoodIffClean<W>(ops: seq<Op<W>>, m: Mode)
    ensures After(ops, m) == GOOD <==> m == GOOD && Clean(ops)
    decreases ops
  {
    if ops != [] {
      var n := |ops| - 1;
      GoodIffClean(ops[..n], m);
      assert forall i :: 0 <= i < n ==> ops[i] == ops[..n][i];
      if ops[n].Sub? {
        GoodIffClean(ops[n].body, GOOD);
      }
    }
  }

  /** Modes only get worse, and while nothing was rolled back no step is late. */
  lemma {:induction false} NoLate<W>(ops: seq<Op<W>>, m: Mode)
    ensures m.shut ==> After(ops, m).shut
    ensures !After(ops, m).shut ==> Late(ops, m) == []
    decreases ops
  {
    if ops != [] {
      var n := |ops| - 1;
      NoLate(ops[..n], m);
      var m1 := After(ops[..n], m);
      assert After(ops, m) == AfterOp(ops[n], m1);
      assert Late(ops, m) == Late(ops[..n], m) + LateOp(ops[n], m1);
      match ops[n]
      case Do(_) =>
      case Cancel =>
      case Sub(body, commit) =>
        NoLate(body, GOOD);
    }
  }

  lemma {:induction false} DoAllConcat<W>(a: seq<Step<W>>, b: seq<Step<W>>, w: W)
    ensures DoAll(a + b, w) == DoAll(b, DoAll(a, w))
  {
    if b == [] {
      assert a + b == a;
    } else {
      assert (a + b)[..|a + b| - 1] == a + b[..|b| - 1];
      DoAllConcat(a, b[..|b| - 1], w);
    }
  }

  /** The chain as a run keeps it: all of it unfinished, or all of it finished by a rollback. */
  ghost predicate Live<W>(node: Node<W>)
    reads node.chain, node.root, node.root.rollbacks
  {
    && (forall n <- node.chain :: !n.done && !n.cancelled)
    && !node.root.done && node.root.events == [Begun] && Flat(node.root.rollbacks.fns)
  }

  ghost predicate Shut<W>(node: Node<W>)
    reads node.chain, node.root, node.root.rollbacks
  {
    && (forall n <- node.chain :: n.done && n.cancelled)
    && node.root.done && node.root.events == [Begun, RolledBack] && node.root.rollbacks.fns == []
  }

  ghost predicate InMode<W>(node: Node<W>, m: Mode)
    reads node.base, node.chain, node.root, node.root.rollbacks
  {
    && node.Linked()
    && node.base.cancelled == m.cancelled
    && (if m.shut then Shut(node) else Live(node))
  }

  /**
   The world between two modes of a run: `target` is what a rollback at the start would have
   restored, `late` the steps that came too late.
   */
  ghost predicate Reached<W>(m: Mode, m': Mode, late: seq<Step<W>>, w: W, target: W, w': W, target': W) {
    && (!m'.shut ==> target' == target)
    && (m'.shut ==> w' == DoAll(late, if m.shut then w else target))
  }

  ghost function Target<W>(node: Node<W>, world: World<W>): W
    reads node.root.rollbacks, world
  {
    Restored(node.root.rollbacks.fns, world.w)
  }

  lemma ReachedThen<W>(m: Mode, m1: Mode, m2: Mode, late1: seq<Step<W>>, late2: seq<Step<W>>,
                       w: W, target: W, w1: W, target1: W, w2: W, target2: W)
    requires Reached(m, m1, late1, w, target, w1, target1)
    requires Reached(m1, m2, late2, w1, target1, w2, target2)
    requires m.shut ==> m1.shut
    requires m1.shut ==> m2.shut
    requires !m1.shut ==> late1 == []
    ensures Reached(m, m2, late1 + late2, w, target, w2, target2)
  {
    if m1.shut {
      DoAllConcat(late1, late2, if m.shut then w else target);
    } else {
      assert late1 + late2 == late2;
    }
  }

  method Perform<W(!new)>(node: Node<W>, world: World<W>, ops: seq<Op<W>>, ghost m: Mode)
    requires InMode(node, m) && Inverts(ops)
    modifies node.base, node.chain, node.root, node.root.rollbacks, world
    ensures InMode(node, After(ops, m))
    ensures Reached(m, After(ops, m), Late(ops, m), old(world.w), old(Target(node, world)), world.w,
                    Target(node, world))
    ensures After(ops, m) == GOOD ==> world.w == Plain(ops, old(world.w))
    decreases ops, 0
  {
    hide InMode, Reached, After, AfterOp, Late, LateOp, Plain, PlainOp, Inverts, Restored, Order;
    ghost var w, target := world.w, Target(node, world);
    NoOps(ops, m, w, target);
    for i := 0 to |ops|
      invariant InMode(node, After(ops[..i], m))
      invariant Reached(m, After(ops[..i], m), Late(ops[..i], m), w, target, world.w, Target(node, world))
      invariant After(ops[..i], m) == GOOD ==> world.w == Plain(ops[..i], w)
    {
      ghost var m1, w1, target1 := After(ops[..i], m), world.w, Target(node, world);
      NextOp(ops, i, m, w);
      PerformOp(node, world, ops[i], m1);
      ReachedThen(m, m1, AfterOp(ops[i], m1), Late(ops[..i], m), LateOp(ops[i], m1),
                  w, target, w1, target1, world.w, Target(node, world));
    }
    assert ops[..|ops|] == ops;
  }

  lemma NoOps<W(!new)>(ops: seq<Op<W>>, m: Mode, w: W, target: W)
    ensures After(ops[..0], m) == m && Plain(ops[..0], w) == w
    ensures Reached(m, m, Late(ops[..0], m), w, target, w, target)
  {
    assert ops[..0] == [];
  }

  /** What one more operation adds to the modes, the late steps and the plain effect. */
  lemma NextOp<W(!new)>(ops: seq<Op<W>>, i: nat, m: Mode, w: W)
    requires i < |ops| && Inverts(ops)
    ensures Inverts([ops[i]])
    ensures After(ops[..i + 1], m) == AfterOp(ops[i], After(ops[..i], m))
    ensures Late(ops[..i + 1], m) == Late(ops[..i], m) + LateOp(ops[i], After(ops[..i], m))
    ensures Plain(ops[..i + 1], w) == PlainOp(ops[i], Plain(ops[..i], w))
    ensures m.shut ==> After(ops[..i], m).shut
    ensures !After(ops[..i], m).shut ==> Late(ops[..i], m) == []
    ensures After(ops[..i], m).shut ==> After(ops[..i + 1], m).shut
    ensures AfterOp(ops[i], After(ops[..i], m)) == GOOD ==> After(ops[..i], m) == GOOD
  {
    assert ops[..i + 1][..i] == ops[..i] && ops[..i + 1][i] == ops[i];
    NoLate(ops[..i], m);
    NoLate([ops[i]], After(ops[..i], m));
    OneOp(ops[i], After(ops[..i], m));
  }

  lemma OneOp<W>(op: Op<W>, m: Mode)
    ensures After([op], m) == AfterOp(op, m) && Late([op], m) == LateOp(op, m)
    ensures AfterOp(op, m) == GOOD ==> m == GOOD
  {
    assert [op][..0] == [];
    GoodIffClean([op], m);
  }

  method PerformOp<W(!new)>(node: Node<W>, world: World<W>, op: Op<W>, ghost m: Mode)
    requires InMode(node, m) && Inverts([op])
    modifies node.base, node.chain, node.root, node.root.rollbacks, world
    ensures InMode(node, AfterOp(op, m))
    ensures Reached(m, AfterOp(op, m), LateOp(op, m), old(world.w), old(Target(node, world)), world.w,
                    Target(node, world))
    ensures AfterOp(op, m) == GOOD ==> world.w == PlainOp(op, old(world.w))
    decreases op, 1
  {
    assert [op][0] == op;
    match op
    case Do(step) =>
      PerformStep(node, world, step, m);
    case Cancel =>
      node.base.cancelled := true;
    case Sub(body, commit) =>
      PerformSub(node, world, body, commit, m);
  }

  /** The step is done first; then its compensation is registered, or refused. */
  method PerformStep<W(!new)>(node: Node<W>, world: World<W>, step: Step<W>, ghost m: Mode)
    requires InMode(node, m) && forall w :: step.undo(step.do(w)) == w
    modifies node.root.rollbacks, world
    ensures InMode(node, m) && world.w == step.do(old(world.w))
    ensures !m.shut ==> Target(node, world) == old(Target(node, world))
    ensures !m.shut ==> node.root.rollbacks.fns == old(node.root.rollbacks.fns) + [Fn(step.undo, step.err, [])]
  {
    hide Restored, Flat, Node.Linked, Order;
    ghost var before := world.w;
    var fn := Fn(step.undo, step.err, []);
    if !m.shut {
      Compensated(node.root.rollbacks.fns, fn, before, step.do(before));
    }
    world.w := step.do(world.w);
    var err := OnRollback(node, fn);
  }

  method PerformSub<W(!new)>(node: Node<W>, world: World<W>, body: seq<Op<W>>, commit: bool, ghost m: Mode)
    requires InMode(node, m) && Inverts(body)
    modifies node.base, node.chain, node.root, node.root.rollbacks, world
    ensures InMode(node, AfterOp(Sub(body, commit), m))
    ensures Reached(m, AfterOp(Sub(body, commit), m), LateOp(Sub(body, commit), m),
                    old(world.w), old(Target(node, world)), world.w, Target(node, world))
    ensures AfterOp(Sub(body, commit), m) == GOOD ==> world.w == Plain(body, old(world.w))
    decreases body, 2
  {
    hide Late, LateOp, Plain, Inverts, Restored, Order, Flat, Node.Linked, AfterOp, Reached, InMode;
    ghost var w, target := world.w, Target(node, world);
    BlockedUnlessGood(node, m);
    BlockedSub(body, commit, m, w, target);
    var sub, err := BeginTx(node.base, node);
    if sub == null {
      return;
    }
    GoodBelow(node, sub);
    Perform(sub, world, body, m);
    ghost var k, w1, target1 := After(body, m), world.w, Target(node, world);
    assert Target(sub, world) == target1;
    EndSub(node, sub, world, commit, k);
    EndedSub(body, commit, w, target, w1, target1, world.w, Target(node, world));
  }

  /** A call that may not join does nothing. */
  lemma BlockedSub<W>(body: seq<Op<W>>, commit: bool, m: Mode, w: W, target: W)
    ensures m != GOOD ==>
      AfterOp(Sub(body, commit), m) == m && Reached(m, m, LateOp(Sub(body, commit), m), w, target, w, target)
  {
    assert LateOp(Sub(body, commit), m) == (if m != GOOD then [] else Late(body, m));
  }

  /** What a call that joined reached, once it has ended. */
  lemma EndedSub<W>(body: seq<Op<W>>, commit: bool, w: W, target: W, w1: W, target1: W, w2: W, target2: W)
    requires Reached(GOOD, After(body, GOOD), Late(body, GOOD), w, target, w1, target1)
    requires commit || After(body, GOOD).shut ==> w2 == w1 && target2 == target1
    requires !commit && !After(body, GOOD).shut ==> w2 == target1
    ensures var k, op := After(body, GOOD), Sub(body, commit);
      && AfterOp(op, GOOD) == (if commit then k else k.(shut := true))
      && Reached(GOOD, AfterOp(op, GOOD), LateOp(op, GOOD), w, target, w2, target2)
      && (AfterOp(op, GOOD) == GOOD ==> k == GOOD && w2 == w1)
  {
    NoLate(body, GOOD);
    var op := Sub(body, commit);
    assert AfterOp(op, GOOD) == if commit then After(body, GOOD) else After(body, GOOD).(shut := true);
    assert LateOp(op, GOOD) == Late(body, GOOD);
  }

  lemma BlockedUnlessGood<W>(node: Node<W>, m: Mode)
    requires InMode(node, m)
    ensures node.Linked() && (node.Over() <==> m != GOOD)
  {
  }

  lemma GoodBelow<W>(node: Node<W>, sub: Node<W>)
    requires InMode(node, GOOD) && sub.Linked() && sub.chain == node.chain + [sub]
    requires sub.root == node.root && sub.base == node.base && !sub.done && !sub.cancelled
    ensures InMode(sub, GOOD)
  {
  }

  /** Ends a call that joined: its commit leaves the chain above as it was. */
  method EndSub<W>(node: Node<W>, sub: Node<W>, world: World<W>, commit: bool, ghost k: Mode)
    requires InMode(sub, k) && node.Linked() && sub.chain == node.chain + [sub]
    requires sub.root == node.root && sub.base == node.base && node.chain != [] && sub !in node.chain
    modifies sub.chain, sub.root, sub.root.rollbacks, world
    ensures InMode(node, if commit then k else k.(shut := true))
    ensures commit || k.shut ==> world.w == old(world.w) && unchanged(node.root.rollbacks)
    ensures !commit && !k.shut ==> world.w == old(Restored(node.root.rollbacks.fns, world.w))
  {
    hide Restored, Flat, Node.Linked;
    assert forall n <- node.chain :: n in sub.chain;
    assert sub in sub.chain;
    var result := Finish(if commit then [] else [StepFailed(1)], sub, world);
  }

  /**
   A whole well-nested use case.  The resource sees one begin and one end.  The end is a
   commit exactly when no part failed, nobody cancelled and the caller reports no error;
   otherwise every step is undone, save those done after a part had rolled everything back.
   */
  method Transact<W(!new)>(base: Base, world: World<W>, ops: seq<Op<W>>, commit: bool)
      returns (begun: bool, events: seq<Event>)
    requires Inverts(ops)
    modifies base, world
    ensures begun == !old(base.cancelled)
    ensures !begun ==> world.w == old(world.w) && events == []
    ensures begun && commit && Clean(ops) ==> events == [Begun, Committed]
    ensures begun && commit && Clean(ops) ==> world.w == Plain(ops, old(world.w))
    ensures begun && !(commit && Clean(ops)) ==> events == [Begun, RolledBack]
    ensures begun && !(commit && Clean(ops)) ==> world.w == DoAll(Late(ops, GOOD), old(world.w))
  {
    hide Late, Plain, Inverts, Node.Linked;
    var node, err := BeginTx(base, null);
    if node == null {
      return false, [];
    }
    NothingLeft(world.w);
    FirstGood(node);
    Perform(node, world, ops, GOOD);
    GoodIffClean(ops, GOOD);
    NoLate(ops, GOOD);
    EndFirst(node, world, commit, After(ops, GOOD));
    var root := node.LookupRoot();
    begun, events := true, root.events;
  }

  lemma FirstGood<W>(node: Node<W>)
    requires node.Linked() && node.chain == [node] && !node.done && !node.cancelled && !node.base.cancelled
    requires !node.root.done && node.root.events == [Begun] && node.root.rollbacks.fns == []
    ensures InMode(node, GOOD)
  {
  }

  method EndFirst<W>(node: Node<W>, world: World<W>, commit: bool, ghost m: Mode)
    requires InMode(node, m) && node.chain == [node]
    modifies node, node.root, node.root.rollbacks, world
    ensures node.root.events == [Begun, if m == GOOD && commit then Committed else RolledBack]
    ensures world.w == if m.shut || (m == GOOD && commit) then old(world.w) else old(Target(node, world))
  {
    hide Restored, Flat;
    var result := Finish(if commit then [] else [StepFailed(1)], node, world);
  }

  /** Steps done after a part rolled back stay done: their compensation is refused. */
  lemma LateStepStays()
    ensures var add := Step((n: int) => n + 1, (n: int) => n - 1, 0);
      Inverts([Sub([], false), Do(add)]) && DoAll(Late([Sub([], false), Do(add)], GOOD), 0) == 1
  {
    var add := Step((n: int) => n + 1, (n: int) => n - 1, 0);
    var ops := [Sub([], false), Do(add)];
    assert ops[..1] == [ops[0]] && ops[..1][..0] == [];
    var none: seq<Op<int>> := [];
    assert After(none, GOOD) == GOOD && Late(none, GOOD) == [];
    assert AfterOp(ops[0], GOOD) == Mode(true, false) && LateOp(ops[0], GOOD) == [];
    assert After(ops[..1], GOOD) == AfterOp(ops[0], After(none, GOOD));
    assert Late(ops[..1], GOOD) == [] && After(ops[..1], GOOD) == Mode(true, false);
    assert Late(ops, GOOD) == [add];
    assert [add][..0] == [];
  }

  datatype Call = Begin(on: nat) | Commit(on: nat) | Rollback(on: nat) | CancelBase

  /**
   What the calls alone decide: the contexts on each one's way up, which are finished, and
   whether somebody cancelled the base context.
   */
  datatype Outline = Outline(up: seq<set<nat>>, done: set<nat>, over: bool)

  const ONE := Outline([{0}], {}, false)

  /** A finished context's call is refused, and no context begins below a finished or cancelled one. */
  function Next(t: Outline, call: Call): Outline {
    if call.CancelBase? then t.(over := true)
    else if call.on >= |t.up| then t
    else match call
      case Begin(on) => if !t.over && t.up[on] !! t.done then t.(up := t.up + [t.up[on] + {|t.up|}]) else t
      case Commit(on) => t.(done := t.done + {on})
      case Rollback(on) => if on in t.done then t else t.(done := t.done + t.up[on])
  }

  /** A rollback of an unfinished context whose first context is finished. */
  predicate Extra(t: Outline, call: Call) {
    call.Rollback? && call.on < |t.up| && call.on !in t.done && 0 in t.done
  }

  function Follow(calls: seq<Call>): Outline {
    if calls == [] then ONE else Next(Follow(calls[..|calls| - 1]), calls[|calls| - 1])
  }

  function Extras(calls: seq<Call>): nat {
    if calls == [] then 0
    else
      var rest := calls[..|calls| - 1];
      Extras(rest) + if Extra(Follow(rest), calls[|calls| - 1]) then 1 else 0
  }

  /** The call that finishes the first context decides how the resource ends first. */
  function Ending(calls: seq<Call>): Option<Event> {
    if calls == [] then None
    else
      var rest, call := calls[..|calls| - 1], calls[|calls| - 1];
      var t := Follow(rest);
      if 0 in t.done || 0 !in Next(t, call).done then Ending(rest)
      else Some(if call.Commit? && !t.over then Committed else RolledBack)
  }

  /** The first context commits, is rolled back, or is rolled back because its base was cancelled. */
  lemma Endings()
    ensures Ending([Commit(0)]) == Some(Committed) && Ending([Rollback(0)]) == Some(RolledBack)
    ensures Ending([CancelBase, Commit(0)]) == Some(RolledBack)
    ensures Ending([Begin(0), Commit(1)]) == None && Ending([Begin(0), Rollback(1)]) == Some(RolledBack)
  {
    var a: seq<Call> := [Commit(0)];
    var b: seq<Call> := [Rollback(0)];
    var c: seq<Call> := [CancelBase, Commit(0)];
    var d: seq<Call> := [Begin(0), Commit(1)];
    var e: seq<Call> := [Begin(0), Rollback(1)];
    assert a[..0] == b[..0] == [];
    assert c[..1] == [CancelBase] && c[..1][..0] == [];
    assert d[..1] == e[..1] == [Begin(0)] && d[..1][..0] == [];
    assert Follow([CancelBase]) == Outline([{0}], {}, true);
    var begun: seq<Call> := [Begin(0)];
    assert begun[..0] == [] && ONE.up[0] == {0} && {0} + {1} == {0, 1};
    assert Next(ONE, Begin(0)) == Outline([{0}] + [{0} + {1}], {}, false);
    assert Follow(begun) == Outline([{0}, {0, 1}], {}, false);
  }

  /** Without nesting there are none. */
  lemma {:induction false} NoExtras(calls: seq<Call>)
    requires forall c <- calls :: !c.Begin?
    ensures Extras(calls) == 0 && Follow(calls).up == [{0}]
  {
    if calls != [] {
      assert calls[|calls| - 1] in calls;
      NoExtras(calls[..|calls| - 1]);
    }
  }

  /**
   Calls in any order at all, on any of the contexts begun so far.  A commit reaches the
   resource only as its first end, so never after a rollback.  Every further end is a rollback
   of an unfinished context whose first context is finished, and each of these is one.
   */
  method Calls<W(!new)>(base: Base, world: World<W>, calls: seq<Call>) returns (events: seq<Event>)
    modifies base, world
    ensures events == [] <==> old(base.cancelled)
    ensures events != [] ==> events[0] == Begun
    ensures Begun !in events[if events == [] then 0 else 1..]
    ensures forall i :: 2 <= i < |events| ==> events[i] == RolledBack
    ensures events != [] ==> |events| == 1 + (if 0 in Follow(calls).done then 1 else 0) + Extras(calls)
    ensures events != [] ==> Ending(calls) == if |events| == 1 then None else Some(events[1])
    ensures (forall c <- calls :: !c.Begin?) ==> |events| <= 2
  {
    hide EndsAs, Node.Linked, Next, Tree, Matches, Extra;
    events := [];
    var first, err := BeginTx<W>(base, null);
    if first == null {
      return;
    }
    var nodes: seq<Node<W>> := [first];
    NewTree(first);
    for c := 0 to |calls|
      invariant Tree(first, nodes) && Ends(first) && first.base == base && base.cancelled == Follow(calls[..c]).over
      invariant fresh(first.root) && fresh(first.root.rollbacks) && forall n <- nodes :: fresh(n)
      invariant Matches(nodes, Follow(calls[..c]))
      invariant |first.root.events| == 1 + (if first.done then 1 else 0) + Extras(calls[..c])
      invariant Ending(calls[..c]) == if |first.root.events| == 1 then None else Some(first.root.events[1])
    {
      assert calls[..c + 1][..c] == calls[..c] && calls[..c + 1][c] == calls[c];
      MatchesSize(nodes, Follow(calls[..c]));
      FirstMatches(first, nodes, Follow(calls[..c]));
      EndsMeaning(first.done, first.root.events);
      if calls[c].CancelBase? {
        base.cancelled := true;
        OnlyOver(nodes, Follow(calls[..c]));
      } else if calls[c].on < |nodes| {
        InTree(first, nodes, calls[c].on);
        SameOver(Follow(calls[..c]), calls[c]);
        nodes := OneCall(first, nodes, world, calls[c], Follow(calls[..c]));
        EndsMeaning(first.done, first.root.events);
      } else {
        Beyond(Follow(calls[..c]), calls[c]);
      }
    }
    assert calls[..|calls|] == calls;
    if forall c <- calls :: !c.Begin? {
      NoExtras(calls);
    }
    FirstMatches(first, nodes, Follow(calls));
    EndsMeaning(first.done, first.root.events);
    var root := first.LookupRoot();
    events := root.events;
  }

  /** The contexts begun so far: the nodes of the tree that `first` begins. */
  ghost predicate Tree<W>(first: Node<W>, nodes: seq<Node<W>>) {
    && nodes != [] && nodes[0] == first && first.chain == [first]
    && (forall i, j :: 0 <= i < j < |nodes| ==> nodes[i] != nodes[j])
    && (forall n <- nodes :: Under(first, n) && forall k <- n.chain :: k in nodes)
  }

  /** The nodes are as the outline says; one that is finished is also cancelled. */
  ghost predicate Matches<W>(nodes: seq<Node<W>>, t: Outline)
    reads nodes
  {
    && |t.up| == |nodes|
    && (forall i :: 0 <= i < |nodes| ==> (nodes[i].done <==> i in t.done) && nodes[i].cancelled == nodes[i].done)
    && (forall i, k :: 0 <= i < |nodes| && 0 <= k < |nodes| ==> (nodes[k] in nodes[i].chain <==> k in t.up[i]))
    && (forall i, k :: 0 <= i < |nodes| && k in t.up[i] ==> k < |nodes|)
    && (forall k <- t.done :: k < |nodes|)
  }

  lemma NewTree<W>(first: Node<W>)
    requires first.Linked() && first.chain == [first] && !first.done && !first.cancelled && first.root.events == [Begun]
    ensures Tree(first, [first]) && Matches([first], ONE) && Ends(first)
  {
  }

  lemma EndsMeaning(done: bool, events: seq<Event>)
    requires EndsAs(done, events)
    ensures events != [] && events[0] == Begun && Begun !in events[1..] && (done <==> 2 <= |events|)
    ensures forall i :: 2 <= i < |events| ==> events[i] == RolledBack
  {
  }

  lemma MatchesSize<W>(nodes: seq<Node<W>>, t: Outline)
    requires Matches(nodes, t)
    ensures |nodes| == |t.up|
  {
  }

  /** Cancelling the base changes no context's own state. */
  lemma OnlyOver<W>(nodes: seq<Node<W>>, t: Outline)
    requires Matches(nodes, t)
    ensures Matches(nodes, Next(t, CancelBase)) && !Extra(t, CancelBase)
    ensures Next(t, CancelBase).over && Next(t, CancelBase).done == t.done
  {
  }

  lemma SameOver(t: Outline, call: Call)
    requires !call.CancelBase?
    ensures Next(t, call).over == t.over
  {
  }

  lemma Beyond(t: Outline, call: Call)
    requires !call.CancelBase? && call.on >= |t.up|
    ensures Next(t, call) == t && !Extra(t, call)
  {
  }

  lemma InTree<W>(first: Node<W>, nodes: seq<Node<W>>, on: nat)
    requires Tree(first, nodes) && on < |nodes|
    ensures nodes[on] in nodes && (forall k <- nodes[on].chain :: k in nodes)
    ensures Under(first, nodes[on]) && nodes[on].Linked() && first in nodes[on].chain && nodes[on].root == first.root
  {
  }

  lemma FirstMatches<W>(first: Node<W>, nodes: seq<Node<W>>, t: Outline)
    requires Tree(first, nodes) && Matches(nodes, t)
    ensures first.Linked() && (first.done <==> 0 in t.done)
  {
    assert first in nodes;
  }

  /**
   One call on one of the contexts.  When the first context is finished, the call reaches the
   resource exactly if it rolls back an unfinished one.
   */
  method OneCall<W>(first: Node<W>, nodes: seq<Node<W>>, world: World<W>, call: Call, ghost t: Outline)
      returns (nodes': seq<Node<W>>)
    requires Tree(first, nodes) && Ends(first) && Matches(nodes, t) && first.base.cancelled == t.over
    requires !call.CancelBase? && call.on < |nodes|
    modifies nodes[call.on].chain, first.root, first.root.rollbacks, world
    ensures Tree(first, nodes') && Ends(first) && Matches(nodes', Next(t, call))
    ensures forall n <- nodes' :: n in nodes || fresh(n)
    ensures old(first.done) ==> first.done
    ensures first.done <==> 0 in Next(t, call).done
    ensures old(first.done) <==> 0 in t.done
    ensures !old(first.done) ==>
      first.root.events == old(first.root.events) +
        (if !first.done then [] else if call.Commit? && !t.over then [Committed] else [RolledBack])
    ensures |first.root.events| ==
      |old(first.root.events)| + (if first.done && !old(first.done) then 1 else 0) + (if Extra(t, call) then 1 else 0)
    ensures old(first.done) ==>
      first.root.events == old(first.root.events) +
        (if call.Rollback? && !old(nodes[call.on].done) then [RolledBack] else [])
  {
    hide Restored, Order, Errors;
    FirstMatches(first, nodes, t);
    match call
    case Begin(on) => nodes' := CallBegin(first, nodes, on, t);
    case Commit(on) =>
      nodes' := nodes;
      CallCommit(first, nodes, world, on, t);
    case Rollback(on) =>
      nodes' := nodes;
      CallRollback(first, nodes, world, on, t);
  }

  method CallBegin<W>(first: Node<W>, nodes: seq<Node<W>>, on: nat, ghost t: Outline) returns (nodes': seq<Node<W>>)
    requires Tree(first, nodes) && Matches(nodes, t) && on < |nodes| && first.base.cancelled == t.over
    ensures Tree(first, nodes') && Matches(nodes', Next(t, Begin(on)))
    ensures forall n <- nodes' :: n in nodes || fresh(n)
  {
    var node := nodes[on];
    assert Under(first, node);
    OverIffDone(first, nodes, on, t);
    var sub, err := BeginTx(node.base, node);
    nodes' := nodes;
    if sub != null {
      nodes' := nodes + [sub];
      TreeGrows(first, nodes, sub, on, t);
    }
  }

  /** A context of the tree is over exactly when one on its way up is finished. */
  lemma OverIffDone<W>(first: Node<W>, nodes: seq<Node<W>>, on: nat, t: Outline)
    requires Tree(first, nodes) && Matches(nodes, t) && on < |nodes| && first.base.cancelled == t.over
    ensures nodes[on].Linked() && (nodes[on].Over() <==> t.over || !(t.up[on] !! t.done))
  {
    var node := nodes[on];
    assert Under(first, node);
    if node.Over() && !t.over {
      var i :| 0 <= i < |node.chain| && node.chain[i].cancelled;
      assert node.chain[i] in node.chain;
      var k :| 0 <= k < |nodes| && nodes[k] == node.chain[i];
      assert k in t.up[on] && k in t.done;
    }
    if k :| k in t.up[on] && k in t.done {
      assert nodes[k] in node.chain;
    }
  }

  lemma TreeGrows<W>(first: Node<W>, nodes: seq<Node<W>>, sub: Node<W>, on: nat, t: Outline)
    requires Tree(first, nodes) && Matches(nodes, t) && on < |nodes| && !t.over && t.up[on] !! t.done
    requires sub !in nodes && Under(first, sub) && sub.chain == nodes[on].chain + [sub] && !sub.done && !sub.cancelled
    ensures Tree(first, nodes + [sub]) && Matches(nodes + [sub], Next(t, Begin(on)))
  {
    hide Under, Node.Linked;
    assert forall i :: 0 <= i < |nodes| ==> nodes[i] in nodes && sub !in nodes[i].chain;
    MatchesMore(nodes, sub, on, t);
    hide Matches;
    var all := nodes + [sub];
    forall n | n in all ensures Under(first, n) && forall k <- n.chain :: k in all {
      assert n in nodes || n == sub;
      assert nodes[on] in nodes;
    }
  }

  /** Only the first context is on its own way up. */
  lemma OwnPath<W>(first: Node<W>, nodes: seq<Node<W>>, t: Outline)
    requires Tree(first, nodes) && Matches(nodes, t)
    ensures t.up[0] == {0}
  {
    forall k: nat ensures k in t.up[0] <==> k == 0 {
      assert k < |nodes| ==> (nodes[k] in nodes[0].chain <==> k in t.up[0]);
      assert k < |nodes| && k != 0 ==> nodes[0] != nodes[k];
    }
  }

  lemma MatchesMore<W>(nodes: seq<Node<W>>, sub: Node<W>, on: nat, t: Outline)
    requires Matches(nodes, t) && on < |nodes| && !t.over && t.up[on] !! t.done
    requires sub !in nodes && sub.chain == nodes[on].chain + [sub] && !sub.done && !sub.cancelled
    requires forall i :: 0 <= i < |nodes| ==> sub !in nodes[i].chain
    ensures Matches(nodes + [sub], Next(t, Begin(on)))
  {
    var n, all, u := |nodes|, nodes + [sub], Next(t, Begin(on));
    assert u.up == t.up + [t.up[on] + {n}] && u.done == t.done;
    forall i, k | 0 <= i <= n && 0 <= k <= n ensures all[k] in all[i].chain <==> k in u.up[i] {
      assert k < n ==> all[k] == nodes[k] && nodes[k] != sub;
      assert i < n ==> all[i] == nodes[i] && u.up[i] == t.up[i];
    }
  }

  method CallCommit<W>(first: Node<W>, nodes: seq<Node<W>>, world: World<W>, on: nat, ghost t: Outline)
    requires Tree(first, nodes) && Ends(first) && Matches(nodes, t) && on < |nodes| && first.base.cancelled == t.over
    modifies nodes[on], first.root, first.root.rollbacks, world
    ensures Ends(first) && Matches(nodes, Next(t, Commit(on)))
    ensures old(first.done) ==> first.done && first.root.events == old(first.root.events)
    ensures !old(first.done) ==>
      first.root.events == old(first.root.events) +
        (if !first.done then [] else if t.over then [RolledBack] else [Committed])
  {
    var node := nodes[on];
    assert Under(first, node);
    OverIffDone(first, nodes, on, t);
    OwnPath(first, nodes, t);
    var err := CommitTx(node, world);
  }

  lemma OneMoreEnd(done: bool, events: seq<Event>)
    requires EndsAs(done, events)
    ensures EndsAs(true, events + [RolledBack])
  {
  }

  method CallRollback<W>(first: Node<W>, nodes: seq<Node<W>>, world: World<W>, on: nat, ghost t: Outline)
    requires Tree(first, nodes) && Ends(first) && Matches(nodes, t) && on < |nodes|
    modifies nodes[on].chain, first.root, first.root.rollbacks, world
    ensures Ends(first) && Matches(nodes, Next(t, Rollback(on)))
    ensures old(first.done) ==> first.done
    ensures first.root.events == old(first.root.events) + (if old(nodes[on].done) then [] else [RolledBack])
    ensures !old(nodes[on].done) ==> first.done
  {
    hide Restored, Order, Errors, Wrapped, Node.Linked, EndsAs;
    var node := nodes[on];
    ghost var was := node.done;
    InTree(first, nodes, on);
    ghost var ended, events := first.done, first.root.events;
    var err := RollbackTx(node, world);
    OneMoreEnd(ended, events);
    forall i | 0 <= i < |nodes|
      ensures (nodes[i].done <==> i in Next(t, Rollback(on)).done) && nodes[i].cancelled == nodes[i].done
    {
      if nodes[i] in node.chain {
        assert i in t.up[on];
      } else {
        assert i !in t.up[on];
      }
    }
  }

  /** The resource begins once, and is ended once its first context is finished. */
  ghost predicate Ends<W>(first: Node<W>)
    reads first, first.root
  {
    EndsAs(first.done, first.root.events)
  }

  ghost predicate EndsAs(done: bool, events: seq<Event>) {
    && 0 < |events| && events[0] == Begun
    && (!done <==> |events| == 1)
    && (forall i :: 1 <= i < |events| ==> events[i] != Begun)
    && (forall i :: 2 <= i < |events| ==> events[i] == RolledBack)
  }

  /** Two open siblings end the resource twice. */
  method Siblings(base: Base, world: World<int>) returns (events: seq<Event>)
    requires !base.cancelled
    modifies world
    ensures events == [Begun, RolledBack, RolledBack]
  {
    hide Node.Linked, Restored, Order, Errors;
    var first, err := BeginTx<int>(base, null);
    assert !first.Over();
    var a, errA := BeginTx(base, first);
    assert !first.Over();
    var b, errB := BeginTx(base, first);
    var root := first.LookupRoot();
    BothRollBack(first, a, b, world);
    events := root.events;
  }

  method BothRollBack<W>(first: Node<W>, a: Node<W>, b: Node<W>, world: World<W>)
    requires a.Linked() && b.Linked() && a.root == b.root == first.root
    requires a.chain == [first, a] && b.chain == [first, b] && a != b && a != first && b != first
    requires !a.done && !b.done
    modifies first, a, b, first.root, first.root.rollbacks, world
    ensures first.root.events == old(first.root.events) + [RolledBack, RolledBack]
  {
    hide Node.Linked, Restored, Order, Errors;
    var err := RollbackTx(a, world);
    err := RollbackTx(b, world);
  }

  /**
   So does a child that is rolled back after its parent committed: a step the resource had
   committed is then compensated.
   */
  method Orphan(base: Base, world: World<int>) returns (events: seq<Event>, committed: int)
    requires !base.cancelled
    modifies world
    ensures events == [Begun, Committed, RolledBack]
    ensures committed == old(world.w) + 1 && world.w == old(world.w)
  {
    hide Node.Linked, Restored, Order, Errors;
    var first, err := BeginTx<int>(base, null);
    var undo := Fn((n: int) => n - 1, 0, []);
    NothingLeft(world.w);
    Compensated([], undo, world.w, world.w + 1);
    world.w := world.w + 1;
    err := OnRollback(first, undo);
    var child, errChild := BeginTx(base, first);
    err := CommitTx(first, world);
    committed := world.w;
    err := RollbackTx(child, world);
    var root := first.LookupRoot();
    events := root.events;
  }

  /** A context of the tree that `first` begins. */
  ghost predicate Under<W>(first: Node<W>, n: Node<W>) {
    n.Linked() && n.root == first.root && n.base == first.base && n.chain[0] == first && (|n.chain| == 1 ==> n == first)
  }
}
