/**
 LIFO teardown (`pkg/teardown/Teardown.go`).

 A deferred function acts on a world, may report an error, and may defer further functions
 to the teardown that is running it.
 */
module Teardowns {
  /** A deferred function; `err` is 0 when it reports no error. */
  datatype Fn<!W> = Fn(effect: W -> W, err: int, defers: seq<Fn<W>>)

  class World<W> {
    var w: W

    constructor (w: W)
      ensures this.w == w
    {
      this.w := w;
    }
  }

  function Reversed<T>(s: seq<T>): (r: seq<T>)
    ensures |r| == |s|
    ensures forall i :: 0 <= i < |s| ==> r[i] == s[|s| - 1 - i]
  {
    if s == [] then [] else [s[|s| - 1]] + Reversed(s[..|s| - 1])
  }

  /** The functions in `fns` and all they defer, however deeply. */
  function Size<W>(fns: seq<Fn<W>>): nat
    decreases fns
  {
    if fns == [] then 0
    else 1 + Size(fns[|fns| - 1].defers) + Size(fns[..|fns| - 1])
  }

  ghost function All<W>(fns: seq<Fn<W>>): multiset<Fn<W>>
    decreases fns
  {
    if fns == [] then multiset{}
    else multiset{fns[|fns| - 1]} + All(fns[|fns| - 1].defers) + All(fns[..|fns| - 1])
  }

  /** What the functions defer, in the order in which they run: the last first. */
  function Deferred<W>(fns: seq<Fn<W>>): seq<Fn<W>> {
    if fns == [] then []
    else fns[|fns| - 1].defers + Deferred(fns[..|fns| - 1])
  }

  lemma {:induction false} SizeConcat<W>(a: seq<Fn<W>>, b: seq<Fn<W>>)
    ensures Size(a + b) == Size(a) + Size(b) && All(a + b) == All(a) + All(b)
  {
    if b == [] {
      assert a + b == a;
    } else {
      assert (a + b)[..|a + b| - 1] == a + b[..|b| - 1];
      SizeConcat(a, b[..|b| - 1]);
    }
  }

  /** Each round runs the queued functions; what is left to run is what they deferred. */
  lemma {:induction false} SizeDeferred<W>(fns: seq<Fn<W>>)
    ensures Size(Deferred(fns)) == Size(fns) - |fns|
    ensures All(fns) == multiset(fns) + All(Deferred(fns))
  {
    if fns != [] {
      var n := |fns| - 1;
      assert fns == fns[..n] + [fns[n]];
      SizeConcat(fns[n].defers, Deferred(fns[..n]));
      SizeDeferred(fns[..n]);
    }
  }

  /** The order in which Finish runs everything: rounds, each from the last to the first. */
  function Order<W>(fns: seq<Fn<W>>): seq<Fn<W>>
    decreases Size(fns)
  {
    if fns == [] then []
    else SizeDeferred(fns); Reversed(fns) + Order(Deferred(fns))
  }

  lemma {:induction false} ReversedBag<T>(s: seq<T>)
    ensures multiset(Reversed(s)) == multiset(s)
  {
    if s != [] {
      ReversedBag(s[..|s| - 1]);
      assert s == s[..|s| - 1] + [s[|s| - 1]];
    }
  }

  /** Everything deferred, at any depth, runs exactly once. */
  lemma {:induction false} RunsOnce<W>(fns: seq<Fn<W>>)
    ensures multiset(Order(fns)) == All(fns) && |Order(fns)| == Size(fns)
    decreases Size(fns)
  {
    if fns != [] {
      SizeDeferred(fns);
      ReversedBag(fns);
      RunsOnce(Deferred(fns));
    }
  }

  ghost predicate Flat<W>(fns: seq<Fn<W>>) {
    forall i :: 0 <= i < |fns| ==> fns[i].defers == []
  }

  /** Functions that defer nothing run last in, first out. */
  lemma {:induction false} FlatOrder<W>(fns: seq<Fn<W>>)
    requires Flat(fns)
    ensures Deferred(fns) == [] && Order(fns) == Reversed(fns)
  {
    if fns != [] {
      FlatOrder(fns[..|fns| - 1]);
    }
  }

  /** What functions run in this order make of a world, and the errors they report. */
  function Outcome<W>(order: seq<Fn<W>>, w: W): W {
    if order == [] then w else Outcome(order[1..], order[0].effect(w))
  }

  function Errors<W>(order: seq<Fn<W>>): seq<int> {
    if order == [] then []
    else (if order[0].err == 0 then [] else [order[0].err]) + Errors(order[1..])
  }

  /** Every error that is reported is, as often as it is. */
  lemma {:induction false} ErrorsExact<W>(order: seq<Fn<W>>)
    ensures |Errors(order)| == |Failing(order)|
    ensures forall i :: 0 <= i < |Failing(order)| ==> Errors(order)[i] == order[Failing(order)[i]].err != 0
    ensures forall k :: 0 <= k < |order| && order[k].err != 0 ==> k in Failing(order)
  {
    if order != [] {
      var n := |order| - 1;
      ErrorsExact(order[..n]);
      ErrorsLast(order[..n], order[n]);
      assert order == order[..n] + [order[n]];
    }
  }

  lemma {:induction false} ErrorsLast<W>(order: seq<Fn<W>>, fn: Fn<W>)
    ensures Errors(order + [fn]) == Errors(order) + if fn.err == 0 then [] else [fn.err]
  {
    if order == [] {
      assert [fn][1..] == [];
    } else {
      assert (order + [fn])[1..] == order[1..] + [fn];
      ErrorsLast(order[1..], fn);
    }
  }

  /** The places of the functions that report an error, in order. */
  function Failing<W>(order: seq<Fn<W>>): (r: seq<nat>)
    ensures forall i :: 0 <= i < |r| ==> r[i] < |order|
    ensures forall i, j :: 0 <= i < j < |r| ==> r[i] < r[j]
  {
    if order == [] then []
    else
      var n := |order| - 1;
      Failing(order[..n]) + if order[n].err != 0 then [n] else []
  }

  lemma {:induction false} OutcomeConcat<W>(a: seq<Fn<W>>, b: seq<Fn<W>>, w: W)
    ensures Outcome(a + b, w) == Outcome(b, Outcome(a, w))
    ensures Errors(a + b) == Errors(a) + Errors(b)
  {
    if a == [] {
      assert a + b == b;
    } else {
      assert (a + b)[1..] == a[1..] + b;
      OutcomeConcat(a[1..], b, a[0].effect(w));
    }
  }

  /** The world once everything deferred has run. */
  function Restored<W>(fns: seq<Fn<W>>, w: W): W {
    Outcome(Order(fns), w)
  }

  /** A compensation registered after its step cancels the step out. */
  lemma Compensated<W>(fns: seq<Fn<W>>, fn: Fn<W>, before: W, after: W)
    requires Flat(fns) && fn.defers == [] && fn.effect(after) == before
    ensures Flat(fns + [fn]) && Restored(fns + [fn], after) == Restored(fns, before)
  {
    FlatOrder(fns);
    FlatOrder(fns + [fn]);
    assert (fns + [fn])[..|fns|] == fns;
    assert Reversed(fns + [fn]) == [fn] + Reversed(fns);
    assert ([fn] + Reversed(fns))[1..] == Reversed(fns);
  }

  /** The last function of a round runs first. */
  lemma LastFirst<W>(fns: seq<Fn<W>>, w: W)
    requires fns != []
    ensures Deferred(fns) == fns[|fns| - 1].defers + Deferred(fns[..|fns| - 1])
    ensures Outcome(Reversed(fns), w) == Outcome(Reversed(fns[..|fns| - 1]), fns[|fns| - 1].effect(w))
    ensures Errors(Reversed(fns)) ==
      (if fns[|fns| - 1].err == 0 then [] else [fns[|fns| - 1].err]) + Errors(Reversed(fns[..|fns| - 1]))
  {
    assert Reversed(fns)[1..] == Reversed(fns[..|fns| - 1]);
  }

  lemma NoneRun<W>(w: W)
    ensures Deferred<W>([]) == [] && Outcome(Reversed<Fn<W>>([]), w) == w && Errors(Reversed<Fn<W>>([])) == []
  {
  }

  lemma NothingLeft<W>(w: W)
    ensures Restored([], w) == w && Errors(Order<W>([])) == []
  {
  }

  /** One round ahead of the rest. */
  lemma RoundFirst<W>(fns: seq<Fn<W>>, w: W)
    requires fns != []
    ensures Size(Deferred(fns)) < Size(fns)
    ensures Restored(fns, w) == Restored(Deferred(fns), Outcome(Reversed(fns), w))
    ensures Errors(Order(fns)) == Errors(Reversed(fns)) + Errors(Order(Deferred(fns)))
  {
    SizeDeferred(fns);
    OutcomeConcat(Reversed(fns), Order(Deferred(fns)), w);
  }

  class Teardown<W> {
    var fns: seq<Fn<W>>

    constructor ()
      ensures fns == []
    {
      fns := [];
    }

    method Defer(fn: Fn<W>)
      modifies this
      ensures fns == old(fns) + [fn]
    {
      fns := fns + [fn];
    }

    predicate IsEmpty()
      reads this
    {
      fns == []
    }

    /** What a running function may do to the teardown. */
    method DeferAll(more: seq<Fn<W>>)
      modifies this
      ensures fns == old(fns) + more
    {
      for k := 0 to |more|
        invariant fns == old(fns) + more[..k]
      {
        Defer(more[k]);
      }
    }

    /** One round: the queue is swapped out and run from its end; new functions queue up. */
    method Run(world: World<W>) returns (errs: seq<int>)
      modifies this, world
      ensures fns == Deferred(old(fns))
      ensures world.w == Outcome(Reversed(old(fns)), old(world.w))
      ensures errs == Errors(Reversed(old(fns)))
    {
      hide Deferred, Reversed, Outcome, Errors;
      var queue := fns;
      fns := [];
      errs := [];
      var i := |queue|;
      assert queue[..i] == queue;
      while i > 0
        invariant 0 <= i <= |queue|
        invariant Deferred(queue) == fns + Deferred(queue[..i])
        invariant Outcome(Reversed(queue), old(world.w)) == Outcome(Reversed(queue[..i]), world.w)
        invariant Errors(Reversed(queue)) == errs + Errors(Reversed(queue[..i]))
      {
        LastFirst(queue[..i], world.w);
        assert queue[..i][..i - 1] == queue[..i - 1];
        i := i - 1;
        var fn := queue[i];
        world.w := fn.effect(world.w);
        DeferAll(fn.defers);
        if fn.err != 0 {
          errs := errs + [fn.err];
        }
      }
      NoneRun(world.w);
      assert queue[..0] == [];
    }

    /** Runs everything, and what that defers, until nothing is left; it always ends. */
    method Finish(world: World<W>) returns (errs: seq<int>)
      modifies this, world
      ensures fns == []
      ensures world.w == Restored(old(fns), old(world.w))
      ensures errs == Errors(Order(old(fns)))
    {
      hide Restored, Order, Size, Deferred, Reversed, Outcome;
      errs := [];
      while !IsEmpty()
        invariant Restored(fns, world.w) == Restored(old(fns), old(world.w))
        invariant errs + Errors(Order(fns)) == Errors(Order(old(fns)))
        decreases Size(fns)
      {
        RoundFirst(fns, world.w);
        var more := Run(world);
        errs := errs + more;
      }
      NothingLeft(world.w);
    }
  }
}
