/**
 The dynamic concurrency limiter (`pkg/synckit/synckit.go`).

 Every step runs under the limiter's mutex.  A goroutine that finds no room parks on the
 condition variable; a signal or broadcast makes it pending, and a pending goroutine looks
 again when it gets the mutex.  Which parked goroutine a signal wakes is left open.
 */
module ConcurrencyLimiter {
  import opened Common

  type Id = nat

  datatype State = State(limit: int, held: nat, parked: set<Id>, pending: set<Id>) {
    predicate HasRoom() {
      limit == 0 || (0 < limit && held < limit)
    }

    /** How many more could hold a limited limiter. */
    function Room(): nat {
      if held < limit then limit - held else 0
    }
  }

  datatype Step =
    | Lock(id: Id)
    | Resume(id: Id)
    | TryLock
    | Unlock(wakes: Id)
    | SetLimit(n: int)

  const INIT := State(0, 0, {}, {})

  /** A goroutine calls Lock when it is neither parked nor pending; a signal wakes a parked one. */
  predicate Enabled(s: State, step: Step) {
    match step
    case Lock(id) => id !in s.parked && id !in s.pending
    case Resume(id) => id in s.pending
    case TryLock => true
    case Unlock(wakes) => s.held != 0 && s.parked != {} ==> wakes in s.parked
    case SetLimit(_) => true
  }

  /** Who acquires the limiter in this step: nobody, or one caller. */
  predicate Acquires(s: State, step: Step) {
    (step.Lock? || step.Resume? || step.TryLock?) && s.HasRoom()
  }

  predicate Releases(s: State, step: Step) {
    step.Unlock? && s.held != 0
  }

  function Next(s: State, step: Step): State
    requires Enabled(s, step)
  {
    match step
    case Lock(id) =>
      if s.HasRoom() then s.(held := s.held + 1) else s.(parked := s.parked + {id})
    case Resume(id) =>
      if s.HasRoom() then s.(held := s.held + 1, pending := s.pending - {id})
      else s.(pending := s.pending - {id}, parked := s.parked + {id})
    case TryLock =>
      if s.HasRoom() then s.(held := s.held + 1) else s
    case Unlock(wakes) =>
      if s.held == 0 then s
      else if s.parked == {} then s.(held := s.held - 1)
      else s.(held := s.held - 1, parked := s.parked - {wakes}, pending := s.pending + {wakes})
    case SetLimit(n) =>
      if s.limit == n then s
      else if s.(limit := n).HasRoom() then State(n, s.held, {}, s.pending + s.parked)
      else s.(limit := n)
  }

  /** No wakeup is lost: free places and parked goroutines only coexist with enough pending ones. */
  predicate Inv(s: State) {
    && s.parked !! s.pending
    && (s.parked != {} && s.HasRoom() ==> 0 < s.limit && s.limit - s.held <= |s.pending|)
  }

  lemma StepInv(s: State, step: Step)
    requires Inv(s) && Enabled(s, step)
    ensures Inv(Next(s, step))
  {
    match step
    case Resume(id) =>
      assert |s.pending - {id}| == |s.pending| - 1;
    case Unlock(wakes) =>
      if s.held != 0 && s.parked != {} {
        assert |s.pending + {wakes}| == |s.pending| + 1;
      }
    case _ =>
  }

  predicate Legal(s: State, steps: seq<Step>)
    decreases |steps|, 0
  {
    steps == [] ||
    (var rest := steps[..|steps| - 1];
     Legal(s, rest) && Enabled(Exec(s, rest), steps[|steps| - 1]))
  }

  function Exec(s: State, steps: seq<Step>): State
    requires Legal(s, steps)
    decreases |steps|, 1
  {
    if steps == [] then s
    else Next(Exec(s, steps[..|steps| - 1]), steps[|steps| - 1])
  }

  function Acquired(s: State, steps: seq<Step>): nat
    requires Legal(s, steps)
    decreases |steps|
  {
    if steps == [] then 0
    else
      var rest, last := steps[..|steps| - 1], steps[|steps| - 1];
      Acquired(s, rest) + if Acquires(Exec(s, rest), last) then 1 else 0
  }

  function Released(s: State, steps: seq<Step>): nat
    requires Legal(s, steps)
    decreases |steps|
  {
    if steps == [] then 0
    else
      var rest, last := steps[..|steps| - 1], steps[|steps| - 1];
      Released(s, rest) + if Releases(Exec(s, rest), last) then 1 else 0
  }

  /** In every reachable state: no lost wakeup, and the count of holders is exact. */
  lemma {:induction false} RunInv(s: State, steps: seq<Step>)
    requires Inv(s) && Legal(s, steps)
    ensures Inv(Exec(s, steps))
    ensures Exec(s, steps).held == s.held + Acquired(s, steps) - Released(s, steps)
  {
    if steps != [] {
      var rest := steps[..|steps| - 1];
      RunInv(s, rest);
      StepInv(Exec(s, rest), steps[|steps| - 1]);
    }
  }

  /** Once nobody is pending, somebody stays parked only while the limiter is full or disabled. */
  lemma Settled(steps: seq<Step>)
    requires Legal(INIT, steps)
    ensures var s := Exec(INIT, steps);
      s.pending == {} && s.parked != {} ==> s.limit < 0 || (0 < s.limit <= s.held)
    ensures Exec(INIT, steps).limit == 0 ==> Exec(INIT, steps).parked == {}
  {
    RunInv(INIT, steps);
  }

  /** An acquisition leaves a positive limit respected, and none happens while disabled. */
  lemma AcquireWithin(s: State, step: Step)
    requires Enabled(s, step)
    ensures Acquires(s, step) <==> s.held < Next(s, step).held
    ensures Acquires(s, step) ==> 0 <= s.limit && (0 < s.limit ==> Next(s, step).held <= s.limit)
  {
  }

  /** No waiting goroutine is forgotten: only an acquisition takes one out of those that wait. */
  lemma NobodyForgotten(s: State, step: Step, id: Id)
    requires Enabled(s, step) && id in s.parked + s.pending
    ensures id in Next(s, step).parked + Next(s, step).pending || (step == Resume(id) && s.HasRoom())
  {
  }

  /** Whoever asked and did not acquire waits. */
  lemma AsksThenWaits(s: State, step: Step)
    requires Enabled(s, step) && (step.Lock? || step.Resume?)
    ensures s.HasRoom() || step.id in Next(s, step).parked
  {
  }

  /** As long as nobody lowers the limit, it is never exceeded. */
  lemma {:induction false} NeverExceeded(s: State, steps: seq<Step>, bound: nat)
    requires Legal(s, steps) && s.held <= bound && s.limit != 0 && s.limit <= bound
    requires forall i :: 0 <= i < |steps| && steps[i].SetLimit? ==> steps[i].n != 0 && steps[i].n <= bound
    ensures Exec(s, steps).held <= bound && Exec(s, steps).limit != 0 && Exec(s, steps).limit <= bound
  {
    if steps != [] {
      NeverExceeded(s, steps[..|steps| - 1], bound);
    }
  }

  /** The pending goroutines get the mutex one after the other, and nothing else happens. */
  function Resumes(order: seq<Id>): (steps: seq<Step>)
    ensures |steps| == |order|
    ensures order != [] ==> steps[..|order| - 1] == Resumes(order[..|order| - 1])
    ensures order != [] ==> steps[|order| - 1] == Resume(order[|order| - 1])
  {
    if order == [] then [] else Resumes(order[..|order| - 1]) + [Resume(order[|order| - 1])]
  }

  ghost predicate Distinct(order: seq<Id>) {
    forall i, j :: 0 <= i < j < |order| ==> order[i] != order[j]
  }

  function Ids(order: seq<Id>): (r: set<Id>)
    ensures forall id :: id in r <==> id in order
  {
    if order == [] then {} else Ids(order[..|order| - 1]) + {order[|order| - 1]}
  }

  lemma {:induction false} SizeOf(order: seq<Id>)
    requires Distinct(order)
    ensures |Ids(order)| == |order|
  {
    if order != [] {
      var n := |order| - 1;
      SizeOf(order[..n]);
      assert order[n] !in order[..n];
    }
  }

  /** One more pending goroutine runs. */
  lemma ResumeOne(t: State, id: Id)
    requires id in t.pending
    ensures var u := Next(t, Resume(id));
      && u.limit == t.limit && u.pending == t.pending - {id}
      && u.held == t.held + (if t.limit == 0 then 1 else Min(1, t.Room()))
  {
  }

  /** However they are ordered, as many pending goroutines acquire as there is room for. */
  lemma {:induction false} Admitted(s: State, order: seq<Id>)
    requires Distinct(order) && forall i :: 0 <= i < |order| ==> order[i] in s.pending
    ensures Legal(s, Resumes(order))
    ensures var t := Exec(s, Resumes(order));
      && t.limit == s.limit && t.pending == s.pending - Ids(order)
      && t.held == s.held + (if s.limit == 0 then |order| else Min(|order|, s.Room()))
    decreases |order|
  {
    if order != [] {
      var n := |order| - 1;
      Admitted(s, order[..n]);
      var t := Exec(s, Resumes(order[..n]));
      assert order[n] in s.pending && order[n] !in order[..n];
      assert Legal(s, Resumes(order));
      ResumeOne(t, order[n]);
    }
  }

  /** Once all of them ran, nobody is parked beside a free place. */
  lemma Settle(s: State, order: seq<Id>)
    requires Inv(s) && Distinct(order) && |order| == |s.pending|
    requires forall i :: 0 <= i < |order| ==> order[i] in s.pending
    ensures Legal(s, Resumes(order))
    ensures var t := Exec(s, Resumes(order));
      t.pending == {} && (t.HasRoom() ==> t.parked == {})
  {
    Admitted(s, order);
    SizeOf(order);
    SubsetOfSize(Ids(order), s.pending);
    RunInv(s, Resumes(order));
  }

  lemma SubsetOfSize(a: set<Id>, b: set<Id>)
    requires a <= b && |a| == |b|
    ensures a == b
  {
    assert |b - a| == |b| - |a|;
  }

  class Limiter {
    var limit: int
    var held: nat
    /** The condition variable: who waits on it, and who was woken and did not run yet. */
    var parked: set<Id>
    var pending: set<Id>

    ghost function View(): State
      reads this
    {
      State(limit, held, parked, pending)
    }

    constructor ()
      ensures View() == INIT
    {
      limit, held, parked, pending := 0, 0, {}, {};
    }

    predicate HasRoom()
      reads this
      ensures HasRoom() == View().HasRoom()
    {
      if limit < 0 then false
      else if limit == 0 then true
      else held < limit
    }

    /** Lock up to its first wait, or to its end. */
    method Lock(id: Id) returns (acquired: bool)
      requires Enabled(View(), Step.Lock(id))
      modifies this
      ensures View() == Next(old(View()), Step.Lock(id))
      ensures acquired == Acquires(old(View()), Step.Lock(id)) && (!acquired ==> id in parked)
      ensures acquired <==> old(limit) == 0 || (0 < old(limit) && old(held) < old(limit))
      ensures limit == old(limit) && held == old(held) + if acquired then 1 else 0
    {
      acquired := HasRoom();
      if acquired {
        held := held + 1;
      } else {
        parked := parked + {id};
      }
    }

    /** The wait loop of Lock, once round: the room is checked again after every wake. */
    method Resume(id: Id) returns (acquired: bool)
      requires Enabled(View(), Step.Resume(id))
      modifies this
      ensures View() == Next(old(View()), Step.Resume(id))
      ensures acquired == Acquires(old(View()), Step.Resume(id)) && (!acquired ==> id in parked)
      ensures acquired <==> old(limit) == 0 || (0 < old(limit) && old(held) < old(limit))
      ensures limit == old(limit) && held == (old(held) + if acquired then 1 else 0) && id !in pending
    {
      pending := pending - {id};
      acquired := HasRoom();
      if acquired {
        held := held + 1;
      } else {
        parked := parked + {id};
      }
    }

    method TryLock() returns (ok: bool)
      modifies this
      ensures View() == Next(old(View()), Step.TryLock) && ok == Acquires(old(View()), Step.TryLock)
      ensures ok <==> old(limit) == 0 || (0 < old(limit) && old(held) < old(limit))
      ensures limit == old(limit) && held == (old(held) + if ok then 1 else 0)
      ensures parked == old(parked) && pending == old(pending)
    {
      ok := HasRoom();
      if ok {
        held := held + 1;
      }
    }

    /** Unlocking what nobody holds is a panic and changes nothing. */
    method Unlock(wakes: Id) returns (panics: bool)
      requires Enabled(View(), Step.Unlock(wakes))
      modifies this
      ensures View() == Next(old(View()), Step.Unlock(wakes)) && panics == (old(held) == 0)
      ensures limit == old(limit) && held == old(held) - (if panics then 0 else 1)
      ensures if !panics && old(parked) != {}
              then wakes in old(parked) && parked == old(parked) - {wakes} && pending == old(pending) + {wakes}
              else parked == old(parked) && pending == old(pending)
    {
      panics := held == 0;
      if !panics {
        held := held - 1;
        if parked != {} {
          parked, pending := parked - {wakes}, pending + {wakes};
        }
      }
    }

    method SetLimit(n: int)
      modifies this
      ensures View() == Next(old(View()), Step.SetLimit(n))
      ensures limit == n && held == old(held)
      ensures if old(limit) != n && (n == 0 || (0 < n && held < n))
              then parked == {} && pending == old(pending) + old(parked)
              else parked == old(parked) && pending == old(pending)
    {
      if limit == n {
        return;
      }
      limit := n;
      if HasRoom() {
        parked, pending := {}, pending + parked;
      }
    }

    method Perform(step: Step) returns (acquired: bool)
      requires Enabled(View(), step)
      modifies this
      ensures View() == Next(old(View()), step) && acquired == Acquires(old(View()), step)
    {
      acquired := false;
      match step
      case Lock(id) => acquired := Lock(id);
      case Resume(id) => acquired := Resume(id);
      case TryLock => acquired := TryLock();
      case Unlock(wakes) => var panics := Unlock(wakes);
      case SetLimit(n) => SetLimit(n);
    }
  }

  /** Any interleaving of calls on a new limiter. */
  method Run(steps: seq<Step>) returns (limiter: Limiter, acquired: nat)
    requires Legal(INIT, steps)
    ensures fresh(limiter) && limiter.View() == Exec(INIT, steps) && Inv(limiter.View())
    ensures acquired == Acquired(INIT, steps)
  {
    limiter := new Limiter();
    acquired := 0;
    LegalPrefixes(INIT, steps);
    assert steps[..0] == [];
    for i := 0 to |steps|
      invariant fresh(limiter) && Legal(INIT, steps[..i])
      invariant limiter.View() == Exec(INIT, steps[..i])
      invariant acquired == Acquired(INIT, steps[..i])
    {
      assert steps[..i + 1][..i] == steps[..i];
      assert Legal(INIT, steps[..i + 1]);
      var a := limiter.Perform(steps[i]);
      acquired := acquired + if a then 1 else 0;
    }
    assert steps[..|steps|] == steps;
    RunInv(INIT, steps);
  }

  lemma {:induction false} LegalPrefixes(s: State, steps: seq<Step>)
    requires Legal(s, steps)
    ensures forall i :: 0 <= i <= |steps| ==> Legal(s, steps[..i])
  {
    assert steps[..|steps|] == steps;
    if steps != [] {
      var rest := steps[..|steps| - 1];
      LegalPrefixes(s, rest);
      assert forall i :: 0 <= i <= |rest| ==> steps[..i] == rest[..i];
    }
  }
}
