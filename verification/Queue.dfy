/**
 The transactional queue of `adapter/memory/pubsub.go`, in non-blocking mode.

 Subscriptions take messages, publish further data inside the delivery's transaction, and
 acknowledge or refuse the delivery.  `State` and `Apply` describe the protocol as atomic
 steps of any number of subscriptions and publishers; an acknowledgement is two steps,
 because the transaction commits before the message is removed under the queue's lock.
 `Queue` is the imperative code, coupled to that state.
 */
module TransactionalQueue {
  import opened Common

  /** A delivery's transaction is open, committed but not yet removed, acknowledged, or rolled back. */
  datatype Phase = Open | Committed | Acked | RolledBack

  /** A handle given to a subscriber.  It stays in the subscriber's hands after it is finished. */
  datatype Delivery<+D> = Delivery(sub: nat, msg: nat, buffer: seq<D>, phase: Phase) {
    predicate Live() { phase == Open || phase == Committed }
    predicate Done() { phase == Committed || phase == Acked }
  }

  datatype Origin = Direct | From(delivery: nat)

  datatype Message<+D> = Message(data: D, origin: Origin)

  /** Messages are known by their position in `all`; `queue` holds those still in the queue. */
  datatype State<+D> = State(
    all: seq<Message<D>>,
    queue: seq<nat>,
    owner: map<nat, nat>,
    deliveries: seq<Delivery<D>>,
    acked: set<nat>,
    purged: set<nat>)

  datatype Step<+D> =
    | Publish(data: D)
    | PublishIn(d: nat, data: D)
    | Take(sub: nat, msg: nat)
    | AckCommit(d: nat)
    | AckRemove(d: nat)
    | Nack(d: nat)
    | Purge

  // ---------------------------------------------------------------- steps

  function Without(queue: seq<nat>, m: nat): (r: seq<nat>)
    ensures forall x :: x in r <==> x in queue && x != m
  {
    if queue == [] then []
    else Without(queue[..|queue| - 1], m) + (if queue[|queue| - 1] == m then [] else [queue[|queue| - 1]])
  }

  function Members(queue: seq<nat>): set<nat> {
    set m | m in queue
  }

  function Fresh(from: nat, n: nat): (r: seq<nat>)
    ensures |r| == n && forall i :: 0 <= i < n ==> r[i] == from + i
  {
    seq(n, i => from + i)
  }

  function Release<D>(s: State<D>, d: nat): State<D>
    requires d < |s.deliveries|
  {
    var m := s.deliveries[d].msg;
    if m in s.owner && s.owner[m] == s.deliveries[d].sub then s.(owner := s.owner - {m}) else s
  }

  function SetPhase<D>(s: State<D>, d: nat, phase: Phase): State<D>
    requires d < |s.deliveries|
  {
    s.(deliveries := s.deliveries[d := s.deliveries[d].(phase := phase)])
  }

  function Sent<D>(buffer: seq<D>, d: nat): (r: seq<Message<D>>)
    ensures |r| == |buffer| && forall i :: 0 <= i < |r| ==> r[i] == Message(buffer[i], From(d))
  {
    seq(|buffer|, i requires 0 <= i < |buffer| => Message(buffer[i], From(d)))
  }

  predicate Enabled<D>(s: State<D>, step: Step<D>) {
    match step
    case Publish(_) => true
    case PublishIn(d, _) => d < |s.deliveries|
    case Take(_, m) => m in s.queue && m !in s.owner
    case AckCommit(d) => d < |s.deliveries|
    case AckRemove(d) => d < |s.deliveries| && s.deliveries[d].phase == Committed
    case Nack(d) => d < |s.deliveries|
    case Purge => true
  }

  function Apply<D>(s: State<D>, step: Step<D>): State<D>
    requires Enabled(s, step)
  {
    match step
    case Publish(data) =>
      s.(all := s.all + [Message(data, Direct)], queue := s.queue + [|s.all|])
    case PublishIn(d, data) =>
      if s.deliveries[d].phase != Open then s
      else s.(deliveries := s.deliveries[d := s.deliveries[d].(buffer := s.deliveries[d].buffer + [data])])
    case Take(sub, m) =>
      s.(owner := s.owner[m := sub], deliveries := s.deliveries + [Delivery(sub, m, [], Open)])
    case AckCommit(d) =>
      if s.deliveries[d].phase != Open then Release(s, d)
      else
        var buffer := s.deliveries[d].buffer;
        SetPhase(s.(all := s.all + Sent(buffer, d), queue := s.queue + Fresh(|s.all|, |buffer|)), d, Committed)
    case AckRemove(d) =>
      var m := s.deliveries[d].msg;
      var t := s.(queue := Without(s.queue, m), acked := s.acked + (if m in s.queue then {m} else {}));
      SetPhase(Release(t, d), d, Acked)
    case Nack(d) =>
      var t := Release(s, d);
      if s.deliveries[d].phase == Open then SetPhase(t, d, RolledBack) else t
    case Purge =>
      s.(queue := [], purged := s.purged + Members(s.queue))
  }

  function Init<D>(): State<D> {
    State([], [], map[], [], {}, {})
  }

  /** The owners after delivery `d` has released its message. */
  function Freed<D>(s: State<D>, d: nat): map<nat, nat>
    requires d < |s.deliveries|
  {
    var m := s.deliveries[d].msg;
    if m in s.owner && s.owner[m] == s.deliveries[d].sub then s.owner - {m} else s.owner
  }

  /** What a refusal changes. */
  lemma Refused<D>(s: State<D>, d: nat)
    requires d < |s.deliveries|
    ensures var t, e := Apply(s, Nack(d)), s.deliveries[d];
      && t.all == s.all && t.queue == s.queue && t.acked == s.acked && t.purged == s.purged && t.owner == Freed(s, d)
      && t.deliveries == s.deliveries[d := e.(phase := if e.phase == Open then RolledBack else e.phase)]
  {
  }

  /** What removing an acknowledged message changes. */
  lemma Removed<D>(s: State<D>, d: nat)
    requires Enabled(s, AckRemove(d))
    ensures var t, m := Apply(s, AckRemove(d)), s.deliveries[d].msg;
      && t.all == s.all && t.queue == Without(s.queue, m) && t.purged == s.purged && t.owner == Freed(s, d)
      && t.acked == s.acked + (if m in s.queue then {m} else {})
      && t.deliveries == s.deliveries[d := s.deliveries[d].(phase := Acked)]
  {
  }

  /** What taking a message changes. */
  lemma Taken<D>(s: State<D>, sub: nat, m: nat)
    requires m in s.queue && m !in s.owner
    ensures Apply(s, Take(sub, m)) ==
      s.(owner := s.owner[m := sub], deliveries := s.deliveries + [Delivery(sub, m, [], Open)])
  {
  }

  /** An acknowledgement of a finished delivery only releases. */
  lemma TooLate<D>(s: State<D>, d: nat)
    requires d < |s.deliveries| && s.deliveries[d].phase != Open
    ensures Apply(s, AckCommit(d)) == s.(owner := Freed(s, d))
  {
  }

  /** What committing an open delivery changes. */
  lemma Flushed<D>(s: State<D>, d: nat)
    requires d < |s.deliveries| && s.deliveries[d].phase == Open
    ensures var t, buffer := Apply(s, AckCommit(d)), s.deliveries[d].buffer;
      && t.all == s.all + Sent(buffer, d) && t.queue == s.queue + Fresh(|s.all|, |buffer|)
      && t.owner == s.owner && t.acked == s.acked && t.purged == s.purged
      && t.deliveries == s.deliveries[d := s.deliveries[d].(phase := Committed)]
  {
  }

  // ---------------------------------------------------------------- what every run keeps

  ghost predicate Distinct(queue: seq<nat>) {
    forall i, j :: 0 <= i < j < |queue| ==> queue[i] != queue[j]
  }

  /** Every message ever published is queued, acknowledged or purged, and only one of these. */
  ghost predicate Conserved<D>(s: State<D>) {
    && Distinct(s.queue)
    && (forall m :: m in s.queue ==> m < |s.all| && m !in s.acked && m !in s.purged)
    && s.acked !! s.purged
    && (forall m :: m in s.acked || m in s.purged ==> m < |s.all|)
    && |s.all| == |s.queue| + |s.acked| + |s.purged|
    && (forall m :: m in s.owner ==> m < |s.all|)
    && (forall d :: 0 <= d < |s.deliveries| ==> s.deliveries[d].msg < |s.all|)
  }

  /** The data published from delivery `d`, in order. */
  function DataFrom<D>(all: seq<Message<D>>, d: nat): seq<D> {
    if all == [] then []
    else
      var last := all[|all| - 1];
      DataFrom(all[..|all| - 1], d) + (if last.origin == From(d) then [last.data] else [])
  }

  /** What a delivery published is in the queue's history exactly when its acknowledgement committed. */
  ghost predicate Atomic<D>(s: State<D>) {
    && (forall m :: 0 <= m < |s.all| && s.all[m].origin.From? ==> s.all[m].origin.delivery < |s.deliveries|)
    && forall d :: 0 <= d < |s.deliveries| ==>
         DataFrom(s.all, d) == if s.deliveries[d].Done() then s.deliveries[d].buffer else []
  }

  lemma LastApart(queue: seq<nat>)
    requires queue != [] && Distinct(queue)
    ensures queue[|queue| - 1] !in queue[..|queue| - 1] && Distinct(queue[..|queue| - 1])
    ensures forall x :: x in queue <==> x in queue[..|queue| - 1] || x == queue[|queue| - 1]
  {
    assert queue == queue[..|queue| - 1] + [queue[|queue| - 1]];
  }

  lemma DistinctConcat(a: seq<nat>, b: seq<nat>)
    requires Distinct(a) && Distinct(b) && forall x :: x in a ==> x !in b
    ensures Distinct(a + b)
  {
    forall i, j | 0 <= i < j < |a + b| ensures (a + b)[i] != (a + b)[j] {
      if i < |a| <= j {
        assert a[i] in a && b[j - |a|] in b;
      }
    }
  }

  lemma {:induction false} WithoutLength(queue: seq<nat>, m: nat)
    requires Distinct(queue)
    ensures Distinct(Without(queue, m)) && |Without(queue, m)| == |queue| - (if m in queue then 1 else 0)
  {
    if queue != [] {
      var rest, last := queue[..|queue| - 1], queue[|queue| - 1];
      WithoutLength(rest, m);
      LastApart(queue);
      DistinctConcat(Without(rest, m), if last == m then [] else [last]);
    }
  }

  lemma {:induction false} QueueSet(queue: seq<nat>)
    requires Distinct(queue)
    ensures |Members(queue)| == |queue|
  {
    if queue == [] {
      assert Members(queue) == {};
    } else {
      var rest, last := queue[..|queue| - 1], queue[|queue| - 1];
      QueueSet(rest);
      LastApart(queue);
      assert last !in Members(rest);
      assert Members(queue) == Members(rest) + {last};
    }
  }

  lemma {:induction false} DataFromConcat<D>(a: seq<Message<D>>, b: seq<Message<D>>, d: nat)
    ensures DataFrom(a + b, d) == DataFrom(a, d) + DataFrom(b, d)
  {
    if b == [] {
      assert a + b == a;
    } else {
      assert (a + b)[..|a + b| - 1] == a + b[..|b| - 1];
      DataFromConcat(a, b[..|b| - 1], d);
    }
  }

  lemma {:induction false} DataFromSent<D>(buffer: seq<D>, d: nat, e: nat)
    ensures DataFrom(Sent(buffer, d), e) == if d == e then buffer else []
  {
    if buffer != [] {
      var rest := buffer[..|buffer| - 1];
      DataFromSent(rest, d, e);
      assert Sent(buffer, d)[..|buffer| - 1] == Sent(rest, d);
      assert buffer == rest + [buffer[|buffer| - 1]];
    }
  }

  lemma {:induction false} DataFromNone<D>(all: seq<Message<D>>, d: nat)
    requires forall m :: 0 <= m < |all| ==> all[m].origin != From(d)
    ensures DataFrom(all, d) == []
  {
    if all != [] {
      DataFromNone(all[..|all| - 1], d);
    }
  }

  lemma RemoveConserved<D>(s: State<D>, d: nat)
    requires Conserved(s) && Enabled(s, AckRemove(d))
    ensures Conserved(Apply(s, AckRemove(d)))
  {
    hide Without, Distinct, Apply, Freed;
    var m, t := s.deliveries[d].msg, Apply(s, AckRemove(d));
    WithoutLength(s.queue, m);
    Removed(s, d);
    MovedOver(s.queue, s.acked, m);
    assert forall e :: 0 <= e < |s.deliveries| ==> t.deliveries[e].msg == s.deliveries[e].msg;
    OwnersLeft(s, d);
  }

  lemma MovedOver(queue: seq<nat>, acked: set<nat>, m: nat)
    requires m in queue ==> m !in acked
    ensures |acked + (if m in queue then {m} else {})| == |acked| + if m in queue then 1 else 0
  {
  }

  lemma OwnersLeft<D>(s: State<D>, d: nat)
    requires d < |s.deliveries|
    ensures forall x :: x in Freed(s, d) ==> x in s.owner
  {
  }

  lemma PurgeConserved<D>(s: State<D>)
    requires Conserved(s)
    ensures Conserved(Apply(s, Purge))
  {
    QueueSet(s.queue);
    assert s.purged !! Members(s.queue);
  }

  lemma CommitConserved<D>(s: State<D>, d: nat)
    requires Conserved(s) && Enabled(s, AckCommit(d))
    ensures Conserved(Apply(s, AckCommit(d)))
  {
    hide Sent, Fresh;
    DistinctConcat(s.queue, Fresh(|s.all|, |s.deliveries[d].buffer|));
  }

  lemma StepConserved<D>(s: State<D>, step: Step<D>)
    requires Conserved(s) && Enabled(s, step)
    ensures Conserved(Apply(s, step))
  {
    if step.AckCommit? {
      CommitConserved(s, step.d);
    } else if step.AckRemove? {
      RemoveConserved(s, step.d);
    } else if step.Purge? {
      PurgeConserved(s);
    } else {
      OtherConserved(s, step);
    }
  }

  lemma OtherConserved<D>(s: State<D>, step: Step<D>)
    requires Conserved(s) && Enabled(s, step) && !step.AckCommit? && !step.AckRemove? && !step.Purge?
    ensures Conserved(Apply(s, step))
  {
    if step.Publish? {
      DistinctConcat(s.queue, [|s.all|]);
    }
  }

  lemma CommitAtomic<D>(s: State<D>, d: nat)
    requires Atomic(s) && d < |s.deliveries| && s.deliveries[d].phase == Open
    ensures Atomic(Apply(s, AckCommit(d)))
  {
    hide DataFrom, Fresh, Sent;
    var t := Apply(s, AckCommit(d));
    var buffer := s.deliveries[d].buffer;
    forall e | 0 <= e < |s.deliveries|
      ensures DataFrom(t.all, e) == if t.deliveries[e].Done() then t.deliveries[e].buffer else []
    {
      DataFromConcat(s.all, Sent(buffer, d), e);
      DataFromSent(buffer, d, e);
      assert s.deliveries[e].Done() || e == d <==> t.deliveries[e].Done();
    }
  }

  lemma StepAtomic<D>(s: State<D>, step: Step<D>)
    requires Atomic(s) && Enabled(s, step)
    ensures Atomic(Apply(s, step))
  {
    hide DataFrom;
    match step
    case Publish(data) =>
      forall d | 0 <= d < |s.deliveries| ensures DataFrom(s.all + [Message(data, Direct)], d) == DataFrom(s.all, d) {
        DataFromConcat(s.all, [Message(data, Direct)], d);
        DataFromNone([Message(data, Direct)], d);
      }
    case Take(_, _) =>
      DataFromNone(s.all, |s.deliveries|);
    case AckCommit(d) =>
      if s.deliveries[d].phase == Open {
        CommitAtomic(s, d);
      }
    case _ =>
  }

  // ---------------------------------------------------------------- ownership

  /**
   A call on a finished delivery, while its message is owned by the same subscription: the
   handle is stale and the message was delivered again to this subscription, or the handle is
   refused between the two halves of its own acknowledgement.
   */
  ghost predicate Hazard<D>(s: State<D>, step: Step<D>)
    requires Enabled(s, step)
  {
    (step.AckCommit? || step.Nack?) &&
    var d := s.deliveries[step.d];
    d.phase != Open && d.msg in s.owner && s.owner[d.msg] == d.sub
  }

  /** A call on a finished delivery has no effect exactly when it is not such a call. */
  lemma StaleCall<D>(s: State<D>, step: Step<D>)
    requires Enabled(s, step) && (step.AckCommit? || step.Nack?) && s.deliveries[step.d].phase != Open
    ensures Apply(s, step) == s <==> !Hazard(s, step)
  {
    if Hazard(s, step) {
      assert s.deliveries[step.d].msg !in Apply(s, step).owner;
    }
  }

  /** Each owned message has one live delivery, by its owner; a message done with is not out anywhere. */
  ghost predicate Exclusive<D>(s: State<D>) {
    && (forall d :: 0 <= d < |s.deliveries| && s.deliveries[d].Live() ==>
          s.deliveries[d].msg in s.owner && s.owner[s.deliveries[d].msg] == s.deliveries[d].sub)
    && (forall d, e :: 0 <= d < e < |s.deliveries| && s.deliveries[d].Live() && s.deliveries[e].Live() ==>
          s.deliveries[d].msg != s.deliveries[e].msg)
    && (forall d :: 0 <= d < |s.deliveries| && s.deliveries[d].phase == Acked ==>
          s.deliveries[d].msg !in s.queue && s.deliveries[d].msg !in s.owner)
    && (forall d, e :: 0 <= d < e < |s.deliveries| && s.deliveries[d].Done() && s.deliveries[e].Done() ==>
          s.deliveries[d].msg != s.deliveries[e].msg)
    && (forall d :: 0 <= d < |s.deliveries| ==> s.deliveries[d].msg < |s.all|)
    && (forall m :: m in s.queue ==> m < |s.all|)
  }

  /** Taking an unowned message, and everything that touches neither deliveries' ends nor owners. */
  lemma OpenExclusive<D>(s: State<D>, step: Step<D>)
    requires Exclusive(s) && Enabled(s, step) && (step.Publish? || step.PublishIn? || step.Purge? || step.Take?)
    ensures Exclusive(Apply(s, step))
  {
    hide Exclusive;
    match step
    case Publish(data) => PublishExclusive(s, data);
    case PublishIn(d, data) => BufferExclusive(s, d, data);
    case Take(sub, m) => TakeExclusive(s, sub, m);
    case Purge => PurgeExclusive(s);
    case _ =>
  }

  lemma PublishExclusive<D>(s: State<D>, data: D)
    requires Exclusive(s)
    ensures Exclusive(Apply(s, Publish(data)))
  {
    var t := Apply(s, Publish(data));
    assert t.deliveries == s.deliveries && t.owner == s.owner;
    assert forall m :: m in t.queue <==> m in s.queue || m == |s.all|;
  }

  lemma BufferExclusive<D>(s: State<D>, d: nat, data: D)
    requires Exclusive(s) && d < |s.deliveries|
    ensures Exclusive(Apply(s, PublishIn(d, data)))
  {
    var t := Apply(s, PublishIn(d, data));
    assert t.queue == s.queue && t.owner == s.owner && t.all == s.all;
    assert forall e :: 0 <= e < |s.deliveries| ==>
      t.deliveries[e].phase == s.deliveries[e].phase && t.deliveries[e].msg == s.deliveries[e].msg
      && t.deliveries[e].sub == s.deliveries[e].sub;
  }

  lemma TakeExclusive<D>(s: State<D>, sub: nat, m: nat)
    requires Exclusive(s) && m in s.queue && m !in s.owner
    ensures Exclusive(Apply(s, Take(sub, m)))
  {
    var t := Apply(s, Take(sub, m));
    assert t.queue == s.queue && t.all == s.all && t.owner == s.owner[m := sub];
    assert forall e :: 0 <= e < |s.deliveries| ==> t.deliveries[e] == s.deliveries[e];
    assert t.deliveries[|s.deliveries|] == Delivery(sub, m, [], Open);
  }

  lemma PurgeExclusive<D>(s: State<D>)
    requires Exclusive(s)
    ensures Exclusive(Apply(s, Purge))
  {
  }

  lemma CommitExclusive<D>(s: State<D>, d: nat)
    requires Exclusive(s) && d < |s.deliveries| && s.deliveries[d].phase == Open
    ensures Exclusive(Apply(s, AckCommit(d)))
  {
    hide Sent;
  }

  lemma RemoveExclusive<D>(s: State<D>, d: nat)
    requires Exclusive(s) && d < |s.deliveries| && s.deliveries[d].phase == Committed
    ensures Exclusive(Apply(s, AckRemove(d)))
  {
    hide Without;
  }

  lemma RefuseExclusive<D>(s: State<D>, d: nat)
    requires Exclusive(s) && d < |s.deliveries| && s.deliveries[d].phase == Open
    ensures Exclusive(Apply(s, Nack(d)))
  {
  }

  /** Every owned message has a live delivery. */
  ghost predicate Backed<D>(s: State<D>) {
    forall m :: m in s.owner ==> HasLive(s, m)
  }

  ghost predicate HasLive<D>(s: State<D>, m: nat) {
    exists d :: 0 <= d < |s.deliveries| && s.deliveries[d].Live() && s.deliveries[d].msg == m
  }

  /** A live delivery that is still live after a step still stands behind its message. */
  lemma StillLive<D>(s: State<D>, t: State<D>, m: nat)
    requires HasLive(s, m) && |s.deliveries| <= |t.deliveries|
    requires forall d :: 0 <= d < |s.deliveries| && s.deliveries[d].Live() && s.deliveries[d].msg == m ==>
      t.deliveries[d].Live() && t.deliveries[d].msg == m
    ensures HasLive(t, m)
  {
    var d :| 0 <= d < |s.deliveries| && s.deliveries[d].Live() && s.deliveries[d].msg == m;
    assert t.deliveries[d].Live();
  }

  lemma StepBacked<D>(s: State<D>, step: Step<D>)
    requires Exclusive(s) && Backed(s) && Enabled(s, step) && !Hazard(s, step)
    ensures Backed(Apply(s, step))
  {
    hide HasLive, Without, Fresh, Sent;
    var t := Apply(s, step);
    forall m | m in t.owner ensures HasLive(t, m) {
      if step.Take? && step.msg == m {
        TakenLive(s, step);
      } else {
        StillLive(s, t, m);
      }
    }
  }

  lemma TakenLive<D>(s: State<D>, step: Step<D>)
    requires Enabled(s, step) && step.Take?
    ensures HasLive(Apply(s, step), step.msg)
  {
    assert Apply(s, step).deliveries[|s.deliveries|].Live();
  }

  /** Exclusive ownership survives a step exactly when the step is no call on a stale handle of the owner. */
  lemma StepExclusive<D>(s: State<D>, step: Step<D>)
    requires Exclusive(s) && Backed(s) && Enabled(s, step)
    ensures Exclusive(Apply(s, step)) <==> !Hazard(s, step)
    ensures !Hazard(s, step) ==> Backed(Apply(s, step))
  {
    if Hazard(s, step) {
      HazardBreaks(s, step);
    } else {
      CarefulExclusive(s, step);
      StepBacked(s, step);
    }
  }

  lemma HazardBreaks<D>(s: State<D>, step: Step<D>)
    requires Backed(s) && Enabled(s, step) && Hazard(s, step)
    ensures !Exclusive(Apply(s, step))
  {
    var m := s.deliveries[step.d].msg;
    assert HasLive(s, m);
    var e :| 0 <= e < |s.deliveries| && s.deliveries[e].Live() && s.deliveries[e].msg == m;
    assert Apply(s, step).deliveries[e].Live();
  }

  lemma CarefulExclusive<D>(s: State<D>, step: Step<D>)
    requires Exclusive(s) && Enabled(s, step) && !Hazard(s, step)
    ensures Exclusive(Apply(s, step))
  {
    hide Exclusive, Hazard, Apply;
    if (step.AckCommit? || step.Nack?) && s.deliveries[step.d].phase != Open {
      StaleCall(s, step);
    } else if step.AckCommit? {
      CommitExclusive(s, step.d);
    } else if step.Nack? {
      RefuseExclusive(s, step.d);
    } else if step.AckRemove? {
      RemoveExclusive(s, step.d);
    } else {
      OpenExclusive(s, step);
    }
  }

  /** A message leaves the queue only by a purge or by the acknowledgement of its owner. */
  lemma LeavesByOwner<D>(s: State<D>, step: Step<D>, m: nat)
    requires Exclusive(s) && Enabled(s, step) && m in s.queue && m !in Apply(s, step).queue
    ensures step == Purge || (step.AckRemove? && s.deliveries[step.d].msg == m && m in s.owner
                              && s.owner[m] == s.deliveries[step.d].sub)
  {
  }

  // ---------------------------------------------------------------- whole runs

  ghost predicate Legal<D>(s: State<D>, steps: seq<Step<D>>)
    decreases |steps|
  {
    steps == [] || (Enabled(s, steps[0]) && Legal(Apply(s, steps[0]), steps[1..]))
  }

  ghost function Exec<D>(s: State<D>, steps: seq<Step<D>>): State<D>
    requires Legal(s, steps)
    decreases |steps|
  {
    if steps == [] then s else Exec(Apply(s, steps[0]), steps[1..])
  }

  /** No handle is used again once it is finished, as far as its message's owner is concerned. */
  ghost predicate Tidy<D>(s: State<D>, steps: seq<Step<D>>)
    requires Legal(s, steps)
    decreases |steps|
  {
    steps == [] || (!Hazard(s, steps[0]) && Tidy(Apply(s, steps[0]), steps[1..]))
  }

  /** Over every interleaving: nothing is lost or duplicated, and published data appears iff its delivery commits. */
  lemma {:induction false} RunConserved<D>(s: State<D>, steps: seq<Step<D>>)
    requires Legal(s, steps) && Conserved(s) && Atomic(s)
    ensures Conserved(Exec(s, steps)) && Atomic(Exec(s, steps))
    decreases |steps|
  {
    if steps != [] {
      StepConserved(s, steps[0]);
      StepAtomic(s, steps[0]);
      RunConserved(Apply(s, steps[0]), steps[1..]);
    }
  }

  /** Over every tidy interleaving: one owner at a time, and at most one acknowledgement per message. */
  lemma {:induction false} RunExclusive<D>(s: State<D>, steps: seq<Step<D>>)
    requires Legal(s, steps) && Tidy(s, steps) && Exclusive(s) && Backed(s)
    ensures Exclusive(Exec(s, steps)) && Backed(Exec(s, steps))
    decreases |steps|
  {
    if steps != [] {
      StepExclusive(s, steps[0]);
      RunExclusive(Apply(s, steps[0]), steps[1..]);
    }
  }

  /** Ownership is exclusive now and after every step of the run. */
  ghost predicate Throughout<D>(s: State<D>, steps: seq<Step<D>>)
    requires Legal(s, steps)
    decreases |steps|
  {
    Exclusive(s) && (steps == [] || Throughout(Apply(s, steps[0]), steps[1..]))
  }

  /** That is so exactly for the tidy interleavings. */
  lemma {:induction false} TidyIff<D>(s: State<D>, steps: seq<Step<D>>)
    requires Legal(s, steps) && Exclusive(s) && Backed(s)
    ensures Tidy(s, steps) <==> Throughout(s, steps)
    decreases |steps|
  {
    hide Exclusive, Backed, Hazard, Apply;
    if steps != [] {
      StepExclusive(s, steps[0]);
      if !Hazard(s, steps[0]) {
        TidyIff(Apply(s, steps[0]), steps[1..]);
      }
    }
  }

  // ---------------------------------------------------------------- what a run publishes

  /** A step that finishes delivery `d` if nothing did before. */
  predicate Finishes<D>(step: Step<D>, d: nat) {
    step == AckCommit(d) || step == Nack(d)
  }

  /** The first acknowledgement or refusal of delivery `d`, or none. */
  function FirstEnd<D>(steps: seq<Step<D>>, d: nat): Option<Step<D>> {
    if steps == [] then None
    else
      var before := FirstEnd(steps[..|steps| - 1], d);
      if before.Some? then before
      else if Finishes(steps[|steps| - 1], d) then Some(steps[|steps| - 1])
      else None
  }

  /** The data published with delivery `d` before anything finished it, in order. */
  function SentIn<D>(steps: seq<Step<D>>, d: nat): seq<D> {
    if steps == [] then []
    else
      var rest, last := steps[..|steps| - 1], steps[|steps| - 1];
      SentIn(rest, d) +
        if last.PublishIn? && last.d == d && FirstEnd(rest, d).None? then [last.data] else []
  }

  /** The deliveries: one for each message taken. */
  function TakesOf<D>(steps: seq<Step<D>>): seq<Step<D>> {
    if steps == [] then []
    else
      var last := steps[|steps| - 1];
      TakesOf(steps[..|steps| - 1]) + if last.Take? then [last] else []
  }

  /** What one more step publishes for everybody to see. */
  function Shows<D>(steps: seq<Step<D>>, step: Step<D>): seq<Message<D>> {
    if step.Publish? then [Message(step.data, Direct)]
    else if step.AckCommit? && FirstEnd(steps, step.d).None? then Sent(SentIn(steps, step.d), step.d)
    else []
  }

  /** Everything ever published, in order, as the steps alone decide. */
  function History<D>(steps: seq<Step<D>>): seq<Message<D>> {
    if steps == [] then []
    else History(steps[..|steps| - 1]) + Shows(steps[..|steps| - 1], steps[|steps| - 1])
  }

  predicate PhaseAfter<D>(steps: seq<Step<D>>, d: nat, phase: Phase) {
    var end := FirstEnd(steps, d);
    if end.None? then phase == Open
    else if end.value.AckCommit? then phase == Committed || phase == Acked
    else phase == RolledBack
  }

  /** The state holds what the steps published: its messages, its deliveries and their buffers. */
  ghost predicate Follows<D>(s: State<D>, steps: seq<Step<D>>) {
    && s.all == History(steps)
    && |s.deliveries| == |TakesOf(steps)|
    && (forall d :: 0 <= d < |s.deliveries| ==> Stands(TakesOf(steps)[d], steps, d, s.deliveries[d]))
    && (forall d: nat :: |s.deliveries| <= d ==> Untouched(steps, d))
  }

  /** The d-th delivery is that of the d-th message taken, with the data and the phase the steps gave it. */
  ghost predicate Stands<D>(taken: Step<D>, steps: seq<Step<D>>, d: nat, delivery: Delivery<D>) {
    && taken == Take(delivery.sub, delivery.msg)
    && delivery.buffer == SentIn(steps, d)
    && PhaseAfter(steps, d, delivery.phase)
  }

  ghost predicate Untouched<D>(steps: seq<Step<D>>, d: nat) {
    SentIn(steps, d) == [] && FirstEnd(steps, d).None?
  }

  function SendsMore<D>(steps: seq<Step<D>>, step: Step<D>, d: nat): seq<D> {
    if step.PublishIn? && step.d == d && FirstEnd(steps, d).None? then [step.data] else []
  }

  function EndsMore<D>(steps: seq<Step<D>>, step: Step<D>, d: nat): Option<Step<D>> {
    if FirstEnd(steps, d).Some? then FirstEnd(steps, d) else if Finishes(step, d) then Some(step) else None
  }

  /** One more step, in terms of the functions of the steps. */
  lemma OneMore<D>(steps: seq<Step<D>>, step: Step<D>)
    ensures History(steps + [step]) == History(steps) + Shows(steps, step)
    ensures TakesOf(steps + [step]) == TakesOf(steps) + (if step.Take? then [step] else [])
    ensures forall d: nat ::
      SentIn(steps + [step], d) == SentIn(steps, d) + SendsMore(steps, step, d)
    ensures forall d: nat ::
      FirstEnd(steps + [step], d) == EndsMore(steps, step, d)
  {
    var more := steps + [step];
    assert more[..|more| - 1] == steps;
  }

  /** Every step keeps the state in accord with the steps taken. */
  lemma StepFollows<D>(s: State<D>, steps: seq<Step<D>>, step: Step<D>)
    requires Follows(s, steps) && Enabled(s, step)
    ensures Follows(Apply(s, step), steps + [step])
  {
    hide History, TakesOf, SentIn, FirstEnd, Sent, Apply, Stands, Untouched;
    OneMore(steps, step);
    var t, more := Apply(s, step), steps + [step];
    forall d: nat | d < |s.deliveries| && !(step.Nack? && step.d == d) && !(step.AckCommit? && step.d == d)
        && !(step.PublishIn? && step.d == d)
      ensures Stands(TakesOf(steps)[d], more, d, s.deliveries[d])
    {
      StandsStill(TakesOf(steps)[d], steps, step, d, s.deliveries[d]);
    }
    forall d: nat | |s.deliveries| <= d && (step.Take? ==> |s.deliveries| < d) ensures Untouched(more, d) {
      StillUntouched(s, steps, step, d);
    }
    match step
    case Publish(data) => Posted(s, data);
    case PublishIn(d, data) =>
      Buffered(s, d, data);
      StandsBuffered(TakesOf(steps)[d], steps, d, s.deliveries[d], data);
    case Take(sub, m) =>
      Taken(s, sub, m);
      StandsTaken(steps, |s.deliveries|, sub, m);
    case AckCommit(d) =>
      StandsCommitted(TakesOf(steps)[d], steps, d, s.deliveries[d]);
      if s.deliveries[d].phase == Open {
        Flushed(s, d);
      } else {
        TooLate(s, d);
      }
    case AckRemove(d) =>
      Removed(s, d);
      StandsRemoved(TakesOf(steps)[d], more, d, s.deliveries[d]);
    case Nack(d) =>
      Refused(s, d);
      StandsRefused(TakesOf(steps)[d], steps, d, s.deliveries[d]);
    case Purge => Emptied(s);
  }

  lemma Posted<D>(s: State<D>, data: D)
    ensures Apply(s, Publish(data)) == s.(all := s.all + [Message(data, Direct)], queue := s.queue + [|s.all|])
  {
  }

  lemma Buffered<D>(s: State<D>, d: nat, data: D)
    requires d < |s.deliveries|
    ensures var e := s.deliveries[d];
      Apply(s, PublishIn(d, data)) ==
        if e.phase != Open then s else s.(deliveries := s.deliveries[d := e.(buffer := e.buffer + [data])])
  {
  }

  lemma Emptied<D>(s: State<D>)
    ensures Apply(s, Purge) == s.(queue := [], purged := s.purged + Members(s.queue))
  {
  }

  lemma StandsStill<D>(taken: Step<D>, steps: seq<Step<D>>, step: Step<D>, d: nat, delivery: Delivery<D>)
    requires Stands(taken, steps, d, delivery)
    requires !(step.Nack? && step.d == d) && !(step.AckCommit? && step.d == d) && !(step.PublishIn? && step.d == d)
    ensures Stands(taken, steps + [step], d, delivery)
  {
    hide History, TakesOf, SentIn, FirstEnd;
    OneMore(steps, step);
  }

  lemma StillUntouched<D>(s: State<D>, steps: seq<Step<D>>, step: Step<D>, d: nat)
    requires Untouched(steps, d) && Enabled(s, step) && |s.deliveries| <= d
    ensures Untouched(steps + [step], d)
  {
    hide History, TakesOf, SentIn, FirstEnd;
    OneMore(steps, step);
  }

  lemma StandsBuffered<D>(taken: Step<D>, steps: seq<Step<D>>, d: nat, delivery: Delivery<D>, data: D)
    requires Stands(taken, steps, d, delivery)
    ensures Stands(taken, steps + [PublishIn(d, data)], d,
                   if delivery.phase != Open then delivery else delivery.(buffer := delivery.buffer + [data]))
  {
    hide History, TakesOf, SentIn, FirstEnd;
    OneMore(steps, PublishIn(d, data));
    EndsSelf(steps, d);
  }

  lemma StandsTaken<D>(steps: seq<Step<D>>, d: nat, sub: nat, m: nat)
    requires Untouched(steps, d)
    ensures Stands(Take(sub, m), steps + [Take(sub, m)], d, Delivery(sub, m, [], Open))
  {
    hide History, TakesOf, SentIn, FirstEnd;
    OneMore(steps, Take(sub, m));
  }

  lemma StandsCommitted<D>(taken: Step<D>, steps: seq<Step<D>>, d: nat, delivery: Delivery<D>)
    requires Stands(taken, steps, d, delivery)
    ensures Stands(taken, steps + [AckCommit(d)], d,
                   if delivery.phase == Open then delivery.(phase := Committed) else delivery)
    ensures Shows(steps, AckCommit(d)) == if delivery.phase == Open then Sent(delivery.buffer, d) else []
  {
    hide History, TakesOf, SentIn, FirstEnd, Sent;
    OneMore(steps, AckCommit(d));
    EndsSelf(steps, d);
  }

  lemma StandsRemoved<D>(taken: Step<D>, steps: seq<Step<D>>, d: nat, delivery: Delivery<D>)
    requires Stands(taken, steps, d, delivery) && delivery.phase == Committed
    ensures Stands(taken, steps, d, delivery.(phase := Acked))
  {
    hide History, TakesOf, SentIn, FirstEnd;
  }

  lemma StandsRefused<D>(taken: Step<D>, steps: seq<Step<D>>, d: nat, delivery: Delivery<D>)
    requires Stands(taken, steps, d, delivery)
    ensures Stands(taken, steps + [Nack(d)], d,
                   delivery.(phase := if delivery.phase == Open then RolledBack else delivery.phase))
  {
    hide History, TakesOf, SentIn, FirstEnd;
    OneMore(steps, Nack(d));
    EndsSelf(steps, d);
  }

  lemma ExecMore<D>(s: State<D>, steps: seq<Step<D>>, step: Step<D>)
    requires Legal(s, steps + [step])
    ensures Legal(s, steps) && Enabled(Exec(s, steps), step)
    ensures Exec(s, steps + [step]) == Apply(Exec(s, steps), step)
    decreases |steps|
  {
    if steps == [] {
      assert steps + [step] == [step] && [step][1..] == [];
    } else {
      assert (steps + [step])[1..] == steps[1..] + [step];
      ExecMore(Apply(s, steps[0]), steps[1..], step);
    }
  }

  /** Over every run from an empty queue: what is in its history is what the steps published, in order. */
  lemma {:induction false} RunFollows<D>(steps: seq<Step<D>>)
    requires Legal(Init<D>(), steps)
    ensures Follows(Exec(Init<D>(), steps), steps)
  {
    if steps != [] {
      var rest, last := steps[..|steps| - 1], steps[|steps| - 1];
      assert steps == rest + [last];
      ExecMore(Init<D>(), rest, last);
      RunFollows(rest);
      StepFollows(Exec(Init<D>(), rest), rest, last);
    }
  }

  /**
   What was published with a delivery is in the history exactly if the first thing that
   finished the delivery was an acknowledgement, and then all of it, in order.
   */
  lemma PublishedIn<D>(steps: seq<Step<D>>, d: nat)
    requires Legal(Init<D>(), steps)
    ensures DataFrom(History(steps), d) == if FirstEnd(steps, d) == Some(AckCommit(d)) then SentIn(steps, d) else []
  {
    hide DataFrom, History, SentIn, FirstEnd;
    var t := Exec(Init<D>(), steps);
    RunFollows(steps);
    StartsWell<D>();
    RunConserved(Init<D>(), steps);
    if d < |t.deliveries| {
      EndsSelf(steps, d);
    } else {
      assert Untouched(steps, d);
      DataFromNone(t.all, d);
    }
  }

  lemma StartsWell<D>()
    ensures Conserved(Init<D>()) && Atomic(Init<D>()) && Exclusive(Init<D>()) && Backed(Init<D>())
  {
  }

  /** What first finished a delivery is a call on that delivery. */
  lemma {:induction false} EndsSelf<D>(steps: seq<Step<D>>, d: nat)
    ensures FirstEnd(steps, d).Some? ==> Finishes(FirstEnd(steps, d).value, d)
  {
    if steps != [] {
      EndsSelf(steps[..|steps| - 1], d);
    }
  }

  /** The data published outside of deliveries. */
  function DirectData<D>(all: seq<Message<D>>): seq<D> {
    if all == [] then []
    else
      var last := all[|all| - 1];
      DirectData(all[..|all| - 1]) + if last.origin.Direct? then [last.data] else []
  }

  function Published<D>(steps: seq<Step<D>>): seq<D> {
    if steps == [] then []
    else
      var last := steps[|steps| - 1];
      Published(steps[..|steps| - 1]) + if last.Publish? then [last.data] else []
  }

  lemma {:induction false} DirectConcat<D>(a: seq<Message<D>>, b: seq<Message<D>>)
    ensures DirectData(a + b) == DirectData(a) + DirectData(b)
  {
    if b == [] {
      assert a + b == a;
    } else {
      assert (a + b)[..|a + b| - 1] == a + b[..|b| - 1];
      DirectConcat(a, b[..|b| - 1]);
    }
  }

  lemma {:induction false} NoneDirect<D>(all: seq<Message<D>>)
    requires forall i :: 0 <= i < |all| ==> !all[i].origin.Direct?
    ensures DirectData(all) == []
  {
    if all != [] {
      NoneDirect(all[..|all| - 1]);
    }
  }

  /** The messages published outside of deliveries carry the data of the publish steps, in order. */
  lemma {:induction false} PublishedDirectly<D>(steps: seq<Step<D>>)
    ensures DirectData(History(steps)) == Published(steps)
  {
    if steps != [] {
      hide FirstEnd, SentIn, Sent;
      var rest, last := steps[..|steps| - 1], steps[|steps| - 1];
      PublishedDirectly(rest);
      DirectConcat(History(rest), Shows(rest, last));
      if last.Publish? {
        OneDirect(last.data);
      } else {
        NoneDirect(Shows(rest, last));
      }
    }
  }

  lemma OneDirect<D>(data: D)
    ensures DirectData([Message(data, Direct)]) == [data]
  {
    var all := [Message(data, Direct)];
    assert all[..0] == [];
  }

  // ---------------------------------------------------------------- the order of the queue

  /** Earlier publications are ahead in the queue. */
  ghost predicate InOrder<D>(s: State<D>) {
    Rising(s.queue) && forall i :: 0 <= i < |s.queue| ==> s.queue[i] < |s.all|
  }

  ghost predicate Rising(queue: seq<nat>) {
    forall i, j :: 0 <= i < j < |queue| ==> queue[i] < queue[j]
  }

  lemma {:induction false} WithoutOrder(queue: seq<nat>, m: nat)
    requires Rising(queue)
    ensures Rising(Without(queue, m))
  {
    if queue != [] {
      var rest, last := queue[..|queue| - 1], queue[|queue| - 1];
      WithoutOrder(rest, m);
      var r := Without(rest, m);
      forall i | 0 <= i < |r| ensures r[i] < last {
        assert r[i] in rest;
        var k :| 0 <= k < |rest| && rest[k] == r[i];
        assert queue[k] < queue[|queue| - 1];
      }
      assert Rising(r + [last]);
      assert Without(queue, m) == r + if last == m then [] else [last];
    }
  }

  lemma StepInOrder<D>(s: State<D>, step: Step<D>)
    requires InOrder(s) && Enabled(s, step)
    ensures InOrder(Apply(s, step))
    ensures step.Purge? ==> Apply(s, step).queue == []
  {
    hide Without, Sent, Fresh;
    match step
    case AckCommit(d) =>
      if s.deliveries[d].phase == Open {
        Flushed(s, d);
      } else {
        TooLate(s, d);
      }
    case AckRemove(d) =>
      Removed(s, d);
      var kept := Without(s.queue, s.deliveries[d].msg);
      WithoutOrder(s.queue, s.deliveries[d].msg);
      assert forall i :: 0 <= i < |kept| ==> kept[i] in s.queue;
    case Nack(d) => Refused(s, d);
    case _ =>
  }

  // ---------------------------------------------------------------- subscriptions

  /**
   What a subscription with the given id has in hand: its last delivery, or nothing.  That
   delivery is not between the halves of its acknowledgement, and no other one is live.
   */
  ghost predicate Holding<D>(s: State<D>, id: nat, current: Option<nat>) {
    && (current.Some? ==>
         && current.value < |s.deliveries| && s.deliveries[current.value].sub == id
         && s.deliveries[current.value].phase != Committed)
    && (forall e :: 0 <= e < |s.deliveries| && s.deliveries[e].sub == id && s.deliveries[e].Live() ==>
         current == Some(e))
  }

  /** The subscription whose handle or name a step uses. */
  function By<D>(s: State<D>, step: Step<D>): Option<nat>
    requires Enabled(s, step)
  {
    match step
    case Take(sub, _) => Some(sub)
    case PublishIn(d, _) => Some(s.deliveries[d].sub)
    case AckCommit(d) => Some(s.deliveries[d].sub)
    case AckRemove(d) => Some(s.deliveries[d].sub)
    case Nack(d) => Some(s.deliveries[d].sub)
    case _ => None
  }

  /** Other subscriptions, publishers and purges leave a subscription with what it has in hand. */
  lemma OthersHold<D>(s: State<D>, step: Step<D>, id: nat, current: Option<nat>)
    requires Enabled(s, step) && By(s, step) != Some(id) && Holding(s, id, current)
    ensures Holding(Apply(s, step), id, current)
  {
  }

  /** A subscriber that only ever uses the delivery it has in hand meets no hazard. */
  lemma InHandNoHazard<D>(s: State<D>, step: Step<D>, id: nat, d: nat)
    requires Exclusive(s) && Backed(s) && Enabled(s, step) && Holding(s, id, Some(d))
    requires step == AckCommit(d) || step == Nack(d)
    ensures !Hazard(s, step)
  {
    assert s.deliveries[d].msg in s.owner ==> HasLive(s, s.deliveries[d].msg);
  }

  /** A refusal and both halves of an acknowledgement leave the delivery finished in hand. */
  lemma InHandAfter<D>(s: State<D>, id: nat, d: nat)
    requires Holding(s, id, Some(d))
    ensures Holding(Apply(s, Nack(d)), id, Some(d)) && !Apply(s, Nack(d)).deliveries[d].Live()
    ensures s.deliveries[d].phase == Open ==> Holding(Acknowledged(s, d), id, Some(d))
    ensures s.deliveries[d].phase != Open ==> Holding(Apply(s, AckCommit(d)), id, Some(d))
  {
    Refused(s, d);
    if s.deliveries[d].phase == Open {
      Flushed(s, d);
      Removed(Apply(s, AckCommit(d)), d);
    } else {
      TooLate(s, d);
    }
  }

  ghost function Acknowledged<D>(s: State<D>, d: nat): State<D>
    requires d < |s.deliveries| && s.deliveries[d].phase == Open
  {
    Flushed(s, d);
    Apply(Apply(s, AckCommit(d)), AckRemove(d))
  }

  /** A subscription with nothing live takes a message. */
  lemma TakenInHand<D>(s: State<D>, id: nat, m: nat)
    requires m in s.queue && m !in s.owner && Holding(s, id, None)
    ensures Holding(Apply(s, Take(id, m)), id, Some(|s.deliveries|))
  {
  }

  /** A finished delivery may be put away. */
  lemma PutAway<D>(s: State<D>, id: nat, d: nat)
    requires Holding(s, id, Some(d)) && !s.deliveries[d].Live()
    ensures Holding(s, id, None)
  {
  }

  /**
   Each subscription has a delivery in hand, or none, and is followed through the run: it
   refuses and acknowledges only what it has in hand, takes only with nothing live, and does
   nothing between the halves of an acknowledgement.  The current deliveries are `hands`.
   */
  ghost predicate Disciplined<D>(s: State<D>, steps: seq<Step<D>>, hands: map<nat, nat>, halfway: map<nat, nat>)
    requires Legal(s, steps)
    decreases |steps|
  {
    steps == [] ||
    var step, who := steps[0], By(s, steps[0]);
    var rest := steps[1..];
    match step
    case Take(sub, _) =>
      && sub !in halfway && (sub in hands ==> hands[sub] < |s.deliveries| && !s.deliveries[hands[sub]].Live())
      && Disciplined(Apply(s, step), rest, hands[sub := |s.deliveries|], halfway)
    case AckCommit(d) =>
      && who.value !in halfway && who.value in hands && hands[who.value] == d
      && Disciplined(Apply(s, step), rest, hands,
                     if s.deliveries[d].phase == Open then halfway[who.value := d] else halfway)
    case AckRemove(_) => Disciplined(Apply(s, step), rest, hands, halfway - {who.value})
    case Nack(d) =>
      && who.value !in halfway && who.value in hands && hands[who.value] == d
      && Disciplined(Apply(s, step), rest, hands, halfway)
    case _ => Disciplined(Apply(s, step), rest, hands, halfway)
  }

  /** Every live delivery is the one in its subscription's hand, committed exactly while that is halfway. */
  ghost predicate InHand<D>(s: State<D>, hands: map<nat, nat>, halfway: map<nat, nat>) {
    && (forall e :: 0 <= e < |s.deliveries| && s.deliveries[e].Live() ==>
         s.deliveries[e].sub in hands && hands[s.deliveries[e].sub] == e)
    && (forall e :: 0 <= e < |s.deliveries| && s.deliveries[e].phase == Committed ==>
         s.deliveries[e].sub in halfway && halfway[s.deliveries[e].sub] == e)
  }

  lemma StepInHand<D>(s: State<D>, steps: seq<Step<D>>, hands: map<nat, nat>, halfway: map<nat, nat>)
    returns (hands': map<nat, nat>, halfway': map<nat, nat>)
    requires Legal(s, steps) && steps != [] && Disciplined(s, steps, hands, halfway)
    requires Exclusive(s) && Backed(s) && InHand(s, hands, halfway)
    ensures !Hazard(s, steps[0])
    ensures InHand(Apply(s, steps[0]), hands', halfway')
    ensures Disciplined(Apply(s, steps[0]), steps[1..], hands', halfway')
  {
    hide Exclusive, Backed, Hazard, Apply, InHand;
    var step, who := steps[0], By(s, steps[0]);
    hands', halfway' := hands, halfway;
    match step
    case Take(sub, m) =>
      NotACall(s, step);
      TakeInHand(s, sub, m, hands, halfway);
      hands' := hands[sub := |s.deliveries|];
    case AckCommit(d) =>
      NoHazardInHand(s, step, d, hands, halfway);
      CommitInHand(s, d, hands, halfway);
      if s.deliveries[d].phase == Open {
        halfway' := halfway[who.value := d];
      }
    case AckRemove(d) =>
      NotACall(s, step);
      RemoveInHand(s, d, hands, halfway);
      halfway' := halfway - {who.value};
    case Nack(d) =>
      NoHazardInHand(s, step, d, hands, halfway);
      NackInHand(s, d, hands, halfway);
    case _ =>
      NotACall(s, step);
      OtherInHand(s, step, hands, halfway);
  }

  lemma NotACall<D>(s: State<D>, step: Step<D>)
    requires Enabled(s, step) && !step.AckCommit? && !step.Nack?
    ensures !Hazard(s, step)
  {
  }

  lemma TakeInHand<D>(s: State<D>, sub: nat, m: nat, hands: map<nat, nat>, halfway: map<nat, nat>)
    requires InHand(s, hands, halfway) && m in s.queue && m !in s.owner
    requires sub in hands ==> hands[sub] < |s.deliveries| && !s.deliveries[hands[sub]].Live()
    ensures InHand(Apply(s, Take(sub, m)), hands[sub := |s.deliveries|], halfway)
  {
    hide Apply;
    Taken(s, sub, m);
  }

  lemma CommitInHand<D>(s: State<D>, d: nat, hands: map<nat, nat>, halfway: map<nat, nat>)
    requires InHand(s, hands, halfway) && d < |s.deliveries|
    requires s.deliveries[d].sub !in halfway
    ensures InHand(Apply(s, AckCommit(d)), hands,
                   if s.deliveries[d].phase == Open then halfway[s.deliveries[d].sub := d] else halfway)
  {
    hide Apply;
    if s.deliveries[d].phase == Open {
      Flushed(s, d);
    } else {
      TooLate(s, d);
    }
  }

  lemma RemoveInHand<D>(s: State<D>, d: nat, hands: map<nat, nat>, halfway: map<nat, nat>)
    requires InHand(s, hands, halfway) && Enabled(s, AckRemove(d))
    ensures InHand(Apply(s, AckRemove(d)), hands, halfway - {s.deliveries[d].sub})
  {
    hide Apply;
    Removed(s, d);
  }

  lemma NackInHand<D>(s: State<D>, d: nat, hands: map<nat, nat>, halfway: map<nat, nat>)
    requires InHand(s, hands, halfway) && d < |s.deliveries|
    ensures InHand(Apply(s, Nack(d)), hands, halfway)
  {
    hide Apply;
    Refused(s, d);
  }

  lemma OtherInHand<D>(s: State<D>, step: Step<D>, hands: map<nat, nat>, halfway: map<nat, nat>)
    requires InHand(s, hands, halfway) && Enabled(s, step) && (step.Publish? || step.PublishIn? || step.Purge?)
    ensures InHand(Apply(s, step), hands, halfway)
  {
  }

  lemma NoHazardInHand<D>(s: State<D>, step: Step<D>, d: nat, hands: map<nat, nat>, halfway: map<nat, nat>)
    requires Exclusive(s) && Backed(s) && InHand(s, hands, halfway) && Enabled(s, step)
    requires step == AckCommit(d) || step == Nack(d)
    requires s.deliveries[d].sub !in halfway && s.deliveries[d].sub in hands && hands[s.deliveries[d].sub] == d
    ensures !Hazard(s, step)
  {
    assert Holding(s, s.deliveries[d].sub, Some(d));
    InHandNoHazard(s, step, s.deliveries[d].sub, d);
  }

  /** Over every interleaving of subscribers that use only what they have in hand, ownership is exclusive. */
  lemma {:induction false} DisciplinedTidy<D>(s: State<D>, steps: seq<Step<D>>, hands: map<nat, nat>,
                                              halfway: map<nat, nat>)
    requires Legal(s, steps) && Disciplined(s, steps, hands, halfway)
    requires Exclusive(s) && Backed(s) && InHand(s, hands, halfway)
    ensures Tidy(s, steps) && Exclusive(Exec(s, steps)) && Backed(Exec(s, steps))
    decreases |steps|
  {
    hide Exclusive, Backed, Hazard, Apply, InHand, Disciplined;
    if steps != [] {
      var hands', halfway' := StepInHand(s, steps, hands, halfway);
      StepExclusive(s, steps[0]);
      DisciplinedTidy(Apply(s, steps[0]), steps[1..], hands', halfway');
    }
  }

  /** So it is from an empty queue on. */
  lemma SubscribersExclusive<D>(steps: seq<Step<D>>)
    requires Legal(Init<D>(), steps) && Disciplined(Init<D>(), steps, map[], map[])
    ensures Exclusive(Exec(Init<D>(), steps)) && Throughout(Init<D>(), steps)
  {
    DisciplinedTidy(Init<D>(), steps, map[], map[]);
    TidyIff(Init<D>(), steps);
  }

  /** Prefixing a run by one step. */
  lemma RunStep<D>(s: State<D>, step: Step<D>, t: State<D>, rest: seq<Step<D>>)
    requires Enabled(s, step) && Apply(s, step) == t && Legal(t, rest)
    ensures Legal(s, [step] + rest) && Exec(s, [step] + rest) == Exec(t, rest)
  {
    assert ([step] + rest)[1..] == rest;
  }

  /**
   The hazard is real: a message is taken and refused, taken again by the same subscription,
   refused once more through the first, stale handle, and taken by a second subscription.
   Both subscriptions then acknowledge it and both transactions commit.
   */
  lemma StaleRefusal<D>(x: D) returns (steps: seq<Step<D>>)
    ensures Legal(Init<D>(), steps)
    ensures var t := Exec(Init<D>(), steps);
      |t.deliveries| == 3 && t.deliveries[1] == Delivery(1, 0, [], Committed)
        && t.deliveries[2] == Delivery(2, 0, [], Committed)
  {
    var m := Message(x, Direct);
    var d0, d1, d2: Delivery<D> := Delivery(1, 0, [], RolledBack), Delivery(1, 0, [], Open), Delivery(2, 0, [], Open);
    var s1 := State([m], [0], map[], [], {}, {});
    var s2 := State([m], [0], map[0 := 1], [d1], {}, {});
    var s3 := State([m], [0], map[], [d0], {}, {});
    var s4 := State([m], [0], map[0 := 1], [d0, d1], {}, {});
    var s5 := State([m], [0], map[], [d0, d1], {}, {});
    var s6 := State([m], [0], map[0 := 2], [d0, d1, d2], {}, {});
    var s7 := State([m], [0], map[0 := 2], [d0, d1.(phase := Committed), d2], {}, {});
    var s8 := State([m], [0], map[0 := 2], [d0, d1.(phase := Committed), d2.(phase := Committed)], {}, {});
    StaleRefusalEnd(x, s6, s7, s8);
    steps := [AckCommit(1), AckCommit(2)];
    RunStep(s5, Take(2, 0), s6, steps);
    steps := [Take(2, 0)] + steps;
    RunStep(s4, Nack(0), s5, steps);
    steps := [Nack(0)] + steps;
    RunStep(s3, Take(1, 0), s4, steps);
    steps := [Take(1, 0)] + steps;
    RunStep(s2, Nack(0), s3, steps);
    steps := [Nack(0)] + steps;
    RunStep(s1, Take(1, 0), s2, steps);
    steps := [Take(1, 0)] + steps;
    RunStep(Init<D>(), Publish(x), s1, steps);
    steps := [Publish(x)] + steps;
  }

  lemma StaleRefusalEnd<D>(x: D, s6: State<D>, s7: State<D>, s8: State<D>)
    requires s6.deliveries == [Delivery(1, 0, [], RolledBack), Delivery(1, 0, [], Open), Delivery(2, 0, [], Open)]
    requires s6.queue == [0] && |s6.all| == 1
    requires s7 == SetPhase(s6, 1, Committed) && s8 == SetPhase(s7, 2, Committed)
    ensures Legal(s6, [AckCommit(1), AckCommit(2)]) && Exec(s6, [AckCommit(1), AckCommit(2)]) == s8
  {
    assert s6.all + Sent([], 1) == s6.all && s6.queue + Fresh(1, 0) == s6.queue;
    assert Apply(s6, AckCommit(1)) == s7;
    assert s7.all + Sent([], 2) == s7.all && s7.queue + Fresh(1, 0) == s7.queue;
    assert Apply(s7, AckCommit(2)) == s8;
    var first, last: Step<D> := AckCommit(1), AckCommit(2);
    assert [last] + [] == [last] && [first] + [last] == [first, last];
    RunStep(s7, last, s8, []);
    RunStep(s6, first, s7, [last]);
  }

  // ---------------------------------------------------------------- the imperative code

  class Msg<D> {
    const id: nat
    const v: D
    /** The subscription that holds the message, or 0. */
    var takenBy: nat

    constructor (id: nat, v: D)
      ensures this.id == id && this.v == v && takenBy == 0
    {
      this.id, this.v, takenBy := id, v, 0;
    }

    method Take(sub: nat) returns (taken: bool)
      requires sub != 0
      modifies this
      ensures taken == (old(takenBy) == 0) && takenBy == if taken then sub else old(takenBy)
    {
      taken := takenBy == 0;
      if taken {
        takenBy := sub;
      }
    }

    /** Only the subscription that holds the message can release it. */
    method Release(sub: nat)
      modifies this
      ensures takenBy == if old(takenBy) == sub then 0 else old(takenBy)
    {
      if takenBy != 0 && takenBy == sub {
        takenBy := 0;
      }
    }
  }

  /** A delivered message with its transaction: the data published in it so far, and whether it is over. */
  class Handle<D> {
    const sub: nat
    const msg: Msg<D>
    var ds: seq<D>
    var done: bool

    constructor (sub: nat, msg: Msg<D>)
      ensures this.sub == sub && this.msg == msg && ds == [] && !done
    {
      this.sub, this.msg, ds, done := sub, msg, [], false;
    }
  }

  /** The first message of the queue that nobody holds. */
  ghost predicate FirstFree<D>(s: State<D>, k: nat) {
    k < |s.queue| && s.queue[k] !in s.owner && forall j :: 0 <= j < k ==> s.queue[j] in s.owner
  }

  /** The message objects are the messages published, each held by its owner. */
  ghost predicate Holds<D>(all: seq<Msg<D>>, messages: seq<Message<D>>, owner: map<nat, nat>)
    reads all
  {
    && |all| == |messages|
    && (forall i :: 0 <= i < |all| ==> all[i].id == i && all[i].v == messages[i].data)
    && (forall i :: 0 <= i < |all| ==> (all[i].takenBy != 0 <==> i in owner))
    && (forall i :: i in owner ==> i < |all| && all[i].takenBy == owner[i])
  }

  /** The queue's objects, in the queue's order. */
  ghost predicate Lined<D>(msgs: seq<Msg<D>>, queue: seq<nat>, all: seq<Msg<D>>) {
    && |msgs| == |queue|
    && forall k :: 0 <= k < |msgs| ==> queue[k] < |all| && msgs[k] == all[queue[k]]
  }

  /** The handles given out are the deliveries. */
  ghost predicate Handed<D>(handles: seq<Handle<D>>, deliveries: seq<Delivery<D>>, all: seq<Msg<D>>)
    reads handles
  {
    && |handles| == |deliveries|
    && (forall i, j :: 0 <= i < j < |handles| ==> handles[i] != handles[j])
    && forall k :: 0 <= k < |handles| ==>
         && deliveries[k].msg < |all|
         && handles[k].sub == deliveries[k].sub != 0
         && handles[k].msg == all[deliveries[k].msg]
         && (handles[k].done <==> deliveries[k].phase != Open)
         && (!handles[k].done ==> handles[k].ds == deliveries[k].buffer)
  }

  lemma HoldsMore<D>(all: seq<Msg<D>>, messages: seq<Message<D>>, owner: map<nat, nat>, made: seq<Msg<D>>,
    ds: seq<D>, d: nat)
    requires Holds(all, messages, owner) && |made| == |ds|
    requires forall i :: 0 <= i < |ds| ==> made[i].id == |all| + i && made[i].v == ds[i] && made[i].takenBy == 0
    ensures Holds(all + made, messages + Sent(ds, d), owner)
  {
    hide Sent;
  }

  lemma LinedMore<D>(msgs: seq<Msg<D>>, queue: seq<nat>, all: seq<Msg<D>>, made: seq<Msg<D>>)
    requires Lined(msgs, queue, all)
    ensures Lined(msgs + made, queue + Fresh(|all|, |made|), all + made)
  {
    hide Fresh;
  }

  lemma HandedNew<D>(handles: seq<Handle<D>>, deliveries: seq<Delivery<D>>, all: seq<Msg<D>>, h: Handle<D>, m: nat)
    requires Handed(handles, deliveries, all) && h !in handles && m < |all| && h.msg == all[m]
    requires h.sub != 0 && !h.done && h.ds == []
    ensures Handed(handles + [h], deliveries + [Delivery(h.sub, m, [], Open)], all)
  {
  }

  lemma HandedMore<D>(handles: seq<Handle<D>>, deliveries: seq<Delivery<D>>, all: seq<Msg<D>>, made: seq<Msg<D>>)
    requires Handed(handles, deliveries, all)
    ensures Handed(handles, deliveries, all + made)
  {
  }

  lemma HandedPhase<D>(handles: seq<Handle<D>>, deliveries: seq<Delivery<D>>, all: seq<Msg<D>>, d: nat, phase: Phase)
    requires Handed(handles, deliveries, all) && d < |deliveries| && deliveries[d].phase != Open && phase != Open
    ensures Handed(handles, deliveries[d := deliveries[d].(phase := phase)], all)
  {
  }

  class Queue<D> {
    var msgs: seq<Msg<D>>
    var msgIDIndex: nat
    /** The protocol state this queue is in, and the objects behind it. */
    ghost var s: State<D>
    ghost var all: seq<Msg<D>>
    ghost var handles: seq<Handle<D>>

    ghost predicate Messages()
      reads this, all
    {
      |all| == msgIDIndex && Holds(all, s.all, s.owner)
    }

    ghost predicate Queued()
      reads this
    {
      Lined(msgs, s.queue, all)
    }

    ghost predicate Handled()
      reads this, handles
    {
      Handed(handles, s.deliveries, all)
    }

    ghost predicate Valid()
      reads this, all, handles
    {
      Messages() && Queued() && Handled()
    }

    constructor ()
      ensures Valid() && s == Init() && all == [] && handles == []
    {
      msgs, msgIDIndex, s, all, handles := [], 0, Init(), [], [];
    }

    /** The queue is what it was, then new messages nobody holds that carry the data. */
    ghost predicate Appended(before: seq<Msg<D>>, data: seq<D>)
      reads this, msgs
    {
      && |msgs| == |before| + |data| && msgs[..|before|] == before
      && forall i :: |before| <= i < |msgs| ==> msgs[i].v == data[i - |before|] && msgs[i].takenBy == 0
    }

    /** The objects only grow in number. */
    twostate predicate Grown()
      reads this
    {
      && old(all) <= all && (forall i :: |old(all)| <= i < |all| ==> fresh(all[i]))
      && old(handles) <= handles && (forall i :: |old(handles)| <= i < |handles| ==> fresh(handles[i]))
    }

    method Publish(data: D)
      requires Valid()
      modifies this
      ensures Valid() && Grown() && s == Apply(old(s), Step.Publish(data))
      ensures |msgs| == |old(msgs)| + 1 && msgs[..|old(msgs)|] == old(msgs)
      ensures fresh(msgs[|old(msgs)|]) && msgs[|old(msgs)|].v == data && msgs[|old(msgs)|].takenBy == 0
    {
      var msg := new Msg(msgIDIndex, data);
      msgIDIndex := msgIDIndex + 1;
      msgs := msgs + [msg];
      all := all + [msg];
      s := Apply(s, Step.Publish(data));
    }

    /** Publishing with a delivery's context; the context is cancelled once the delivery is finished. */
    method PublishIn(h: Handle<D>, ghost d: nat, data: D) returns (ok: bool)
      requires Valid() && d < |handles| && handles[d] == h
      modifies this`s, h
      ensures Valid() && s == Apply(old(s), Step.PublishIn(d, data)) && ok == !old(h.done)
      ensures h.done == old(h.done) && h.ds == if ok then old(h.ds) + [data] else old(h.ds)
    {
      ok := !h.done;
      if ok {
        h.ds := h.ds + [data];
      }
      s := Apply(s, Step.PublishIn(d, data));
    }

    lemma SizesAgree()
      requires Valid()
      ensures |handles| == |s.deliveries|
    {
    }

    /** Tries to take the i-th message for the subscription. */
    method TryTake(sub: nat, i: nat) returns (r: Option<Handle<D>>)
      requires Valid() && sub != 0 && i < |msgs|
      modifies this`s, this`handles, msgs[i]
      ensures Valid() && Grown()
      ensures r == None ==> s == old(s) && handles == old(handles) && s.queue[i] in s.owner
      ensures r.Some? ==> |handles| == |old(handles)| + 1 && handles[|handles| - 1] == r.value
      ensures r.Some? ==> old(s.queue)[i] !in old(s.owner) && s == Apply(old(s), Step.Take(sub, old(s.queue)[i]))
    {
      hide Apply, Lined, Holds, Handed;
      ghost var m := QueuedAt(i);
      var taken := TakeHeld(sub, i, m);
      if !taken {
        return None;
      }
      var h := new Handle(sub, msgs[i]);
      HandedNew(handles, s.deliveries, all, h, m);
      handles := handles + [h];
      Taken(s, sub, m);
      s := Apply(s, Step.Take(sub, m));
      r := Some(h);
    }

    lemma QueuedAt(i: nat) returns (m: nat)
      requires Valid() && i < |msgs|
      ensures |msgs| == |s.queue| && m == s.queue[i] && m in s.queue && m < |all| && msgs[i] == all[m]
    {
      m := s.queue[i];
    }

    /** Takes the i-th message if nobody holds it. */
    method TakeHeld(sub: nat, i: nat, ghost m: nat) returns (taken: bool)
      requires Valid() && sub != 0 && i < |msgs| && m < |all| && msgs[i] == all[m]
      modifies msgs[i]
      ensures taken == (m !in s.owner)
      ensures Holds(all, s.all, if taken then s.owner[m := sub] else s.owner)
    {
      hide Lined, Handed;
      taken := msgs[i].Take(sub);
    }

    /** One pass over the queue: the first message nobody holds, or none. */
    method TakeNext(sub: nat) returns (r: Option<Handle<D>>)
      requires Valid() && sub != 0
      modifies this`s, this`handles, msgs
      ensures Valid() && Grown()
      ensures r == None ==> s == old(s) && forall k :: 0 <= k < |s.queue| ==> s.queue[k] in s.owner
      ensures r.Some? ==> |handles| == |old(handles)| + 1 && handles[|handles| - 1] == r.value
      ensures r.Some? ==> exists k :: 0 <= k < |old(s.queue)| && FirstFree(old(s), k)
                                      && s == Apply(old(s), Step.Take(sub, old(s.queue)[k]))
    {
      hide Messages, Handled, Apply;
      for i := 0 to |msgs|
        invariant Valid() && s == old(s) && handles == old(handles)
        invariant forall k :: 0 <= k < i ==> s.queue[k] in s.owner
      {
        r := TryTake(sub, i);
        if r.Some? {
          return;
        }
      }
      return None;
    }

    method Purge()
      requires Valid()
      modifies this
      ensures Valid() && Grown() && s == Apply(old(s), Step.Purge) && msgs == []
    {
      msgs := [];
      s := Apply(s, Step.Purge);
    }

    lemma DeliveryOf(d: nat)
      requires Valid() && d < |handles|
      ensures d < |s.deliveries| && (handles[d].done <==> s.deliveries[d].phase != Open)
      ensures |s.all| == |all| && s.deliveries[d].msg < |all| && handles[d].msg == all[s.deliveries[d].msg]
    {
    }

    /** Releases the handle's message if its subscription holds it. */
    method ReleaseHeld(h: Handle<D>, ghost d: nat)
      requires Valid() && d < |handles| && handles[d] == h && d < |s.deliveries|
      modifies h.msg
      ensures Holds(all, s.all, Freed(s, d))
      ensures h.msg.takenBy == if old(h.msg.takenBy) == h.sub then 0 else old(h.msg.takenBy)
    {
      hide Lined;
      h.msg.Release(h.sub);
    }

    /** Finishes an open delivery; what it buffered is dropped. */
    method Finish(h: Handle<D>, ghost d: nat)
      requires Handled() && d < |handles| && handles[d] == h && d < |s.deliveries| && !h.done
      modifies h
      ensures h.done
      ensures Handed(handles, s.deliveries[d := s.deliveries[d].(phase := RolledBack)], all)
      ensures Handed(handles, s.deliveries[d := s.deliveries[d].(phase := Committed)], all)
    {
      h.done, h.ds := true, [];
    }

    /**
     Refuses the delivery: the message is released if its subscription holds it, the transaction
     rolled back if open.
     */
    method Nack(h: Handle<D>, ghost d: nat) returns (ok: bool)
      requires Valid() && d < |handles| && handles[d] == h
      modifies this`s, h, h.msg
      ensures Valid() && s == Apply(old(s), Step.Nack(d)) && ok == !old(h.done) && h.done
      ensures h.msg.takenBy == if old(h.msg.takenBy) == h.sub then 0 else old(h.msg.takenBy)
    {
      hide Apply, Lined, Holds, Handed, Freed;
      DeliveryOf(d);
      Refused(s, d);
      ReleaseHeld(h, d);
      ok := !h.done;
      if ok {
        Finish(h, d);
      }
      assert s.deliveries == s.deliveries[d := s.deliveries[d]];
      s := Apply(s, Step.Nack(d));
    }

    /** New messages for the data, numbered on from `from`. */
    method MakeMessages(from: nat, ds: seq<D>) returns (made: seq<Msg<D>>)
      ensures |made| == |ds|
      ensures forall i :: 0 <= i < |ds| ==>
        fresh(made[i]) && made[i].id == from + i && made[i].v == ds[i] && made[i].takenBy == 0
    {
      made := [];
      for i := 0 to |ds|
        invariant |made| == i
        invariant forall j :: 0 <= j < i ==>
          fresh(made[j]) && made[j].id == from + j && made[j].v == ds[j] && made[j].takenBy == 0
      {
        var msg := new Msg(from + i, ds[i]);
        made := made + [msg];
      }
    }

    /**
     First half of an acknowledgement: commits the delivery's transaction, which appends the
     published data to the queue.  When the transaction is already over, the message is
     released instead, and an error returned.
     */
    method Commit(h: Handle<D>, ghost d: nat) returns (ok: bool)
      requires Valid() && d < |handles| && handles[d] == h
      modifies this, h, h.msg
      ensures Valid() && Grown() && handles == old(handles)
      ensures s == Apply(old(s), Step.AckCommit(d)) && ok == !old(h.done)
      ensures if ok then Appended(old(msgs), old(h.ds)) else msgs == old(msgs)
    {
      hide Apply, Lined, Holds, Handed, Freed;
      DeliveryOf(d);
      if h.done {
        TooLate(s, d);
        ReleaseHeld(h, d);
        s := Apply(s, Step.AckCommit(d));
        return false;
      }
      Flush(h, d);
      return true;
    }

    method Flush(h: Handle<D>, ghost d: nat)
      requires Valid() && d < |handles| && handles[d] == h && !h.done
      modifies this, h
      ensures Valid() && Grown() && handles == old(handles) && s == Apply(old(s), Step.AckCommit(d))
      ensures Appended(old(msgs), old(h.ds))
    {
      hide Sent, Fresh, Apply, Lined, Holds, Handed;
      DeliveryOf(d);
      BufferOf(d);
      Flushed(s, d);
      var ds := h.ds;
      Finish(h, d);
      var made := MakeMessages(msgIDIndex, ds);
      HoldsMore(all, s.all, s.owner, made, ds, d);
      LinedMore(msgs, s.queue, all, made);
      HandedMore(handles, s.deliveries[d := s.deliveries[d].(phase := Committed)], all, made);
      msgIDIndex := msgIDIndex + |made|;
      msgs := msgs + made;
      all := all + made;
      s := Apply(s, Step.AckCommit(d));
    }

    lemma BufferOf(d: nat)
      requires Valid() && d < |handles| && !handles[d].done
      ensures d < |s.deliveries| && handles[d].ds == s.deliveries[d].buffer
    {
    }

    /** Second half: removes the message from the queue and releases it. */
    method Remove(h: Handle<D>, ghost d: nat)
      requires Valid() && d < |handles| && handles[d] == h && s.deliveries[d].phase == Committed
      modifies this, h.msg
      ensures Valid() && handles == old(handles) && all == old(all) && s == Apply(old(s), Step.AckRemove(d))
      ensures h.msg !in msgs && forall m :: m in old(msgs) && m != h.msg ==> m in msgs
    {
      hide Apply, Without, Lined, Holds, Handed, Freed;
      DeliveryOf(d);
      Removed(s, d);
      ghost var m := s.deliveries[d].msg;
      var kept := Others(h.msg, m);
      ReleaseHeld(h, d);
      HandedPhase(handles, s.deliveries, all, d, Acked);
      msgs := kept;
      s := Apply(s, Step.AckRemove(d));
    }

    /** The queue without one message. */
    method Others(msg: Msg<D>, ghost m: nat) returns (kept: seq<Msg<D>>)
      requires Messages() && Queued() && m < |all| && msg == all[m]
      ensures Lined(kept, Without(s.queue, m), all)
      ensures forall x :: x in kept <==> x in msgs && x != msg
    {
      kept := [];
      for i := 0 to |msgs|
        invariant Lined(kept, Without(s.queue[..i], m), all)
        invariant forall x :: x in kept <==> x in msgs[..i] && x != msg
      {
        assert s.queue[..i + 1][..i] == s.queue[..i];
        assert msgs[..i + 1] == msgs[..i] + [msgs[i]];
        if msgs[i].id != msg.id {
          kept := kept + [msgs[i]];
        }
      }
      assert s.queue[..|msgs|] == s.queue && msgs[..|msgs|] == msgs;
    }

    /** An acknowledgement that nothing comes in between. */
    method Ack(h: Handle<D>, ghost d: nat) returns (ok: bool)
      requires Valid() && d < |handles| && handles[d] == h
      modifies this, h, h.msg
      ensures Valid() && handles == old(handles) && ok == !old(h.done)
      ensures s == if ok then Apply(Apply(old(s), Step.AckCommit(d)), Step.AckRemove(d))
                   else Apply(old(s), Step.AckCommit(d))
    {
      ok := Commit(h, d);
      if ok {
        Remove(h, d);
      }
    }
  }

  /** A subscription: it goes on to the next message by refusing the one in hand, unless that is finished. */
  class Subscription<D> {
    const id: nat
    const q: Queue<D>
    var value: Option<Handle<D>>
    var closed: bool
    /** Which delivery the one in hand is. */
    ghost var d: nat

    ghost function Current(): Option<nat>
      reads this
    {
      if value.Some? then Some(d) else None
    }

    ghost predicate Valid()
      reads this, q, q.all, q.handles
    {
      && id != 0 && q.Valid()
      && (value.Some? ==> d < |q.handles| && q.handles[d] == value.value)
      && Holding(q.s, id, Current())
    }

    constructor (q: Queue<D>, id: nat)
      requires q.Valid() && id != 0 && Holding(q.s, id, None)
      ensures Valid() && this.q == q && this.id == id && value == None && !closed
    {
      this.q, this.id, value, closed, d := q, id, None, false, 0;
    }

    /** Puts away what is in hand; it is refused, which does nothing if it was finished already. */
    method Drop()
      requires Valid()
      modifies this, q`s, if value.Some? then {value.value, value.value.msg} else {}
      ensures Valid() && value == None && closed == old(closed)
      ensures q.s == if old(value).Some? then Apply(old(q.s), Step.Nack(old(d))) else old(q.s)
      ensures old(value).Some? && Exclusive(old(q.s)) && Backed(old(q.s)) ==> !Hazard(old(q.s), Step.Nack(old(d)))
    {
      hide Holding, Exclusive, Backed, Hazard, Apply, Lined, Holds, Handed;
      if value.Some? {
        InHand(d);
        InHandAfter(q.s, id, d);
        if Exclusive(q.s) && Backed(q.s) {
          InHandNoHazard(q.s, Step.Nack(d), id, d);
        }
        var ok := q.Nack(value.value, d);
        PutAway(q.s, id, d);
        value := None;
      }
    }

    lemma InHand(e: nat)
      requires Valid() && Current() == Some(e)
      ensures e < |q.s.deliveries| && e < |q.handles| && q.handles[e] == value.value
      ensures q.handles[e].done <==> q.s.deliveries[e].phase != Open
      ensures Holding(q.s, id, Some(e))
    {
      q.DeliveryOf(e);
    }

    /** Next, up to the point where the queue has nothing to take; `over` says that the context has ended. */
    method Next(over: bool) returns (got: bool)
      requires Valid()
      modifies this, q`s, q`handles, q.msgs, if value.Some? then {value.value, value.value.msg} else {}
      ensures Valid() && closed == old(closed) && (!over ==> got == value.Some?)
      ensures over ==> !got && q.s == old(q.s) && value == old(value)
      ensures !over ==>
        var put := if old(value).Some? then Apply(old(q.s), Step.Nack(old(d))) else old(q.s);
        && (closed ==> !got && q.s == put)
        && (!closed && !got ==> q.s == put && forall k :: 0 <= k < |put.queue| ==> put.queue[k] in put.owner)
        && (got ==> exists k :: 0 <= k < |put.queue| && FirstFree(put, k)
                                && q.s == Apply(put, Step.Take(id, put.queue[k])))
    {
      hide Holding, Apply, Lined, Holds, Handed;
      got := false;
      if over {
        return;
      }
      Drop();
      if !closed {
        got := Take();
      }
    }

    /** Takes the next message that nobody holds into an empty hand. */
    method Take() returns (got: bool)
      requires Valid() && value == None
      modifies this, q`s, q`handles, q.msgs
      ensures Valid() && closed == old(closed) && got == value.Some?
      ensures !got ==> q.s == old(q.s) && forall k :: 0 <= k < |q.s.queue| ==> q.s.queue[k] in q.s.owner
      ensures got ==> exists k :: 0 <= k < |old(q.s).queue| && FirstFree(old(q.s), k)
                                  && q.s == Apply(old(q.s), Step.Take(id, old(q.s).queue[k]))
    {
      hide Holding, Apply, Lined, Holds, Handed;
      ghost var put := q.s;
      q.SizesAgree();
      var r := q.TakeNext(id);
      got := r.Some?;
      if got {
        ghost var k :| 0 <= k < |put.queue| && FirstFree(put, k)
                       && q.s == Apply(put, Step.Take(id, put.queue[k]));
        assert put.queue[k] in put.queue;
        TakenInHand(put, id, put.queue[k]);
        value, d := r, |put.deliveries|;
      }
    }

    method Close()
      requires Valid()
      modifies this, q`s, if value.Some? then {value.value, value.value.msg} else {}
      ensures Valid() && closed && (old(closed) ==> value == old(value) && q.s == old(q.s))
      ensures !old(closed) ==>
        value == None && q.s == if old(value).Some? then Apply(old(q.s), Step.Nack(old(d))) else old(q.s)
    {
      if closed {
        return;
      }
      Drop();
      closed := true;
    }

    /** ACK of the message in hand, which stays in hand. */
    method Ack() returns (ok: bool)
      requires Valid() && value.Some?
      modifies q, value.value, value.value.msg
      ensures Valid() && ok == !old(value.value.done)
      ensures q.s == if ok then Apply(Apply(old(q.s), Step.AckCommit(d)), Step.AckRemove(d))
                     else Apply(old(q.s), Step.AckCommit(d))
      ensures Exclusive(old(q.s)) && Backed(old(q.s)) ==> !Hazard(old(q.s), Step.AckCommit(d))
    {
      hide Holding, Exclusive, Backed, Hazard, Apply;
      InHand(d);
      InHandAfter(q.s, id, d);
      if Exclusive(q.s) && Backed(q.s) {
        InHandNoHazard(q.s, Step.AckCommit(d), id, d);
      }
      ok := q.Ack(value.value, d);
    }
  }
}
