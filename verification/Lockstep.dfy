/**
 The lockstep readers of `pkg/iokit`: n readers over one stream, sharing one bounded window.

 `State` and the step functions over it describe the protocol; `Source` and `Output` are the
 imperative code, whose critical sections are proved to perform exactly these steps on a
 byte array.  The theorems about every interleaving are stated over `State`.
 */
module Lockstep {
  import opened Common

  type byte = b: int | 0 <= b < 256

  datatype Error = EOF | UnexpectedEOF | Failure(code: int)

  /** The bytes the underlying reader delivers, and the error it then returns for good. */
  datatype Stream = Stream(data: seq<byte>, fin: Error)

  datatype Config = Config(stream: Stream, wcap: nat)

  /**
   Where a reader's goroutine is: outside Read, at the top of Read's loop with `want` bytes
   still to deliver, about to enter waitForWindowUpdate, parked in it, or closed.
   */
  datatype Phase = Idle | Looping(want: nat) | Blocked(want: nat) | Parked(want: nat) | Closed

  datatype Reader = Reader(index: nat, phase: Phase) {
    predicate Open() { phase != Closed }
  }

  datatype State = State(index: nat, wlen: nat, err: Option<Error>, readers: seq<Reader>) {
    function Tail(): nat { index + wlen }
  }

  /** The error every reader gets to see: a stream cut short reads as its end. */
  function Reported(fin: Error): Error {
    if fin == UnexpectedEOF then EOF else fin
  }

  // ---------------------------------------------------------------- steps

  /** The position of the slowest open reader. */
  function Slowest(readers: seq<Reader>): (r: Option<nat>)
    ensures r == None <==> forall i :: 0 <= i < |readers| ==> !readers[i].Open()
    ensures r.Some? ==> exists i :: 0 <= i < |readers| && readers[i].Open() && readers[i].index == r.value
    ensures r.Some? ==> forall i :: 0 <= i < |readers| && readers[i].Open() ==> r.value <= readers[i].index
  {
    if readers == [] then None
    else
      var last := readers[|readers| - 1];
      var r := Slowest(readers[..|readers| - 1]);
      if !last.Open() then r
      else if r.Some? && r.value <= last.index then r
      else Some(last.index)
  }

  /** Reads as much of the stream as the window has room for. */
  function Fill(c: Config, s: State): State
    requires s.Tail() <= |c.stream.data|
  {
    if c.wcap <= s.wlen || s.err.Some? then s
    else if s.index + c.wcap <= |c.stream.data| then s.(wlen := c.wcap)
    else s.(wlen := |c.stream.data| - s.index, err := Some(Reported(c.stream.fin)))
  }

  function Shift(s: State, n: nat): State
    requires n <= s.wlen
  {
    s.(index := s.index + n, wlen := s.wlen - n)
  }

  /** How far the window may move: up to the slowest open reader, and not at all after an error. */
  function Room(s: State): int {
    if s.err.Some? then 0
    else
      var slowest := Slowest(s.readers);
      (if slowest.Some? then slowest.value else 0) - s.index
  }

  predicate SomeOpen(s: State) {
    exists i :: 0 <= i < |s.readers| && s.readers[i].Open()
  }

  /** The readers still open are not behind the window; nobody is ahead of it. */
  predicate InWindow(s: State) {
    forall i :: 0 <= i < |s.readers| ==>
      && s.readers[i].index <= s.Tail()
      && (s.readers[i].Open() ==> s.index <= s.readers[i].index)
  }

  /** Fill, move the window, fill again; true when the tail moved or the window did. */
  function Advance(c: Config, s: State): (State, bool)
    requires s.Tail() <= |c.stream.data| && SomeOpen(s) && InWindow(s)
  {
    var filled := Fill(c, s);
    var n := Min(Room(filled), filled.wlen);
    if n == 0 then (filled, s.Tail() < filled.Tail())
    else (Fill(c, Shift(filled, n)), true)
  }

  function Woken(reader: Reader): Reader {
    if reader.phase.Parked? then reader.(phase := Looping(reader.phase.want)) else reader
  }

  /** Broadcast: every parked reader goes on. */
  function Wake(s: State): State {
    s.(readers := seq(|s.readers|, i requires 0 <= i < |s.readers| => Woken(s.readers[i])))
  }

  function SetReader(s: State, r: nat, reader: Reader): State
    requires r < |s.readers|
  {
    s.(readers := s.readers[r := reader])
  }

  function BeginRead(s: State, r: nat, want: nat): State
    requires r < |s.readers| && s.readers[r].phase == Idle
  {
    SetReader(s, r, s.readers[r].(phase := Looping(want)))
  }

  /** One pass of Read under the shared lock: take what the window has, then look at the error. */
  function Pull(s: State, r: nat): State
    requires r < |s.readers| && s.readers[r].phase.Looping? && InWindow(s)
  {
    var reader := s.readers[r];
    var want := reader.phase.want;
    var n := Min(want, s.Tail() - reader.index);
    var index := reader.index + n;
    var phase :=
      if n == want || (s.err.Some? && index == s.Tail()) then Idle
      else Blocked(want - n);
    var moved := SetReader(s, r, Reader(index, phase));
    if s.Tail() == reader.index then moved else Wake(moved)
  }

  function OpenCount(readers: seq<Reader>): nat {
    if readers == [] then 0
    else OpenCount(readers[..|readers| - 1]) + (if readers[|readers| - 1].Open() then 1 else 0)
  }

  function ParkedCount(readers: seq<Reader>): nat {
    if readers == [] then 0
    else ParkedCount(readers[..|readers| - 1]) + (if readers[|readers| - 1].phase.Parked? then 1 else 0)
  }

  /**
   waitForWindowUpdate under the exclusive lock.  `waiting` is the phaser's length, which
   counts the parked readers and possibly woken ones that have not left the phaser yet.
   */
  function Wait(c: Config, s: State, r: nat, waiting: nat): State
    requires r < |s.readers| && s.readers[r].phase.Blocked?
    requires s.Tail() <= |c.stream.data| && InWindow(s)
  {
    var want := s.readers[r].phase.want;
    if s.err.Some? then SetReader(Wake(s), r, s.readers[r].(phase := Looping(want)))
    else
      var (t, moved) := Advance(c, s);
      if moved then SetReader(Wake(t), r, s.readers[r].(phase := Looping(want)))
      else
        var u := if waiting == OpenCount(s.readers) - 1 then Wake(t) else t;
        SetReader(u, r, s.readers[r].(phase := Parked(want)))
  }

  function Close(s: State, r: nat): State
    requires r < |s.readers| && s.readers[r].phase == Idle
  {
    Wake(SetReader(s, r, s.readers[r].(phase := Closed)))
  }

  datatype Step = ABegin(want: nat) | APull | AWait(waiting: nat) | AClose

  predicate Enabled(c: Config, s: State, r: nat, step: Step) {
    && r < |s.readers|
    && match step
       case ABegin(_) => s.readers[r].phase == Idle
       case APull => s.readers[r].phase.Looping?
       case AWait(waiting) => s.readers[r].phase.Blocked? && ParkedCount(s.readers) <= waiting < OpenCount(s.readers)
       case AClose => s.readers[r].phase == Idle
  }

  function Apply(c: Config, s: State, r: nat, step: Step): State
    requires Inv(c, s) && Enabled(c, s, r, step)
  {
    match step
    case ABegin(want) => BeginRead(s, r, want)
    case APull => Pull(s, r)
    case AWait(waiting) => Wait(c, s, r, waiting)
    case AClose => Close(s, r)
  }

  // ---------------------------------------------------------------- what the steps achieve

  /** A stream that ends, or is cut short, is reported as ended; any other failure as it is. */
  lemma ReportedMeaning(fin: Error)
    ensures Reported(EOF) == EOF && Reported(UnexpectedEOF) == EOF
    ensures fin.Failure? ==> Reported(fin) == fin
  {
  }

  /**
   Advancing fills the window; if that does not end the stream, the window then starts at the
   slowest open reader and is as full as the stream allows.
   */
  lemma AdvanceMeaning(c: Config, s: State)
    requires Inv(c, s) && SomeOpen(s)
    ensures var t, data := Advance(c, s).0, |c.stream.data|;
      if s.err.Some? then t == s
      else if data < s.index + c.wcap then
        t.index == s.index && t.Tail() == data && t.err == Some(Reported(c.stream.fin))
      else
        && Some(t.index) == Slowest(s.readers) && t.Tail() == Min(t.index + c.wcap, data)
        && t.err == if t.index + c.wcap <= data then None else Some(Reported(c.stream.fin))
  {
  }

  /** A pass takes as much as is asked for or there; with bytes in front of it, nobody stays parked. */
  lemma PullMeaning(s: State, r: nat)
    requires r < |s.readers| && s.readers[r].phase.Looping? && InWindow(s)
    ensures var t, n := Pull(s, r), Min(s.readers[r].phase.want, s.Tail() - s.readers[r].index);
      && |t.readers| == |s.readers| && t.index == s.index && t.wlen == s.wlen && t.err == s.err
      && t.readers[r].index == s.readers[r].index + n
      && (forall i :: 0 <= i < |t.readers| && i != r ==> t.readers[i].index == s.readers[i].index)
      && (s.readers[r].index < s.Tail() ==> forall i :: 0 <= i < |t.readers| ==> !t.readers[i].phase.Parked?)
  {
  }

  /** A wait that finds an error, moves the window, or finds everybody else waiting, wakes the others. */
  lemma WaitMeaning(c: Config, s: State, r: nat, waiting: nat)
    requires Inv(c, s) && r < |s.readers| && s.readers[r].phase.Blocked?
    ensures s.readers[r].Open() && SomeOpen(s)
    ensures var t := Wait(c, s, r, waiting);
      |t.readers| == |s.readers| &&
      (s.err.Some? || Advance(c, s).1 || waiting == OpenCount(s.readers) - 1 ==>
         forall i :: 0 <= i < |t.readers| && i != r ==> !t.readers[i].phase.Parked?)
  {
    assert s.readers[r].Open();
    AdvanceInv(c, s);
    hide Advance, OpenCount;
  }

  /** A reader that closes wakes the others. */
  lemma CloseMeaning(s: State, r: nat)
    requires r < |s.readers| && s.readers[r].phase == Idle
    ensures var t := Close(s, r);
      |t.readers| == |s.readers| && t.readers[r].phase == Closed
      && forall i :: 0 <= i < |t.readers| ==> !t.readers[i].phase.Parked?
  {
  }

  // ---------------------------------------------------------------- the invariant

  predicate Inv(c: Config, s: State) {
    && 0 < c.wcap
    && s.wlen <= c.wcap
    && s.Tail() <= |c.stream.data|
    && InWindow(s)
    // an error is recorded only after the last byte
    && (s.err.Some? ==> s.Tail() == |c.stream.data| && s.err.value == Reported(c.stream.fin))
    // without an error the window is full, or was never filled
    && (s.err == None ==> s.wlen == c.wcap || (s.index == 0 && s.wlen == 0))
  }

  /** n fresh readers over an unread stream. */
  predicate Init(s: State) {
    s.index == 0 && s.wlen == 0 && s.err == None && forall i :: 0 <= i < |s.readers| ==> s.readers[i] == Reader(0, Idle)
  }

  lemma InitInv(c: Config, s: State)
    requires Init(s) && 0 < c.wcap
    ensures Inv(c, s)
  {
  }

  lemma FillInv(c: Config, s: State)
    requires Inv(c, s)
    ensures Inv(c, Fill(c, s)) && (Fill(c, s).err == None ==> Fill(c, s).wlen == c.wcap)
  {
  }

  lemma RoomAhead(c: Config, s: State)
    requires Inv(c, s) && SomeOpen(s)
    ensures 0 <= Room(Fill(c, s))
  {
  }

  lemma AdvanceInv(c: Config, s: State)
    requires Inv(c, s) && SomeOpen(s)
    ensures var (t, moved) := Advance(c, s);
      && Inv(c, t) && t.readers == s.readers
      && s.index <= t.index && s.Tail() <= t.Tail()
      && (t.err == None ==> t.wlen == c.wcap)
  {
  }

  /** Waking and moving readers that stay in the window. */
  lemma MovedInv(c: Config, s: State, r: nat, reader: Reader)
    requires Inv(c, s) && r < |s.readers|
    requires s.index <= reader.index <= s.Tail() || (reader.index <= s.Tail() && !reader.Open())
    ensures Inv(c, SetReader(s, r, reader)) && Inv(c, Wake(SetReader(s, r, reader)))
    ensures Inv(c, SetReader(Wake(s), r, reader))
  {
  }

  lemma WaitInv(c: Config, s: State, r: nat, waiting: nat)
    requires Inv(c, s) && r < |s.readers| && s.readers[r].phase.Blocked?
    ensures Inv(c, Wait(c, s, r, waiting))
  {
    assert s.readers[r].Open();
    var want := s.readers[r].phase.want;
    AdvanceInv(c, s);
    hide Advance, OpenCount, Wake, SetReader;
    var t := if s.err.Some? then s else Advance(c, s).0;
    MovedInv(c, t, r, s.readers[r].(phase := Looping(want)));
    MovedInv(c, t, r, s.readers[r].(phase := Parked(want)));
  }

  /** Every step of every reader keeps the invariant. */
  lemma StepInv(c: Config, s: State, r: nat, step: Step)
    requires Inv(c, s) && Enabled(c, s, r, step)
    ensures Inv(c, Apply(c, s, r, step))
  {
    hide Wait, Wake, SetReader, OpenCount, ParkedCount;
    var reader := s.readers[r];
    match step
    case ABegin(want) =>
      MovedInv(c, s, r, reader.(phase := Looping(want)));
    case APull =>
      var n := Min(reader.phase.want, s.Tail() - reader.index);
      MovedInv(c, s, r, Reader(reader.index + n, Idle));
      MovedInv(c, s, r, Reader(reader.index + n, Blocked(reader.phase.want - n)));
    case AWait(waiting) =>
      WaitInv(c, s, r, waiting);
    case AClose =>
      MovedInv(c, s, r, reader.(phase := Closed));
  }

  // ---------------------------------------------------------------- counting readers

  lemma {:induction false} TwoOpen(readers: seq<Reader>, i: nat, j: nat)
    requires i < j < |readers| && readers[i].Open() && readers[j].Open()
    ensures OpenCount(readers) >= 2
  {
    if j < |readers| - 1 {
      TwoOpen(readers[..|readers| - 1], i, j);
    } else {
      OneOpen(readers[..j], i);
    }
  }

  lemma {:induction false} OneOpen(readers: seq<Reader>, i: nat)
    requires i < |readers| && readers[i].Open()
    ensures OpenCount(readers) >= 1
    ensures (forall j :: 0 <= j < |readers| && j != i ==> !readers[j].Open()) ==> OpenCount(readers) == 1
  {
    if i < |readers| - 1 {
      OneOpen(readers[..|readers| - 1], i);
    } else {
      NoneOpen(readers[..i]);
    }
  }

  lemma {:induction false} NoneOpen(readers: seq<Reader>)
    ensures (forall j :: 0 <= j < |readers| ==> !readers[j].Open()) ==> OpenCount(readers) == 0
  {
    if readers != [] {
      NoneOpen(readers[..|readers| - 1]);
    }
  }

  /** When every open reader but `r` is parked, the parked readers are all the others. */
  lemma {:induction false} OthersParked(readers: seq<Reader>, r: nat)
    requires forall j :: 0 <= j < |readers| && j != r && readers[j].Open() ==> readers[j].phase.Parked?
    requires r < |readers| ==> readers[r].Open() && !readers[r].phase.Parked?
    ensures ParkedCount(readers) == OpenCount(readers) - (if r < |readers| then 1 else 0)
  {
    if readers != [] {
      OthersParked(readers[..|readers| - 1], r);
    }
  }

  // ---------------------------------------------------------------- theorems

  /** Open readers are never further apart than the buffer window. */
  lemma WithinWindow(c: Config, s: State, i: nat, j: nat)
    requires Inv(c, s) && i < |s.readers| && j < |s.readers| && s.readers[i].Open() && s.readers[j].Open()
    ensures s.readers[i].index - s.readers[j].index <= c.wcap
  {
  }

  /**
   The slowest open reader of a non-empty stream can always go on: it has bytes to pull, or
   one advance moves the tail or records the error.
   */
  lemma SlowestProgress(c: Config, s: State, r: nat)
    requires Inv(c, s) && 0 < |c.stream.data| && s.err == None
    requires r < |s.readers| && s.readers[r].Open() && Slowest(s.readers) == Some(s.readers[r].index)
    ensures || s.readers[r].index < s.Tail()
            || (Advance(c, s).1 && (s.Tail() < Advance(c, s).0.Tail() || Advance(c, s).0.err.Some?))
  {
  }

  ghost predicate AllParked(s: State) {
    SomeOpen(s) && forall i :: 0 <= i < |s.readers| && s.readers[i].Open() ==> s.readers[i].phase.Parked?
  }

  /** A state with open readers is stuck exactly when all of them are parked. */
  lemma StuckIffAllParked(c: Config, s: State)
    requires Inv(c, s) && SomeOpen(s)
    ensures AllParked(s) <==> forall r: nat, step :: !Enabled(c, s, r, step)
  {
    if !AllParked(s) {
      var i :| 0 <= i < |s.readers| && s.readers[i].Open() && !s.readers[i].phase.Parked?;
      match s.readers[i].phase
      case Idle => assert Enabled(c, s, i, AClose);
      case Looping(_) => assert Enabled(c, s, i, APull);
      case Blocked(_) =>
        CountsApart(s.readers, i);
        assert Enabled(c, s, i, AWait(ParkedCount(s.readers)));
      case _ => assert false;
    }
  }

  lemma {:induction false} CountsApart(readers: seq<Reader>, r: nat)
    requires r < |readers| ==> readers[r].Open() && !readers[r].phase.Parked?
    ensures ParkedCount(readers) + (if r < |readers| then 1 else 0) <= OpenCount(readers)
  {
    if readers != [] {
      CountsApart(readers[..|readers| - 1], r);
    }
  }

  /** `r` is the only open reader. */
  ghost predicate Alone(s: State, r: nat) {
    r < |s.readers| && forall i :: 0 <= i < |s.readers| ==> (s.readers[i].Open() <==> i == r)
  }

  /** Advancing achieves nothing exactly when the slowest reader still has the whole window, or there is no stream. */
  lemma AdvanceFutile(c: Config, s: State)
    requires Inv(c, s) && SomeOpen(s) && s.err == None
    ensures !Advance(c, s).1 <==> (0 < s.wlen && Slowest(s.readers) == Some(s.index)) || c.stream.data == []
    ensures Advance(c, s).0.readers == s.readers
  {
  }

  lemma OthersOpen(s: State, t: State, r: nat)
    requires r < |s.readers| && |t.readers| == |s.readers| && s.readers[r].Open()
    requires forall i :: 0 <= i < |s.readers| && i != r ==> (t.readers[i].Open() <==> s.readers[i].Open())
    requires forall i :: 0 <= i < |s.readers| && i != r ==> !t.readers[i].phase.Parked?
    requires t.readers[r].phase.Parked?
    ensures AllParked(t) <==> Alone(s, r)
  {
    assert t.readers[r].Open();
    if AllParked(t) {
      forall i | 0 <= i < |s.readers| ensures s.readers[i].Open() <==> i == r {
        assert i != r ==> !t.readers[i].phase.Parked?;
      }
    }
  }

  /**
   The last open reader parks for good exactly when it enters waitForWindowUpdate while a
   whole unread window lies in front of it (another reader moved the window and closed in the
   meantime), or when the stream is empty.
   */
  lemma WaitSticks(c: Config, s: State, r: nat, waiting: nat)
    requires Inv(c, s) && Enabled(c, s, r, AWait(waiting))
    ensures AllParked(Wait(c, s, r, waiting)) <==>
              && Alone(s, r) && s.err == None
              && ((0 < s.wlen && s.readers[r].index == s.index) || c.stream.data == [])
  {
    assert s.Tail() <= |c.stream.data| && InWindow(s);
    hide Advance, Slowest, Inv;
    var t := Wait(c, s, r, waiting);
    if s.err.Some? {
      assert t.readers[r].Open();
    } else {
      AdvanceFutile(c, s);
      var (a, moved) := Advance(c, s);
      if moved {
        assert t.readers[r].Open() && !t.readers[r].phase.Parked?;
        if Alone(s, r) { SlowestAlone(s, r); }
      } else if waiting == OpenCount(s.readers) - 1 {
        OthersOpen(s, t, r);
        if Alone(s, r) { SlowestAlone(s, r); }
      } else {
        if AllParked(t) {
          forall i | 0 <= i < |s.readers| && i != r && s.readers[i].Open() ensures s.readers[i].phase.Parked? {
            assert t.readers[i].Open();
          }
          OthersParked(s.readers, r);
        }
        if Alone(s, r) {
          OneOpen(s.readers, r);
        }
      }
    }
  }

  lemma SlowestAlone(s: State, r: nat)
    requires Alone(s, r)
    ensures Slowest(s.readers) == Some(s.readers[r].index)
  {
    assert s.readers[r].Open();
  }

  /** A lone reader that has taken everything in the window gets more from a wait, and is not parked. */
  lemma LoneWait(c: Config, s: State, r: nat)
    requires Inv(c, s) && Alone(s, r) && s.readers[r].phase.Blocked?
    requires s.readers[r].index == s.Tail() && s.err == None && c.stream.data != []
    ensures Enabled(c, s, r, AWait(0))
    ensures var t := Wait(c, s, r, 0);
      && Alone(t, r) && t.readers[r] == Reader(s.readers[r].index, Looping(s.readers[r].phase.want))
      && s.Tail() <= t.Tail() && (s.Tail() < t.Tail() || t.err.Some?)
  {
    hide Advance, Slowest;
    assert s.readers[r].Open();
    OneOpen(s.readers, r);
    OthersParked(s.readers, r);
    SlowestAlone(s, r);
    AdvanceFutile(c, s);
    SlowestProgress(c, s, r);
    AdvanceInv(c, s);
  }

  lemma LonePull(c: Config, s: State, r: nat)
    requires Inv(c, s) && Alone(s, r) && s.readers[r].phase.Looping?
    ensures Alone(Pull(s, r), r)
    ensures var t := Pull(s, r);
      && t.err == s.err && t.Tail() == s.Tail()
      && (t.readers[r].phase.Blocked? ==> t.readers[r].index == t.Tail() && t.err == None)
  {
  }

  // ---------------------------------------------------------------- whole runs

  datatype Act = Act(reader: nat, step: Step)

  /** The acts can be performed one after the other, whatever the interleaving. */
  ghost predicate Legal(c: Config, s: State, acts: seq<Act>)
    requires Inv(c, s)
    decreases |acts|
  {
    acts == [] ||
    (Enabled(c, s, acts[0].reader, acts[0].step) &&
     (StepInv(c, s, acts[0].reader, acts[0].step);
      Legal(c, Apply(c, s, acts[0].reader, acts[0].step), acts[1..])))
  }

  ghost function Exec(c: Config, s: State, acts: seq<Act>): (t: State)
    requires Inv(c, s) && Legal(c, s, acts)
    ensures Inv(c, t)
    decreases |acts|
  {
    if acts == [] then s
    else
      StepInv(c, s, acts[0].reader, acts[0].step);
      Exec(c, Apply(c, s, acts[0].reader, acts[0].step), acts[1..])
  }

  /** What a stuck state looks like when the stream has bytes. */
  ghost predicate StuckShape(c: Config, s: State) {
    exists r: nat :: Alone(s, r) && s.readers[r].phase.Parked? && s.readers[r].index == s.index
                     && s.wlen == c.wcap && s.err == None
  }

  lemma OneAwake(s: State, r: nat)
    requires r < |s.readers| && s.readers[r].Open() && !s.readers[r].phase.Parked?
    ensures !AllParked(s)
  {
  }

  lemma StepSticks(c: Config, s: State, r: nat, step: Step)
    requires Inv(c, s) && Enabled(c, s, r, step) && c.stream.data != []
    requires AllParked(Apply(c, s, r, step))
    ensures StuckShape(c, Apply(c, s, r, step))
  {
    var t := Apply(c, s, r, step);
    match step
    case ABegin(_) => OneAwake(t, r);
    case APull => OneAwake(t, r);
    case AClose => assert false;
    case AWait(waiting) =>
      WaitSticks(c, s, r, waiting);
      SlowestAlone(s, r);
      AdvanceFutile(c, s);
      assert Alone(t, r);
  }

  /**
   Over every interleaving of any number of readers: if the readers of a non-empty stream are
   stuck, only one of them is still open, and the whole window is there for it to read.
   In particular two open readers are never stuck.
   */
  lemma {:induction false} RunStuck(c: Config, s: State, acts: seq<Act>)
    requires Inv(c, s) && Legal(c, s, acts) && c.stream.data != []
    requires AllParked(s) ==> StuckShape(c, s)
    ensures AllParked(Exec(c, s, acts)) ==> StuckShape(c, Exec(c, s, acts))
    decreases |acts|
  {
    if acts != [] {
      StepInv(c, s, acts[0].reader, acts[0].step);
      var t := Apply(c, s, acts[0].reader, acts[0].step);
      if AllParked(t) {
        StepSticks(c, s, acts[0].reader, acts[0].step);
      }
      RunStuck(c, t, acts[1..]);
    }
  }

  ghost predicate NoneCloses(acts: seq<Act>) {
    forall i :: 0 <= i < |acts| ==> !acts[i].step.AClose?
  }

  lemma {:induction false} StaysOpen(c: Config, s: State, acts: seq<Act>)
    requires Inv(c, s) && Legal(c, s, acts) && NoneCloses(acts)
    ensures |Exec(c, s, acts).readers| == |s.readers|
    ensures forall i :: 0 <= i < |s.readers| && s.readers[i].Open() ==> Exec(c, s, acts).readers[i].Open()
    decreases |acts|
  {
    if acts != [] {
      var act := acts[0];
      var t := Apply(c, s, act.reader, act.step);
      StepInv(c, s, act.reader, act.step);
      StepOpen(c, s, act.reader, act.step);
      StaysOpen(c, t, acts[1..]);
    }
  }

  lemma StepOpen(c: Config, s: State, r: nat, step: Step)
    requires Inv(c, s) && Enabled(c, s, r, step) && !step.AClose?
    ensures var t := Apply(c, s, r, step);
      |t.readers| == |s.readers| && forall i :: 0 <= i < |s.readers| && s.readers[i].Open() ==> t.readers[i].Open()
  {
    forall i | 0 <= i < |s.readers| && i != r
      ensures |Apply(c, s, r, step).readers| == |s.readers|
      ensures s.readers[i].Open() ==> Apply(c, s, r, step).readers[i].Open()
    {
      OthersStay(c, s, r, step, i);
    }
    if step.AWait? {
      WaitStays(c, s, r, step.waiting);
    }
  }

  /** A sole reader waits only after it has taken the whole window, and then goes on. */
  ghost predicate Sole(c: Config, s: State) {
    && Inv(c, s) && |s.readers| == 1 && s.readers[0].Open() && !s.readers[0].phase.Parked?
    && (s.readers[0].phase.Blocked? ==> s.readers[0].index == s.Tail() && s.err == None)
  }

  lemma SoleStep(c: Config, s: State, r: nat, step: Step)
    requires Sole(c, s) && Enabled(c, s, r, step) && !step.AClose? && c.stream.data != []
    ensures Sole(c, Apply(c, s, r, step))
  {
    assert Alone(s, 0);
    StepInv(c, s, r, step);
    match step
    case ABegin(_) =>
    case APull => LonePull(c, s, 0);
    case AWait(waiting) =>
      OneOpen(s.readers, 0);
      LoneWait(c, s, 0);
    case _ =>
  }

  lemma {:induction false} SoleRun(c: Config, s: State, acts: seq<Act>)
    requires Sole(c, s) && Legal(c, s, acts) && NoneCloses(acts) && c.stream.data != []
    ensures Sole(c, Exec(c, s, acts))
    decreases |acts|
  {
    if acts != [] {
      SoleStep(c, s, acts[0].reader, acts[0].step);
      SoleRun(c, Apply(c, s, acts[0].reader, acts[0].step), acts[1..]);
    }
  }

  /** As long as no reader closes, the readers of a non-empty stream are never stuck, however many there are. */
  lemma NeverStuck(c: Config, s: State, acts: seq<Act>)
    requires Init(s) && 0 < c.wcap && c.stream.data != [] && s.readers != []
    requires Inv(c, s) && Legal(c, s, acts) && NoneCloses(acts)
    ensures !AllParked(Exec(c, s, acts))
  {
    if |s.readers| == 1 {
      SoleRun(c, s, acts);
    } else {
      assert s.readers[0].Open() && s.readers[1].Open() && !s.readers[0].phase.Parked?;
      RunStuck(c, s, acts);
      StaysOpen(c, s, acts);
      NotAlone(Exec(c, s, acts));
    }
  }

  lemma NotAlone(s: State)
    requires |s.readers| > 1 && s.readers[0].Open() && s.readers[1].Open()
    ensures forall r: nat :: !Alone(s, r)
  {
  }

  /** Window and error bookkeeping only moves forward, and readers never move back, over every run. */
  lemma {:induction false} RunMonotone(c: Config, s: State, acts: seq<Act>)
    requires Inv(c, s) && Legal(c, s, acts)
    ensures var t := Exec(c, s, acts);
      && s.index <= t.index && s.Tail() <= t.Tail() && (s.err.Some? ==> t.err == s.err)
      && |t.readers| == |s.readers|
      && forall i :: 0 <= i < |s.readers| ==> s.readers[i].index <= t.readers[i].index
    decreases |acts|
  {
    if acts != [] {
      StepInv(c, s, acts[0].reader, acts[0].step);
      StepMonotone(c, s, acts[0].reader, acts[0].step);
      RunMonotone(c, Apply(c, s, acts[0].reader, acts[0].step), acts[1..]);
    }
  }

  lemma StepMonotone(c: Config, s: State, r: nat, step: Step)
    requires Inv(c, s) && Enabled(c, s, r, step)
    ensures var t := Apply(c, s, r, step);
      && s.index <= t.index && s.Tail() <= t.Tail() && (s.err.Some? ==> t.err == s.err)
      && |t.readers| == |s.readers|
      && forall i :: 0 <= i < |s.readers| ==> s.readers[i].index <= t.readers[i].index
  {
    match step
    case AWait(waiting) => WaitMonotone(c, s, r, waiting);
    case _ =>
  }

  lemma WaitMonotone(c: Config, s: State, r: nat, waiting: nat)
    requires Inv(c, s) && Enabled(c, s, r, AWait(waiting))
    ensures var t := Wait(c, s, r, waiting);
      && s.index <= t.index && s.Tail() <= t.Tail() && (s.err.Some? ==> t.err == s.err)
      && |t.readers| == |s.readers|
      && forall i :: 0 <= i < |s.readers| ==> s.readers[i].index <= t.readers[i].index
  {
    hide Advance, OpenCount, ParkedCount;
    assert s.readers[r].Open();
    AdvanceInv(c, s);
  }

  /** A step of one reader leaves another where it is, except that it may wake it. */
  lemma OthersStay(c: Config, s: State, i: nat, step: Step, r: nat)
    requires Inv(c, s) && Enabled(c, s, i, step) && r != i && r < |s.readers|
    ensures var t := Apply(c, s, i, step);
      |t.readers| == |s.readers| && (t.readers[r] == s.readers[r] || t.readers[r] == Woken(s.readers[r]))
  {
    hide Advance, OpenCount, ParkedCount;
    if step.AWait? {
      assert s.readers[i].Open();
      AdvanceInv(c, s);
    }
  }

  /** A wait leaves the caller where it is in the stream, looping or parked. */
  lemma WaitStays(c: Config, s: State, r: nat, waiting: nat)
    requires Inv(c, s) && Enabled(c, s, r, AWait(waiting))
    ensures var t, want := Wait(c, s, r, waiting), s.readers[r].phase.want;
      && |t.readers| == |s.readers| && t.readers[r].index == s.readers[r].index
      && t.readers[r].phase in {Looping(want), Parked(want)}
  {
  }

  /** What the other readers make of a state; an act that is not possible is skipped. */
  ghost function Company(c: Config, s: State, r: nat, acts: seq<Act>): (t: State)
    requires Inv(c, s) && r < |s.readers|
    ensures Inv(c, t) && |t.readers| == |s.readers|
    ensures t.readers[r] == s.readers[r] || t.readers[r] == Woken(s.readers[r])
  {
    if acts == [] then s
    else
      var t, act := Company(c, s, r, acts[..|acts| - 1]), acts[|acts| - 1];
      if act.reader != r && Enabled(c, t, act.reader, act.step) then
        StepInv(c, t, act.reader, act.step);
        OthersStay(c, t, act.reader, act.step, r);
        Apply(c, t, act.reader, act.step)
      else t
  }

  /** The reader's own next locked section: a pass, or a wait; none while it is parked. */
  ghost function Own(c: Config, s: State, r: nat, waiting: nat): (t: State)
    requires Inv(c, s) && r < |s.readers|
    ensures Inv(c, t) && |t.readers| == |s.readers|
  {
    if s.readers[r].phase.Looping? then
      StepInv(c, s, r, APull);
      Pull(s, r)
    else if Enabled(c, s, r, AWait(waiting)) then
      StepInv(c, s, r, AWait(waiting));
      WaitStays(c, s, r, waiting);
      Wait(c, s, r, waiting)
    else s
  }

  /** A call that takes its turns between those of the others, until it is done. */
  ghost function Rounds(c: Config, s: State, r: nat, script: seq<(seq<Act>, nat)>): (t: State)
    requires Inv(c, s) && r < |s.readers|
    ensures Inv(c, t) && |t.readers| == |s.readers|
  {
    if script == [] then s
    else
      var t, last := Rounds(c, s, r, script[..|script| - 1]), script[|script| - 1];
      if t.readers[r].phase == Idle then t
      else Own(c, Company(c, t, r, last.0), r, last.1)
  }

  /** A parked or idle reader takes no section of its own. */
  lemma OwnIs(c: Config, s: State, r: nat, waiting: nat)
    requires Inv(c, s) && r < |s.readers|
    ensures var phase, waits := s.readers[r].phase, Enabled(c, s, r, AWait(waiting));
      Own(c, s, r, waiting) ==
        if phase.Looping? then Pull(s, r) else if phase.Blocked? && waits then Wait(c, s, r, waiting) else s
  {
  }

  lemma NoRounds(c: Config, s: State, r: nat)
    requires Inv(c, s) && r < |s.readers|
    ensures Rounds(c, s, r, []) == s
  {
  }

  lemma RoundsMore(c: Config, s: State, r: nat, script: seq<(seq<Act>, nat)>, k: nat)
    requires Inv(c, s) && r < |s.readers| && k < |script|
    requires Rounds(c, s, r, script[..k]).readers[r].phase != Idle
    ensures Rounds(c, s, r, script[..k + 1]) ==
      Own(c, Company(c, Rounds(c, s, r, script[..k]), r, script[k].0), r, script[k].1)
  {
    assert script[..k + 1][..k] == script[..k];
  }

  /** A call that is done stays as it is. */
  lemma {:induction false} RoundsDone(c: Config, s: State, r: nat, script: seq<(seq<Act>, nat)>, k: nat)
    requires Inv(c, s) && r < |s.readers| && k <= |script|
    requires Rounds(c, s, r, script[..k]).readers[r].phase == Idle
    ensures Rounds(c, s, r, script) == Rounds(c, s, r, script[..k])
  {
    if k == |script| {
      assert script[..k] == script;
    } else {
      assert script[..|script| - 1][..k] == script[..k];
      RoundsDone(c, s, r, script[..|script| - 1], k);
    }
  }

  /** A sole open reader in the middle of a call, and how many turns it may still need. */
  ghost predicate Calling(c: Config, s: State, r: nat) {
    && Inv(c, s) && Alone(s, r)
    && (s.readers[r].phase.Looping? ||
         (s.readers[r].phase.Blocked? && s.readers[r].index == s.Tail() && s.err == None))
  }

  ghost function Turns(c: Config, s: State, r: nat): int
    requires r < |s.readers|
  {
    2 * (|c.stream.data| - s.Tail() + (if s.err == None then 1 else 0)) + (if s.readers[r].phase.Looping? then 1 else 0)
  }

  lemma {:induction false} NoCompany(c: Config, s: State, r: nat, acts: seq<Act>)
    requires Inv(c, s) && Alone(s, r)
    ensures Company(c, s, r, acts) == s
  {
    if acts != [] {
      NoCompany(c, s, r, acts[..|acts| - 1]);
    }
  }

  lemma LoneTurn(c: Config, s: State, r: nat)
    requires Calling(c, s, r) && c.stream.data != []
    ensures var t := Own(c, s, r, 0);
      t.readers[r].phase == Idle || (Calling(c, t, r) && Turns(c, t, r) < Turns(c, s, r))
  {
    if s.readers[r].phase.Looping? {
      LonePull(c, s, r);
      StepInv(c, s, r, APull);
    } else {
      LoneWait(c, s, r);
      StepInv(c, s, r, AWait(0));
    }
  }

  /** With enough turns the call of a sole open reader of a non-empty stream is done. */
  lemma {:induction false} LoneRounds(c: Config, s: State, r: nat, script: seq<(seq<Act>, nat)>)
    requires Calling(c, s, r) && c.stream.data != []
    requires forall k :: 0 <= k < |script| ==> script[k].1 == 0
    ensures var t := Rounds(c, s, r, script);
      t.readers[r].phase == Idle || (Calling(c, t, r) && Turns(c, t, r) + |script| <= Turns(c, s, r))
    ensures Turns(c, s, r) < |script| ==> Rounds(c, s, r, script).readers[r].phase == Idle
  {
    if script != [] {
      var rest, last := script[..|script| - 1], script[|script| - 1];
      LoneRounds(c, s, r, rest);
      var t := Rounds(c, s, r, rest);
      if t.readers[r].phase != Idle {
        NoCompany(c, t, r, last.0);
        LoneTurn(c, t, r);
      }
    }
  }

  /** One act leads from the one state to the other. */
  ghost predicate Hop(c: Config, s: State, act: Act, t: State) {
    && Inv(c, s)
    && Enabled(c, s, act.reader, act.step)
    && t == Apply(c, s, act.reader, act.step)
  }

  lemma TwoReaders(x: Reader, y: Reader)
    ensures var both := [x, y];
      && Slowest(both) == (if !x.Open() then if y.Open() then Some(y.index) else None
                           else if y.Open() && y.index < x.index then Some(y.index) else Some(x.index))
      && OpenCount(both) == (if x.Open() then 1 else 0) + (if y.Open() then 1 else 0)
      && ParkedCount(both) == (if x.phase.Parked? then 1 else 0) + (if y.phase.Parked? then 1 else 0)
  {
    var both := [x, y];
    assert both[..1] == [x] && [x][..0] == [];
    assert OpenCount([x]) == if x.Open() then 1 else 0;
    assert ParkedCount([x]) == if x.phase.Parked? then 1 else 0;
  }

  function Pair(x: Reader, y: Reader, r: nat, z: Reader): seq<Reader> {
    if r == 0 then [z, y] else [x, z]
  }

  /** The step functions on two readers, without sequences. */
  lemma TwoMoved(s: State, x: Reader, y: Reader, r: nat, z: Reader)
    requires s.readers == [x, y] && r < 2
    ensures SetReader(s, r, z) == s.(readers := Pair(x, y, r, z))
    ensures Wake(s) == s.(readers := [Woken(x), Woken(y)])
  {
    assert Wake(s).readers == [Woken(x), Woken(y)];
    assert SetReader(s, r, z).readers == Pair(x, y, r, z);
  }

  lemma TwoPull(s: State, x: Reader, y: Reader, r: nat)
    requires s.readers == [x, y] && r < 2 && s.readers[r].phase.Looping? && InWindow(s) && s.err == None
    requires !x.phase.Parked? && !y.phase.Parked?
    ensures var want, i := s.readers[r].phase.want, s.readers[r].index;
      var n := Min(want, s.Tail() - i);
      Pull(s, r) == s.(readers := Pair(x, y, r, Reader(i + n, if n == want then Idle else Blocked(want - n))))
  {
    hide Wake, SetReader;
    var want, i := s.readers[r].phase.want, s.readers[r].index;
    var n := Min(want, s.Tail() - i);
    var z := Reader(i + n, if n == want then Idle else Blocked(want - n));
    TwoMoved(s, x, y, r, z);
    var t := SetReader(s, r, z);
    TwoMoved(t, t.readers[0], t.readers[1], r, z);
  }

  lemma TwoWait(c: Config, s: State, x: Reader, y: Reader, r: nat, t: State, moved: bool)
    requires s.readers == [x, y] && r < 2 && s.readers[r].phase.Blocked? && s.err == None
    requires s.Tail() <= |c.stream.data| && InWindow(s) && SomeOpen(s)
    requires !x.phase.Parked? && !y.phase.Parked?
    requires (t, moved) == Advance(c, s) && t.readers == s.readers
    ensures var want, i := s.readers[r].phase.want, s.readers[r].index;
      Wait(c, s, r, 0) == t.(readers := Pair(x, y, r, Reader(i, if moved then Looping(want) else Parked(want))))
  {
    hide Wake, SetReader, Advance, InWindow, SomeOpen;
    var want := s.readers[r].phase.want;
    var z := s.readers[r].(phase := if moved then Looping(want) else Parked(want));
    TwoMoved(t, x, y, r, z);
  }

  /** A state of two readers, without an error. */
  ghost function Two(index: nat, wlen: nat, x: Reader, y: Reader): State {
    State(index, wlen, None, [x, y])
  }

  /** A window of one byte over a stream of two, with the open readers in it and nobody parked. */
  ghost predicate Fits(c: Config, index: nat, wlen: nat, x: Reader, y: Reader) {
    && c.wcap == 1 && |c.stream.data| == 2
    && wlen <= 1 && index + wlen <= 2 && (wlen == 1 || index == 0)
    && (x.Open() ==> index <= x.index <= index + wlen) && x.index <= index + wlen
    && (y.Open() ==> index <= y.index <= index + wlen) && y.index <= index + wlen
    && !x.phase.Parked? && !y.phase.Parked?
  }

  lemma FitsInv(c: Config, index: nat, wlen: nat, x: Reader, y: Reader)
    requires Fits(c, index, wlen, x, y)
    ensures var s := Two(index, wlen, x, y);
      Inv(c, s) && InWindow(s) && s.Tail() <= |c.stream.data| && s.readers == [x, y] && s.err == None
  {
  }

  lemma FitsCalm(c: Config, index: nat, wlen: nat, x: Reader, y: Reader)
    requires Fits(c, index, wlen, x, y)
    ensures !x.phase.Parked? && !y.phase.Parked?
    ensures (x.Open() ==> index <= x.index <= index + wlen) && (y.Open() ==> index <= y.index <= index + wlen)
  {
  }

  lemma HopBegin(c: Config, index: nat, wlen: nat, x: Reader, y: Reader, r: nat)
    requires Fits(c, index, wlen, x, y) && r < 2 && (if r == 0 then x else y).phase == Idle
    ensures var z := Reader((if r == 0 then x else y).index, Looping(2));
      Hop(c, Two(index, wlen, x, y), Act(r, ABegin(2)),
          Two(index, wlen, if r == 0 then z else x, if r == 0 then y else z))
  {
    hide Inv, InWindow, Wake, SetReader;
    FitsInv(c, index, wlen, x, y);
    var z := Reader((if r == 0 then x else y).index, Looping(2));
    TwoMoved(Two(index, wlen, x, y), x, y, r, z);
  }

  lemma HopClose(c: Config, index: nat, wlen: nat, x: Reader, y: Reader)
    requires Fits(c, index, wlen, x, y) && y.phase == Idle
    ensures Hop(c, Two(index, wlen, x, y), Act(1, AClose), Two(index, wlen, x, Reader(y.index, Closed)))
  {
    hide Inv, InWindow, Wake, SetReader;
    FitsInv(c, index, wlen, x, y);
    var s, z := Two(index, wlen, x, y), Reader(y.index, Closed);
    TwoMoved(s, x, y, 1, z);
    TwoMoved(SetReader(s, 1, z), x, z, 1, z);
  }

  lemma HopPull(c: Config, index: nat, wlen: nat, x: Reader, y: Reader, r: nat)
    requires Fits(c, index, wlen, x, y) && r < 2 && (if r == 0 then x else y).phase.Looping?
    ensures var reader := if r == 0 then x else y;
      var want := reader.phase.want;
      var n := Min(want, index + wlen - reader.index);
      var z := Reader(reader.index + n, if n == want then Idle else Blocked(want - n));
      Hop(c, Two(index, wlen, x, y), Act(r, APull), Two(index, wlen, if r == 0 then z else x, if r == 0 then y else z))
  {
    hide Inv, InWindow, Pull, Fits;
    FitsInv(c, index, wlen, x, y);
    FitsCalm(c, index, wlen, x, y);
    TwoPull(Two(index, wlen, x, y), x, y, r);
  }

  /** A wait of the slowest reader, in front of an empty window, after a read one, or before an unread one. */
  lemma HopWait(c: Config, index: nat, wlen: nat, x: Reader, y: Reader, r: nat)
    requires Fits(c, index, wlen, x, y) && r < 2 && (if r == 0 then x else y).phase.Blocked?
    requires x.Open() && x.index <= y.index && index < 2 && (r == 1 ==> x.index == y.index)
    requires wlen == 1 && x.index == index + 1 ==> index == 0
    ensures var reader := if r == 0 then x else y;
      var moved := wlen == 0 || x.index == index + 1;
      var z := Reader(reader.index, if moved then Looping(reader.phase.want) else Parked(reader.phase.want));
      Hop(c, Two(index, wlen, x, y), Act(r, AWait(0)),
          Two(if wlen == 1 && moved then 1 else index, 1, if r == 0 then z else x, if r == 0 then y else z))
  {
    hide Inv, InWindow, Wait, Advance, OpenCount, ParkedCount, SomeOpen;
    FitsInv(c, index, wlen, x, y);
    var s := Two(index, wlen, x, y);
    TwoReaders(x, y);
    TwoAdvance(c, s, x, y);
    var moved := wlen == 0 || x.index == index + 1;
    var t := Two(if wlen == 1 && moved then 1 else index, 1, x, y);
    assert Enabled(c, s, r, AWait(0));
    TwoWait(c, s, x, y, r, t, moved);
  }

  /** Advance for two readers of which the first is the slower one. */
  lemma TwoAdvance(c: Config, s: State, x: Reader, y: Reader)
    requires s.readers == [x, y] && Inv(c, s) && s.err == None && c.wcap == 1 && |c.stream.data| == 2
    requires x.Open() && s.index <= x.index <= s.Tail() <= 1 + s.index <= 2 && s.index < 2 && y.index >= x.index
    ensures SomeOpen(s)
    ensures s.wlen == 0 ==> Advance(c, s) == (s.(wlen := 1), true)
    ensures s.wlen == 1 && x.index == s.index ==> Advance(c, s) == (s, false)
    ensures s.wlen == 1 && x.index == s.index + 1 == 1 ==> Advance(c, s) == (s.(index := 1), true)
  {
    hide Slowest, OpenCount, ParkedCount;
    assert s.readers[0].Open();
    TwoReaders(x, y);
  }

  /** From here some run ends with all open readers parked, the first of them before the end of the stream. */
  ghost predicate Sticks(c: Config, s: State) {
    Inv(c, s) && exists acts :: Legal(c, s, acts) && StuckEarly(c, Exec(c, s, acts))
  }

  ghost predicate StuckEarly(c: Config, t: State) {
    AllParked(t) && |t.readers| == 2 && t.readers[0].index < |c.stream.data|
  }

  lemma SticksFrom(c: Config, s: State, act: Act, t: State)
    requires Hop(c, s, act, t) && Sticks(c, t)
    ensures Sticks(c, s)
  {
    hide Apply, Enabled, Inv, StuckEarly;
    StepInv(c, s, act.reader, act.step);
    var rest :| Legal(c, t, rest) && StuckEarly(c, Exec(c, t, rest));
    var acts := [act] + rest;
    assert acts[1..] == rest;
    assert Legal(c, s, acts) && Exec(c, s, acts) == Exec(c, t, rest);
  }

  /** Reader 0 enters its wait with the second byte in the window, after reader 1 took it and closed. */
  lemma StuckLast(c: Config)
    requires c.wcap == 1 && |c.stream.data| == 2
    ensures Sticks(c, Two(1, 1, Reader(1, Blocked(1)), Reader(2, Closed)))
  {
    hide Apply, Enabled, Inv, Fits;
    var s, act, t := Two(1, 1, Reader(1, Blocked(1)), Reader(2, Closed)), Act(0, AWait(0)),
                     Two(1, 1, Reader(1, Parked(1)), Reader(2, Closed));
    LastWait(c);
    StepInv(c, s, act.reader, act.step);
    assert t.readers[0].Open();
    assert Legal(c, t, []) && Exec(c, t, []) == t && StuckEarly(c, t);
    assert Sticks(c, t);
    SticksFrom(c, s, act, t);
  }

  lemma LastWait(c: Config)
    requires c.wcap == 1 && |c.stream.data| == 2
    ensures Hop(c, Two(1, 1, Reader(1, Blocked(1)), Reader(2, Closed)), Act(0, AWait(0)),
                Two(1, 1, Reader(1, Parked(1)), Reader(2, Closed)))
  {
    hide Hop;
    HopWait(c, 1, 1, Reader(1, Blocked(1)), Reader(2, Closed), 0);
  }

  /** Reader 1 gets the second byte into the window, takes it and closes. */
  lemma StuckSecond(c: Config)
    requires c.wcap == 1 && |c.stream.data| == 2
    ensures Sticks(c, Two(0, 1, Reader(1, Blocked(1)), Reader(1, Blocked(1))))
  {
    hide Hop, Sticks;
    var x := Reader(1, Blocked(1));
    StuckLast(c);
    HopClose(c, 1, 1, x, Reader(2, Idle));
    SticksFrom(c, Two(1, 1, x, Reader(2, Idle)), Act(1, AClose), Two(1, 1, x, Reader(2, Closed)));
    HopPull(c, 1, 1, x, Reader(1, Looping(1)), 1);
    SticksFrom(c, Two(1, 1, x, Reader(1, Looping(1))), Act(1, APull), Two(1, 1, x, Reader(2, Idle)));
    HopWait(c, 0, 1, x, Reader(1, Blocked(1)), 1);
    SticksFrom(c, Two(0, 1, x, Reader(1, Blocked(1))), Act(1, AWait(0)), Two(1, 1, x, Reader(1, Looping(1))));
  }

  /** Reader 1 takes the first byte, which reader 0 took before. */
  lemma StuckFirst(c: Config)
    requires c.wcap == 1 && |c.stream.data| == 2
    ensures Sticks(c, Two(0, 1, Reader(0, Looping(2)), Reader(0, Idle)))
  {
    hide Hop, Sticks;
    var x := Reader(1, Blocked(1));
    StuckSecond(c);
    HopPull(c, 0, 1, x, Reader(0, Looping(2)), 1);
    SticksFrom(c, Two(0, 1, x, Reader(0, Looping(2))), Act(1, APull), Two(0, 1, x, Reader(1, Blocked(1))));
    HopBegin(c, 0, 1, x, Reader(0, Idle), 1);
    SticksFrom(c, Two(0, 1, x, Reader(0, Idle)), Act(1, ABegin(2)), Two(0, 1, x, Reader(0, Looping(2))));
    HopPull(c, 0, 1, Reader(0, Looping(2)), Reader(0, Idle), 0);
    SticksFrom(c, Two(0, 1, Reader(0, Looping(2)), Reader(0, Idle)), Act(0, APull), Two(0, 1, x, Reader(0, Idle)));
  }

  /** Reader 0 gets the first byte into the window. */
  lemma StuckStart(c: Config)
    requires c.wcap == 1 && |c.stream.data| == 2
    ensures Sticks(c, Two(0, 0, Reader(0, Idle), Reader(0, Idle)))
  {
    hide Hop, Sticks;
    var y := Reader(0, Idle);
    StuckFirst(c);
    HopWait(c, 0, 0, Reader(0, Blocked(2)), y, 0);
    SticksFrom(c, Two(0, 0, Reader(0, Blocked(2)), y), Act(0, AWait(0)), Two(0, 1, Reader(0, Looping(2)), y));
    HopPull(c, 0, 0, Reader(0, Looping(2)), y, 0);
    SticksFrom(c, Two(0, 0, Reader(0, Looping(2)), y), Act(0, APull), Two(0, 0, Reader(0, Blocked(2)), y));
    HopBegin(c, 0, 0, Reader(0, Idle), y, 0);
    SticksFrom(c, Two(0, 0, Reader(0, Idle), y), Act(0, ABegin(2)), Two(0, 0, Reader(0, Looping(2)), y));
  }

  /**
   Two readers, a window of one byte and a stream of two: reader 1 moves the window, takes its
   last byte and closes while reader 0 is between its read and its wait.  Reader 0 then parks
   with the second byte in front of it, and nothing can wake it.
   */
  lemma LostWakeup(c: Config)
    requires c.wcap == 1 && |c.stream.data| == 2
    ensures exists s, acts :: Init(s) && |s.readers| == 2 && Inv(c, s) && Legal(c, s, acts)
              && AllParked(Exec(c, s, acts)) && Exec(c, s, acts).readers[0].index < |c.stream.data|
  {
    hide Inv, Legal, Exec, AllParked;
    StuckStart(c);
    var s := Two(0, 0, Reader(0, Idle), Reader(0, Idle));
    var acts :| Legal(c, s, acts) && StuckEarly(c, Exec(c, s, acts));
    assert Init(s) && |s.readers| == 2;
  }

  lemma Adjoin<T>(s: seq<T>, a: nat, b: nat, d: nat)
    requires a <= b <= d <= |s|
    ensures s[a..d] == s[a..b] + s[b..d]
  {
  }

  lemma SameStretch<T>(s: seq<T>, t: seq<T>, at: nat, from: nat, n: nat)
    requires at + n <= |s| && from + n <= |t|
    requires forall k :: at <= k < at + n ==> s[k] == t[from + (k - at)]
    ensures s[at..at + n] == t[from..from + n]
  {
    var a, b := s[at..at + n], t[from..from + n];
    forall k | 0 <= k < n ensures a[k] == b[k] {
      assert a[k] == s[at + k];
    }
  }

  // ---------------------------------------------------------------- the imperative code

  /** The underlying reader, read through io.ReadFull. */
  class Feed {
    const stream: Stream
    var pos: nat

    constructor (stream: Stream)
      ensures this.stream == stream && pos == 0
    {
      this.stream, pos := stream, 0;
    }

    /** Fills buf[at..]; short only when the stream is over, and then with an error. */
    method ReadFull(buf: array<byte>, at: nat) returns (n: nat, err: Option<Error>)
      requires pos <= |stream.data| && at <= buf.Length
      modifies this, buf
      ensures n == Min(buf.Length - at, |stream.data| - old(pos)) && pos == old(pos) + n
      ensures buf[..at] == old(buf[..at]) && buf[at..at + n] == stream.data[old(pos)..pos]
      ensures err == if at + n == buf.Length then None
                     else if 0 < n && stream.fin == EOF then Some(UnexpectedEOF)
                     else Some(stream.fin)
    {
      n := Min(buf.Length - at, |stream.data| - pos);
      for i := 0 to n
        invariant pos == old(pos)
        invariant buf[..at] == old(buf[..at])
        invariant buf[at..at + i] == stream.data[pos..pos + i]
      {
        buf[at + i] := stream.data[pos + i];
        assert buf[at..at + i + 1] == buf[at..at + i] + [buf[at + i]];
      }
      pos := pos + n;
      err := if at + n == buf.Length then None
             else if 0 < n && stream.fin == EOF then Some(UnexpectedEOF)
             else Some(stream.fin);
    }
  }

  /** One reader.  `phase` is its goroutine's position, `received` what it has been given so far. */
  class Output {
    var index: nat
    var done: bool
    var phase: Phase
    ghost var received: seq<byte>

    constructor ()
      ensures index == 0 && !done && phase == Idle && received == []
    {
      index, done, phase, received := 0, false, Idle, [];
    }

    function View(): Reader
      reads this
    {
      Reader(index, phase)
    }
  }

  /** The readers behind the outputs. */
  function Readers(outs: seq<Output>): (r: seq<Reader>)
    reads outs
    ensures |r| == |outs|
    ensures forall i :: 0 <= i < |r| ==> r[i] == outs[i].View()
  {
    if outs == [] then []
    else Readers(outs[..|outs| - 1]) + [outs[|outs| - 1].View()]
  }

  ghost predicate AllDistinct(outs: seq<Output>) {
    forall i, j :: 0 <= i < j < |outs| ==> outs[i] != outs[j]
  }

  ghost predicate AllServed(data: seq<byte>, outs: seq<Output>)
    reads outs
  {
    forall i :: 0 <= i < |outs| ==>
      && (outs[i].done <==> outs[i].phase == Closed)
      && outs[i].index <= |data|
      && outs[i].received == data[..outs[i].index]
  }

  lemma AnotherOutput(data: seq<byte>, outs: seq<Output>, out: Output)
    requires AllDistinct(outs) && AllServed(data, outs) && out !in outs
    requires out.index == 0 && out.received == [] && !out.done && out.phase == Idle
    ensures AllDistinct(outs + [out]) && AllServed(data, outs + [out])
  {
  }

  class Source {
    const c: Config
    const reader: Feed
    const buffer: array<byte>
    var wlen: nat
    var index: nat
    var err: Option<Error>
    var outs: seq<Output>

    function View(): State
      reads this, outs
    {
      State(index, wlen, err, Readers(outs))
    }

    ghost predicate Distinct()
      reads this`outs
    {
      AllDistinct(outs)
    }

    /** The window holds the stream's bytes from `index` on. */
    ghost predicate Window()
      reads this`index, this`wlen, reader, buffer
    {
      && reader.stream == c.stream
      && buffer.Length == c.wcap
      && wlen <= c.wcap
      && index + wlen <= |c.stream.data|
      && reader.pos == index + wlen
      && buffer[..wlen] == c.stream.data[index..index + wlen]
    }

    /** Every reader has received exactly the stream up to its own index. */
    ghost predicate Served()
      reads this`outs, outs
    {
      AllServed(c.stream.data, outs)
    }

    ghost predicate Valid()
      reads this, reader, buffer, outs
    {
      Window() && Distinct() && Served() && Inv(c, View())
    }

    constructor (stream: Stream, wcap: nat)
      requires 0 < wcap
      ensures Valid() && c == Config(stream, wcap) && outs == [] && Init(View())
      ensures fresh(reader) && fresh(buffer)
    {
      hide Inv, Readers;
      c := Config(stream, wcap);
      reader := new Feed(stream);
      buffer := new byte[wcap](_ => 0);
      wlen, index, err, outs := 0, 0, None, [];
      new;
      InitInv(c, View());
    }

    method NewOutput() returns (out: Output)
      requires Valid() && Init(View())
      modifies this`outs
      ensures Valid() && Init(View()) && fresh(out) && outs == old(outs) + [out]
    {
      hide Inv, Window, Readers, AllServed, AllDistinct;
      WidthPositive();
      out := new Output();
      AnotherOutput(c.stream.data, outs, out);
      outs := outs + [out];
      InitInv(c, View());
    }

    lemma WidthPositive()
      requires Valid()
      ensures 0 < c.wcap
    {
    }

    method FillBuffer()
      requires Window()
      modifies this`wlen, this`err, reader, buffer
      ensures Window() && View() == Fill(c, old(View()))
    {
      hide Readers, Window;
      WindowBytes();
      if c.wcap <= wlen {
        return;
      }
      if err.Some? {
        return;
      }
      ghost var was := buffer[..];
      var n, e := reader.ReadFull(buffer, wlen);
      Filled(was, n);
      wlen := wlen + n;
      BytesWindow();
      if e.Some? {
        err := if e == Some(UnexpectedEOF) then Some(EOF) else e;
      }
    }

    /** The bytes that were there and those that were read are the window's. */
    lemma Filled(was: seq<byte>, n: nat)
      requires |was| == buffer.Length && wlen + n <= buffer.Length && index + wlen + n <= |c.stream.data|
      requires buffer[..wlen] == was[..wlen]
      requires forall k :: 0 <= k < wlen ==> was[k] == c.stream.data[index + k]
      requires buffer[wlen..wlen + n] == c.stream.data[index + wlen..index + wlen + n]
      ensures forall k :: 0 <= k < wlen + n ==> buffer[k] == c.stream.data[index + k]
    {
      forall k | 0 <= k < wlen + n ensures buffer[k] == c.stream.data[index + k] {
        if k < wlen {
          assert buffer[..wlen][k] == was[..wlen][k];
        } else {
          assert buffer[wlen..wlen + n][k - wlen] == c.stream.data[index + wlen..index + wlen + n][k - wlen];
        }
      }
    }

    /** Moves the window's bytes to the front of the buffer and clears the vacated end. */
    method ShiftLeft(n: nat)
      requires Window() && n <= wlen
      modifies this`wlen, this`index, buffer
      ensures Window() && View() == Shift(old(View()), n)
    {
      hide Readers, Window;
      if n == 0 {
        return;
      }
      WindowBytes();
      MoveDown(n);
      ClearFrom(buffer.Length - n);
      wlen := wlen - n;
      index := index + n;
      BytesWindow();
    }

    lemma WindowBytes()
      requires Window()
      ensures reader.stream == c.stream && buffer.Length == c.wcap && wlen <= c.wcap
      ensures index + wlen <= |c.stream.data| && reader.pos == index + wlen
      ensures forall k :: 0 <= k < wlen ==> buffer[k] == c.stream.data[index + k]
    {
      forall k | 0 <= k < wlen ensures buffer[k] == c.stream.data[index + k] {
        assert buffer[..wlen][k] == c.stream.data[index..index + wlen][k];
      }
    }

    lemma BytesWindow()
      requires reader.stream == c.stream && buffer.Length == c.wcap && wlen <= c.wcap
      requires index + wlen <= |c.stream.data| && reader.pos == index + wlen
      requires forall k :: 0 <= k < wlen ==> buffer[k] == c.stream.data[index + k]
      ensures Window()
    {
    }

    method MoveDown(n: nat)
      requires n <= buffer.Length
      modifies buffer
      ensures forall k :: 0 <= k < buffer.Length - n ==> buffer[k] == old(buffer[k + n])
    {
      for i := 0 to buffer.Length - n
        invariant forall k :: 0 <= k < i ==> buffer[k] == old(buffer[k + n])
        invariant forall k :: i <= k < buffer.Length ==> buffer[k] == old(buffer[k])
      {
        buffer[i] := buffer[i + n];
      }
    }

    method ClearFrom(from: nat)
      requires from <= buffer.Length
      modifies buffer
      ensures forall k :: 0 <= k < from ==> buffer[k] == old(buffer[k])
      ensures forall k :: from <= k < buffer.Length ==> buffer[k] == 0
    {
      for i := from to buffer.Length
        invariant forall k :: 0 <= k < from ==> buffer[k] == old(buffer[k])
        invariant forall k :: from <= k < i ==> buffer[k] == 0
      {
        buffer[i] := 0;
      }
    }

    /** How far the window may move: the distance to the slowest open reader. */
    method AdvanceableIndexDistance() returns (distance: int)
      requires Served()
      ensures distance == Room(View())
    {
      if err.Some? {
        return 0;
      }
      var behind: Option<nat> := None;
      for i := 0 to |outs|
        invariant behind == Slowest(View().readers[..i])
      {
        assert View().readers[i] == outs[i].View();
        assert View().readers[..i + 1][..i] == View().readers[..i];
        if outs[i].done {
          continue;
        }
        if behind == None || outs[i].index < behind.value {
          behind := Some(outs[i].index);
        }
      }
      assert View().readers[..|outs|] == View().readers;
      distance := (if behind.Some? then behind.value else 0) - index;
    }

    method AdvanceWindow() returns (moved: bool)
      requires Valid() && SomeOpen(View())
      modifies this`wlen, this`index, this`err, reader, buffer
      ensures Valid() && (View(), moved) == Advance(c, old(View()))
    {
      hide Inv, Fill, Room, Readers, SomeOpen, InWindow, Slowest, AllServed, Window;
      AdvanceInv(c, View());
      RoomAhead(c, View());
      var initialTail := index + wlen;
      FillBuffer();
      var distance := AdvanceableIndexDistance();
      var n := Min(distance, wlen);
      if n == 0 {
        moved := initialTail < index + wlen;
      } else {
        ShiftLeft(n);
        FillBuffer();
        moved := true;
      }
    }

    /** Phaser.Broadcast: the parked goroutines go on. */
    method Broadcast()
      requires Distinct()
      modifies outs`phase
      ensures View() == Wake(old(View()))
      ensures forall i :: 0 <= i < |outs| ==> outs[i].phase == Woken(old(outs[i].View())).phase
      ensures old(Served()) ==> Served()
      ensures old(Window()) ==> Window()
    {
      hide Readers, Window;
      forall i | 0 <= i < |outs| {
        outs[i].phase := Woken(outs[i].View()).phase;
      }
      assert Readers(outs) == Wake(old(View())).readers;
    }

    method MoveTo(r: nat, out: Output, phase: Phase)
      requires r < |outs| && out == outs[r] && Distinct() && Served()
      requires phase != Closed && out.phase != Closed
      modifies out`phase
      ensures out.phase == phase && Served() && (old(Window()) ==> Window())
      ensures View() == SetReader(old(View()), r, Reader(out.index, phase))
    {
      out.phase := phase;
      assert Readers(outs) == SetReader(old(View()), r, Reader(out.index, phase)).readers;
    }

    method SetDone(r: nat, out: Output)
      requires r < |outs| && out == outs[r] && Distinct() && Served()
      modifies out`done, out`phase
      ensures out.phase == Closed && Served() && (old(Window()) ==> Window())
      ensures View() == SetReader(old(View()), r, Reader(out.index, Closed))
    {
      hide Readers, Window;
      out.done := true;
      out.phase := Closed;
      assert Readers(outs) == SetReader(old(View()), r, Reader(out.index, Closed)).readers;
    }

    method CloseOutput(r: nat, out: Output)
      requires Valid() && r < |outs| && out == outs[r] && out.phase == Idle
      modifies out`done, outs`phase
      ensures Valid() && View() == Close(old(View()), r)
    {
      hide Inv, Readers, Window, AllServed, AllDistinct;
      StepInv(c, View(), r, AClose);
      SetDone(r, out);
      Broadcast();
    }

    /** The readers that are not closed. */
    method ReadersLen() returns (n: nat)
      requires Served()
      ensures n == OpenCount(View().readers)
    {
      hide Readers;
      n := 0;
      for i := 0 to |outs|
        invariant n == OpenCount(View().readers[..i])
      {
        assert View().readers[i] == outs[i].View();
        assert View().readers[..i + 1][..i] == View().readers[..i];
        if !outs[i].done {
          n := n + 1;
        }
      }
      assert View().readers[..|outs|] == View().readers;
    }

    method WaitForWindowUpdate(r: nat, waiting: nat)
      requires Valid() && r < |outs| && Enabled(c, View(), r, AWait(waiting))
      modifies this`wlen, this`index, this`err, reader, buffer, outs`phase
      ensures Valid() && View() == Wait(c, old(View()), r, waiting)
    {
      hide Inv, Readers, Window, AllServed, AllDistinct, Advance, OpenCount, ParkedCount, InWindow, SomeOpen;
      var want := outs[r].phase.want;
      ghost var t := Waited(r, waiting);
      if err.Some? {
        Broadcast();
        MoveTo(r, outs[r], Looping(want));
        assert View() == t;
        return;
      }
      var moved := AdvanceWindow();
      if moved {
        Broadcast();
        MoveTo(r, outs[r], Looping(want));
        assert View() == t;
        return;
      }
      var open := ReadersLen();
      if waiting == open - 1 {
        Broadcast();
      }
      MoveTo(r, outs[r], Parked(want));
      assert View() == t;
    }

    lemma Waited(r: nat, waiting: nat) returns (t: State)
      requires Valid() && r < |outs| && Enabled(c, View(), r, AWait(waiting))
      ensures t == Wait(c, View(), r, waiting) && Inv(c, t) && SomeOpen(View())
    {
      t := Wait(c, View(), r, waiting);
      StepInv(c, View(), r, AWait(waiting));
      assert View().readers[r].Open();
    }

    method StartRead(r: nat, out: Output, want: nat)
      requires Valid() && r < |outs| && out == outs[r] && out.phase == Idle
      modifies out`phase
      ensures Valid() && View() == BeginRead(old(View()), r, want) && out.phase == Looping(want)
    {
      hide Inv, Readers, Window, AllServed, AllDistinct;
      StepInv(c, View(), r, ABegin(want));
      MoveTo(r, out, Looping(want));
    }

    /** Counts the `n` bytes that were just copied into the reader's buffer. */
    method AdvanceIndexBy(r: nat, out: Output, n: nat, ghost bytes: seq<byte>, phase: Phase)
      requires r < |outs| && out == outs[r] && Distinct() && Served()
      requires out.index + n <= |c.stream.data| && phase != Closed && out.phase != Closed
      requires bytes == c.stream.data[out.index..out.index + n]
      modifies out`index, out`received, out`phase
      ensures out.index == old(out.index) + n && out.phase == phase && Served() && (old(Window()) ==> Window())
      ensures out.received == old(out.received) + bytes
      ensures View() == SetReader(old(View()), r, Reader(out.index, phase))
    {
      hide Readers, Window;
      assert c.stream.data[..out.index + n] == c.stream.data[..out.index] + c.stream.data[out.index..out.index + n];
      out.received := out.received + bytes;
      out.index := out.index + n;
      out.phase := phase;
      assert Readers(outs) == SetReader(old(View()), r, Reader(out.index, phase)).readers;
    }

    /** Copies the next `n` bytes from position `start` of the window into p[at..]. */
    method CopyOut(p: array<byte>, at: nat, start: nat, n: nat)
      requires Window() && p != buffer && start + n <= wlen && at + n <= p.Length
      modifies p
      ensures Window() && p[..at] == old(p[..at])
      ensures p[at..at + n] == c.stream.data[index + start..index + start + n]
    {
      hide Window;
      WindowBytes();
      for i := 0 to n
        invariant forall k :: 0 <= k < at ==> p[k] == old(p[k])
        invariant forall k :: at <= k < at + i ==> p[k] == buffer[start + (k - at)]
      {
        p[at + i] := buffer[start + i];
      }
      ghost var from := index + start;
      forall k | at <= k < at + n ensures p[k] == c.stream.data[from + (k - at)] {
        assert p[k] == buffer[start + (k - at)];
      }
      SameStretch(p[..], c.stream.data, at, from, n);
      assert p[..][at..at + n] == p[at..at + n];
    }

    /** Counts the bytes and tells the others, if there were any. */
    method HandOver(r: nat, out: Output, n: nat, ghost bytes: seq<byte>, phase: Phase, some: bool)
      requires r < |outs| && out == outs[r] && Distinct() && Served()
      requires out.index + n <= |c.stream.data| && phase != Closed && out.phase != Closed && !phase.Parked?
      requires bytes == c.stream.data[out.index..out.index + n]
      modifies out`index, out`received, outs`phase
      ensures out.index == old(out.index) + n && out.phase == phase && Served() && (old(Window()) ==> Window())
      ensures out.received == old(out.received) + bytes
      ensures var moved := SetReader(old(View()), r, Reader(out.index, phase));
        View() == if some then Wake(moved) else moved
    {
      hide Readers, Window, AllServed, AllDistinct, Wake, SetReader;
      AdvanceIndexBy(r, out, n, bytes, phase);
      if some {
        Broadcast();
      }
    }

    /**
     One locked pass of Read: delivers the next bytes of the stream that the window has, then
     reports the source's error if the reader has reached its end.
     */
    method ReadPass(r: nat, out: Output, p: array<byte>, at: nat) returns (n: nat, e: Option<Error>)
      requires Valid() && r < |outs| && out == outs[r] && p != buffer
      requires at <= p.Length && out.phase == Looping(p.Length - at)
      modifies p, out`index, out`received, outs`phase
      ensures Valid() && View() == Pull(old(View()), r)
      ensures out.index == old(out.index) + n && n == Min(p.Length - at, index + wlen - old(out.index))
      ensures p[..at] == old(p[..at]) && p[at..at + n] == c.stream.data[old(out.index)..out.index]
      ensures out.received == old(out.received) + p[at..at + n]
      ensures e == if err.Some? && out.index == index + wlen then err else None
      ensures out.phase == if at + n == p.Length || e.Some? then Idle else Blocked(p.Length - at - n)
      ensures e.Some? ==> out.index == |c.stream.data| && out.received == c.stream.data
      ensures e.Some? ==> e == Some(Reported(c.stream.fin))
    {
      hide Readers, AllServed, AllDistinct, Window, Pull, Inv, InWindow, Wake, SetReader, View;
      ghost var want, after, t := Pulled(r, out);
      var start := out.index - index;
      var current := wlen - start;
      n := Min(p.Length - at, current);
      var ended := err.Some? && out.index + n == index + wlen;
      var phase := if at + n == p.Length || ended then Idle else Blocked(p.Length - at - n);
      ghost var s, i := View(), out.index;
      CopyOut(p, at, start, n);
      assert View() == s;
      ghost var got := p[..];
      assert got[at..at + n] == c.stream.data[i..i + n] && got[..at] == old(p[..at]);
      HandOver(r, out, n, got[at..at + n], phase, current != 0);
      assert p[..] == got && View() == t;
      assert p[at..at + n] == got[at..at + n] && p[..at] == got[..at];
      e := if err.Some? && out.index == index + wlen then err else None;
      if e.Some? {
        ReceivedAll(r);
      }
    }

    /** The pass in terms of the code's own variables. */
    lemma Pulled(r: nat, out: Output) returns (want: nat, phase: Phase, t: State)
      requires Valid() && r < |outs| && out == outs[r] && out.phase.Looping?
      ensures index <= out.index <= index + wlen <= |c.stream.data|
      ensures err.Some? ==> index + wlen == |c.stream.data| && err == Some(Reported(c.stream.fin))
      ensures r < |View().readers| && t == Pull(View(), r) && Inv(c, t) && want == out.phase.want
      ensures var n := Min(want, index + wlen - out.index);
        var moved := SetReader(View(), r, Reader(out.index + n, phase));
        && phase == (if n == want || (err.Some? && out.index + n == index + wlen) then Idle else Blocked(want - n))
        && t == if index + wlen == out.index then moved else Wake(moved)
    {
      want := out.phase.want;
      var n := Min(want, index + wlen - out.index);
      phase := if n == want || (err.Some? && out.index + n == index + wlen) then Idle else Blocked(want - n);
      t := Pull(View(), r);
      assert View().readers[r] == out.View();
      StepInv(c, View(), r, APull);
    }

    lemma ReceivedAll(r: nat)
      requires Served() && r < |outs| && outs[r].index == |c.stream.data|
      ensures outs[r].received == c.stream.data
    {
    }

    /** One round of Read's loop for a lone reader: a pass, then a wait unless the pass finished the call. */
    method Round(r: nat, out: Output, p: array<byte>, at: nat) returns (n: nat, e: Option<Error>, finished: bool)
      requires Valid() && r < |outs| && out == outs[r] && p != buffer
      requires at <= p.Length && out.phase == Looping(p.Length - at)
      requires Alone(View(), r) && c.stream.data != []
      modifies p, this`wlen, this`index, this`err, reader, buffer, out`index, out`received, outs`phase
      ensures Valid() && Alone(View(), r) && at + n <= p.Length
      ensures out.index == old(out.index) + n <= |c.stream.data|
      ensures p[..at + n] == old(p[..at]) + c.stream.data[old(out.index)..out.index]
      ensures e.Some? ==> out.index == |c.stream.data| && e == Some(Reported(c.stream.fin))
      ensures finished <==> at + n == p.Length || e.Some?
      ensures !finished ==> out.phase == Looping(p.Length - at - n)
      ensures !finished ==> old(index + wlen) <= index + wlen <= |c.stream.data|
      ensures !finished ==> old(err) == None && (old(index + wlen) < index + wlen || err.Some?)
    {
      hide Readers, AllServed, AllDistinct, Window, Inv, Pull, Wait, Alone, Enabled, InWindow;
      LonePull(c, View(), r);
      n, e := ReadPass(r, out, p, at);
      InStream(r);
      ghost var taken := p[..at + n];
      assert taken == p[..at] + p[at..at + n];
      finished := at + n == p.Length || e.Some?;
      if !finished {
        assert out.View() == View().readers[r];
        LoneWait(c, View(), r);
        WaitForWindowUpdate(r, 0);
        assert out.View() == View().readers[r];
        InStream(r);
        assert p[..at + n] == taken;
      }
    }

    /**
     Read, for a reader with no open company: the next bytes of the stream, as many as asked
     for, and fewer only at the end together with the stream's error.
     */
    method Read(r: nat, out: Output, p: array<byte>) returns (n: nat, e: Option<Error>)
      requires Valid() && r < |outs| && out == outs[r] && p != buffer && out.phase == Idle
      requires Alone(View(), r) && c.stream.data != []
      modifies p, this`wlen, this`index, this`err, reader, buffer, out`index, out`received, outs`phase
      ensures Valid() && out.index == old(out.index) + n
      ensures n == Min(p.Length, |c.stream.data| - old(out.index))
      ensures p[..n] == c.stream.data[old(out.index)..out.index]
      ensures e.Some? ==> out.index == |c.stream.data| && e == Some(Reported(c.stream.fin))
      ensures n < p.Length ==> e.Some?
    {
      hide Readers, Valid, View, BeginRead, Alone;
      LoneBegin(r, out, p.Length);
      StartRead(r, out, p.Length);
      n := 0;
      while true
        invariant Valid() && n <= p.Length && out.phase == Looping(p.Length - n)
        invariant out.index == old(out.index) + n <= |c.stream.data|
        invariant p[..n] == c.stream.data[old(out.index)..out.index]
        invariant Alone(View(), r)
        decreases |c.stream.data| - (index + wlen), if err == None then 1 else 0
      {
        ghost var i := out.index;
        var got, done;
        got, e, done := Round(r, out, p, n);
        assert c.stream.data[old(out.index)..out.index] ==
          c.stream.data[old(out.index)..i] + c.stream.data[i..out.index];
        n := n + got;
        if done {
          break;
        }
      }
    }

    /** One act of a reader; whatever it reads goes into a buffer of its own. */
    method Perform(r: nat, step: Step)
      requires Valid() && Enabled(c, View(), r, step)
      modifies this`wlen, this`index, this`err, reader, buffer, outs
      ensures Valid() && View() == Apply(c, old(View()), r, step)
      ensures forall i :: 0 <= i < |outs| && i != r ==> outs[i].received == old(outs[i].received)
    {
      hide Inv, Readers, Window, AllServed, Pull, Wait, Close, BeginRead, OpenCount, ParkedCount;
      assert View().readers[r] == outs[r].View();
      match step
      case ABegin(want) => StartRead(r, outs[r], want);
      case APull =>
        var q := new byte[outs[r].phase.want];
        var _, _ := ReadPass(r, outs[r], q, 0);
      case AWait(waiting) => WaitForWindowUpdate(r, waiting);
      case AClose => CloseOutput(r, outs[r]);
    }

    /** What the other readers do in the meantime; an act that is not possible is skipped. */
    method Meanwhile(r: nat, out: Output, acts: seq<Act>)
      requires Valid() && r < |outs| && out == outs[r]
      modifies this`wlen, this`index, this`err, reader, buffer, outs
      ensures Valid() && out.index == old(out.index) && out.received == old(out.received)
      ensures out.phase == old(out.phase) || (old(out.phase).Parked? && out.phase == Looping(old(out.phase).want))
      ensures Inv(c, old(View())) && r < |old(View()).readers| && View() == Company(c, old(View()), r, acts)
    {
      hide Valid, View, Readers, Enabled, Inv;
      Sees(r);
      assert acts[..0] == [];
      for i := 0 to |acts|
        invariant View() == Company(c, old(View()), r, acts[..i])
        invariant Valid() && out.index == old(out.index) && out.received == old(out.received)
        invariant out.phase == old(out.phase)
          || (old(out.phase).Parked? && out.phase == Looping(old(out.phase).want))
      {
        assert acts[..i + 1][..i] == acts[..i];
        Sees(r);
        if acts[i].reader != r && Enabled(c, View(), acts[i].reader, acts[i].step) {
          Sees(r);
          OthersStay(c, View(), acts[i].reader, acts[i].step, r);
          Perform(acts[i].reader, acts[i].step);
          Sees(r);
        }
      }
      assert acts[..|acts|] == acts;
    }

    lemma Sees(r: nat)
      requires Valid() && r < |outs|
      ensures Inv(c, View()) && r < |View().readers| && View().readers[r] == outs[r].View()
    {
    }

    /** One locked section of a Read that has delivered `at` bytes: a pass, or a wait; none while parked. */
    method Turn(r: nat, out: Output, p: array<byte>, at: nat, waiting: nat) returns (n: nat, e: Option<Error>)
      requires Valid() && r < |outs| && out == outs[r] && p != buffer && at <= p.Length
      requires out.phase in {Looping(p.Length - at), Blocked(p.Length - at), Parked(p.Length - at)}
      modifies p, this`wlen, this`index, this`err, reader, buffer, outs
      ensures Valid() && at + n <= p.Length && out.index == old(out.index) + n <= |c.stream.data|
      ensures p[..at + n] == old(p[..at]) + c.stream.data[old(out.index)..out.index]
      ensures out.received == old(out.received) + c.stream.data[old(out.index)..out.index]
      ensures out.phase in
        {Idle, Looping(p.Length - at - n), Blocked(p.Length - at - n), Parked(p.Length - at - n)}
      ensures out.phase.Idle? ==> at + n == p.Length || e.Some?
      ensures e.Some? ==> out.phase.Idle? && out.index == |c.stream.data| && e == Some(Reported(c.stream.fin))
      ensures Inv(c, old(View())) && r < |old(View()).readers| && View() == Own(c, old(View()), r, waiting)
    {
      hide Valid, View, Readers, Enabled, AllServed, Window, Inv, Pull, Wait, Own;
      n, e := 0, None;
      Sees(r);
      OwnIs(c, View(), r, waiting);
      InStream(r);
      ghost var taken := p[..at];
      if out.phase.Looping? {
        n, e := ReadPass(r, out, p, at);
        InStream(r);
        assert p[..at + n] == p[..at] + p[at..at + n];
      } else if out.phase.Blocked? && Enabled(c, View(), r, AWait(waiting)) {
        Sees(r);
        WaitStays(c, View(), r, waiting);
        WaitForWindowUpdate(r, waiting);
        Sees(r);
        assert p[..at] == taken;
      }
    }

    /**
     Read among other readers, whatever these do between its locked sections; the script says
     what they do, and how many woken readers are still on their way out of a wait.  When the
     script ends first, the call is still under way.  The bytes delivered so far are always
     the next ones of the stream; a finished call delivered as many as asked for, or all that
     were left, together with the stream's error.
     */
    method ReadAmong(r: nat, out: Output, p: array<byte>, script: seq<(seq<Act>, nat)>)
        returns (n: nat, e: Option<Error>, finished: bool)
      requires Valid() && r < |outs| && out == outs[r] && p != buffer && out.phase == Idle
      modifies p, this`wlen, this`index, this`err, reader, buffer, outs
      ensures Valid() && n <= p.Length && out.index == old(out.index) + n <= |c.stream.data|
      ensures p[..n] == c.stream.data[old(out.index)..out.index]
      ensures out.received == old(out.received) + p[..n]
      ensures finished <==> out.phase == Idle
      ensures finished ==> n == Min(p.Length, |c.stream.data| - old(out.index)) && (n < p.Length ==> e.Some?)
      ensures e.Some? ==> finished && out.index == |c.stream.data| && e == Some(Reported(c.stream.fin))
      ensures var s := BeginRead(old(View()), r, p.Length);
        r < |s.readers| && Inv(c, s) && View() == Rounds(c, s, r, script)
    {
      hide Valid, View, Readers, Enabled, AllServed, AllDistinct, Window, Inv, BeginRead, Own, Company,
        Rounds, Reported;
      InStream(r);
      StartRead(r, out, p.Length);
      n, e, finished := 0, None, false;
      Sees(r);
      ghost var s := View();
      assert script[..0] == [];
      NoRounds(c, s, r);
      ghost var data := c.stream.data;
      for k := 0 to |script|
        invariant Valid() && n <= p.Length && out.index == old(out.index) + n <= |data|
        invariant p[..n] == data[old(out.index)..out.index] && out.received == old(out.received) + p[..n]
        invariant e == None && !finished
        invariant out.phase in {Looping(p.Length - n), Blocked(p.Length - n), Parked(p.Length - n)}
        invariant View() == Rounds(c, s, r, script[..k])
      {
        Sees(r);
        RoundsMore(c, s, r, script, k);
        Meanwhile(r, out, script[k].0);
        ghost var i := out.index;
        var got;
        got, e := Turn(r, out, p, n, script[k].1);
        n := n + got;
        Adjoin(data, old(out.index), i, out.index);
        if out.phase.Idle? {
          finished := true;
          Sees(r);
          RoundsDone(c, s, r, script, k + 1);
          return;
        }
      }
      assert script[..|script|] == script;
    }

    lemma InStream(r: nat)
      requires Valid() && r < |outs|
      ensures outs[r].index <= index + wlen <= |c.stream.data|
    {
      assert View().readers[r] == outs[r].View();
    }

    lemma LoneBegin(r: nat, out: Output, want: nat)
      requires Valid() && r < |outs| && out == outs[r] && out.phase == Idle && Alone(View(), r)
      ensures out.index <= |c.stream.data| && Alone(BeginRead(View(), r, want), r)
    {
      assert View().readers[r] == out.View();
    }
  }
}
