/**
 The resumable reader (`pkg/resilience/resio.go`): when the reader below fails, it is opened
 again and brought back to the offset reached so far.

 What the world does is a script that each operation on it consults: opening, reading,
 seeking and skipping may fail at any point, and readers may come with or without Seek.  When
 the script is over everything works.  Every opened reader has the same content, and a reader
 reports the end of the stream only at its end.
 */
module ResumableReader {
  import opened Common
  import opened MathKit

  type Byte = x: int | 0 <= x < 256

  datatype Error = NoError | Eof | Closed | Failed

  /**
   What an operation is told to do.  `End` is the end of the stream, reported together with
   the last bytes; `FalseEnd` is an opening or a seek that fails with the error of an end.
   */
  datatype Kind = Good | Fault | End | FalseEnd | Absent

  datatype Answer = Answer(kind: Kind, n: nat, flag: bool)

  /** The bytes of the content from `a` to `b`; none when that is beyond its end. */
  function Stretch(content: seq<Byte>, a: nat, b: nat): (r: seq<Byte>)
    ensures a <= b <= |content| ==> |r| == b - a
  {
    if a <= b <= |content| then content[a..b] else []
  }

  lemma StretchConcat(content: seq<Byte>, a: nat, b: nat, c: nat)
    requires a <= b <= c && (c <= |content| || b == c)
    ensures Stretch(content, a, c) == Stretch(content, a, b) + Stretch(content, b, c)
  {
  }

  /** No opening and no seek fails with the error of an end. */
  ghost predicate Honest(script: seq<Answer>) {
    forall i :: 0 <= i < |script| ==> script[i].kind != FalseEnd
  }

  /** A seek that is answered so fails; it may claim any distance all the same. */
  predicate Fails(a: Answer) {
    a.kind in {FalseEnd, Fault, End}
  }

  /** What Open answers. */
  predicate Opened(a: Answer, some: bool, err: Error) {
    && some == (a.kind == Good || a.flag)
    && err == match a.kind
              case Good => NoError
              case Absent => NoError
              case FalseEnd => Eof
              case _ => Failed
  }

  class Source {
    const content: seq<Byte>
    /** How often a restart tries when the script does not say. */
    const patience: nat
    var script: seq<Answer>
    ghost var handles: set<Handle>
    /** How many restarts began, how often the last may try, and how many operations failed since it began. */
    ghost var rounds: nat
    ghost var granted: nat
    ghost var faults: nat

    constructor (content: seq<Byte>, script: seq<Answer>, patience: nat)
      ensures this.content == content && this.script == script && this.patience == patience && handles == {}
    {
      this.content, this.script, this.patience, handles := content, script, patience, {};
      rounds, granted, faults := 0, 0, 0;
    }

    method Ask(otherwise: Answer) returns (a: Answer)
      modifies this`script
      ensures old(script) == [] ==> a == otherwise && script == []
      ensures old(script) != [] ==> a == old(script)[0] && script == old(script)[1..]
    {
      if script == [] {
        a := otherwise;
      } else {
        a, script := script[0], script[1..];
      }
    }

    /** How many attempts the retry strategy allows this time. */
    method Attempts() returns (n: nat)
      modifies this`script, this`rounds, this`granted, this`faults
      ensures rounds == old(rounds) + 1 && granted == n && faults == 0
      ensures |script| <= |old(script)| && (Honest(old(script)) ==> Honest(script))
      ensures old(script) == [] ==> n == patience
      ensures old(script) != [] ==> n == old(script)[0].n && script == old(script)[1..]
    {
      var a := Ask(Answer(Good, patience, false));
      n := a.n;
      rounds, granted, faults := rounds + 1, n, 0;
    }

    method Open() returns (r: Handle?, err: Error)
      modifies this
      ensures |script| <= |old(script)| && (Honest(old(script)) ==> Honest(script) && err != Eof)
      ensures old(script) == [] ==> r != null && err == NoError
      ensures rounds == old(rounds) && granted == old(granted)
      ensures faults == old(faults) + if r == null || err != NoError then 1 else 0
      ensures r == null ==> handles == old(handles)
      ensures r != null && old(script) != [] ==> r.seekable == (old(script)[0].n > 0)
      ensures old(script) != [] ==> script == old(script)[1..] && Opened(old(script)[0], r != null, err)
      ensures r != null ==> fresh(r) && handles == old(handles) + {r} && r.src == this && r.open && r.pos == 0
    {
      var a := Ask(Answer(Good, 0, false));
      r := null;
      if a.kind == Good || a.flag {
        r := new Handle(this, a.n > 0);
        handles := handles + {r};
      }
      err := match a.kind
        case Good => NoError
        case Absent => NoError
        case FalseEnd => Eof
        case _ => Failed;
      faults := faults + if r == null || err != NoError then 1 else 0;
    }
  }

  /** A reader that Open returned. */
  class Handle {
    const src: Source
    const seekable: bool
    var pos: nat
    var open: bool

    constructor (src: Source, seekable: bool)
      ensures this.src == src && this.seekable == seekable && pos == 0 && open
    {
      this.src, this.seekable, pos, open := src, seekable, 0, true;
    }

    function Left(): nat
      reads this
    {
      if pos < |src.content| then |src.content| - pos else 0
    }

    method Read(p: array<Byte>) returns (n: nat, err: Error)
      requires open
      modifies this`pos, src`script, src`faults, p
      ensures src.faults == old(src.faults) + if err == Failed then 1 else 0
      ensures |src.script| <= |old(src.script)| && (err == Failed ==> |src.script| < |old(src.script)|)
      ensures n <= p.Length && pos == old(pos) + n && (n == 0 || pos <= |src.content|)
      ensures p[..n] == Stretch(src.content, old(pos), pos)
      ensures err == Eof ==> |src.content| <= pos
      ensures err != Closed && (Honest(old(src.script)) ==> Honest(src.script))
      ensures old(src.script) == [] ==>
        n == Min(p.Length, old(Left())) && err == if old(Left()) == 0 then Eof else NoError
      ensures old(src.script) != [] ==>
        && src.script == old(src.script)[1..] && (err == Failed <==> old(src.script)[0].kind in {Fault, FalseEnd})
        && n == Min(old(src.script)[0].n, Min(p.Length, old(Left())))
    {
      var most := Min(p.Length, Left());
      var a := src.Ask(Answer(if Left() == 0 then End else Good, most, false));
      ghost var script := src.script;
      n := Min(a.n, most);
      for i := 0 to n
        invariant src.faults == old(src.faults)
        invariant pos == old(pos) && n <= most && src.script == script
        invariant forall k :: 0 <= k < i ==> p[k] == src.content[pos + k]
      {
        p[i] := src.content[pos + i];
      }
      pos := pos + n;
      err := if a.kind in {Fault, FalseEnd} then Failed else if a.kind == End && Left() == 0 then Eof else NoError;
      src.faults := src.faults + if err == Failed then 1 else 0;
    }

    /** Moves ahead from the current position; a failing seek may report anything. */
    method Seek(offset: nat) returns (got: nat, err: Error)
      requires open && seekable
      modifies this`pos, src`script, src`faults
      ensures |src.script| <= |old(src.script)| && (Honest(old(src.script)) ==> Honest(src.script) && err != Eof)
      ensures err != Closed && (err == NoError ==> pos == old(pos) + offset && got == pos)
      ensures old(src.script) == [] ==> err == NoError
      ensures old(src.script) != [] ==>
        src.script == old(src.script)[1..] && (err != NoError <==> Fails(old(src.script)[0]))
      ensures err != NoError ==> got == old(src.script)[0].n && pos == old(pos)
      ensures err != NoError ==> (err == Eof <==> old(src.script)[0].kind == FalseEnd)
      ensures src.faults == old(src.faults) + if err != NoError then 1 else 0
    {
      var a := src.Ask(Answer(Good, 0, false));
      if Fails(a) {
        src.faults := src.faults + 1;
        return a.n, if a.kind == FalseEnd then Eof else Failed;
      }
      pos := pos + offset;
      got, err := pos, NoError;
    }

    /** Reads and drops up to `offset` bytes; no error means all of them. */
    method Skip(offset: nat) returns (delta: nat, err: Error)
      requires open
      modifies this`pos, src`script, src`faults
      ensures |src.script| <= |old(src.script)| && (Honest(old(src.script)) ==> Honest(src.script))
      ensures old(src.script) == [] || old(src.script)[0].kind != Fault ==> delta == Min(offset, old(Left()))
      ensures old(src.script) != [] && old(src.script)[0].kind == Fault ==>
        delta == Min(old(src.script)[0].n, Min(offset, old(Left())))
      ensures err != Closed && (err == Eof ==> |src.content| < old(pos) + offset)
      ensures src.faults == old(src.faults) + if err == Failed then 1 else 0
      ensures pos == old(pos) + delta && delta <= offset && (err == NoError <==> delta == offset)
    {
      var most := Min(offset, Left());
      var a := src.Ask(Answer(Good, most, false));
      delta := if a.kind == Fault then Min(a.n, most) else most;
      pos := pos + delta;
      err := if delta == offset then NoError else if a.kind == Fault then Failed else Eof;
      src.faults := src.faults + if err == Failed then 1 else 0;
    }

    method Close()
      modifies this`open
      ensures !open
    {
      open := false;
    }
  }

  /** The next restart may try once; the next opening is refused, or works. */
  predicate Once(script: seq<Answer>) {
    script != [] && script[0].n == 1
  }

  predicate Refuses(script: seq<Answer>) {
    script != [] && !script[0].flag && script[0].kind in {Fault, FalseEnd}
  }

  /** The error of a refused opening. */
  function Refusal(script: seq<Answer>): Error {
    if script != [] && script[0].kind == FalseEnd then Eof else Failed
  }

  predicate Opens(script: seq<Answer>) {
    script != [] && script[0] == Answer(Good, 0, false)
  }

  /** The next opening works, and what it opens answers a seek with the end of the stream. */
  predicate EndsInSeek(script: seq<Answer>) {
    |script| > 1 && script[0].kind == Good && script[0].n > 0 && script[1].kind == FalseEnd
  }

  /** A read fails after one byte, and its only attempt at a restart is refused. */
  predicate FailsAfterOne(script: seq<Answer>) {
    |script| == 3 && script[0] == Answer(Fault, 1, false) && Once(script[1..]) && Refuses(script[2..])
  }

  /** The same after an opening that works. */
  predicate Breaks(script: seq<Answer>) {
    |script| == 5 && Once(script) && Opens(script[1..]) && FailsAfterOne(script[2..])
  }

  function Broken(refusal: Kind): (script: seq<Answer>)
    ensures refusal in {Fault, FalseEnd} ==> Breaks(script)
  {
    [Answer(Good, 1, false), Answer(Good, 0, false), Answer(Fault, 1, false),
     Answer(Good, 1, false), Answer(refusal, 0, false)]
  }

  /** Positive words add up from below. */
  lemma {:induction false} SumsBelow(words: seq<int>)
    requires forall i :: 0 <= i < |words| ==> 0 < words[i]
    ensures forall i :: 0 <= i <= |words| ==> Sum(words[..i]) <= Sum(words)
  {
    assert words[..|words|] == words;
    if words != [] {
      var rest := words[..|words| - 1];
      SumsBelow(rest);
      assert forall i :: 0 <= i <= |rest| ==> words[..i] == rest[..i];
    }
  }

  class Reader {
    const max: int
    const src: Source
    ghost const start: nat
    var reader: Handle?
    var offset: BigInt
    var closed: bool
    /** Some restart stopped at a seek that failed with the end of the stream. */
    ghost var lost: bool

    ghost predicate Valid()
      reads this, src, src.handles
    {
      Sound() && (reader != null && !lost ==> reader.pos == offset.Value())
    }

    /** All of it but where the reader stands; there is never a second open reader. */
    ghost predicate Sound()
      reads this, src, src.handles
    {
      && Width(max)
      && offset.Canonical(max) && start <= offset.Value()
      && (lost || offset.Value() <= |src.content| || offset.Value() == start)
      && (closed ==> reader == null)
      && (reader != null ==> reader in src.handles && reader.open)
      && (forall h <- src.handles :: h.src == src && (h.open ==> h == reader))
    }

    /** A reader that starts at an offset, as one that continues an earlier transfer does. */
    constructor (max: int, src: Source, start: nat)
      requires Width(max) && InRange(max, start) && src.handles == {}
      ensures Valid() && this.max == max && this.src == src && this.start == start
      ensures offset.Value() == start && !closed && !lost
    {
      this.max, this.src, this.start := max, src, start;
      reader, offset, closed, lost := null, Small(start), false, false;
    }

    method Close() returns (err: Error)
      requires Sound()
      modifies this`reader, this`closed, src.handles
      ensures Valid() && closed && err == if old(closed) then Closed else NoError
      ensures forall h <- src.handles :: !h.open && h.pos == old(h.pos)
    {
      if closed {
        return Closed;
      }
      if reader != null {
        reader.Close();
      }
      reader, closed := null, true;
      err := NoError;
    }

    /** seekFunc: one stretch of the way to the offset. */
    method SeekBy(r: Handle, offset: nat) returns (err: Error, ok: bool)
      requires r.open && r.src == src && 0 < offset
      modifies r`pos, src`script, src`faults
      ensures err == NoError ==> src.faults == old(src.faults)
      ensures err != NoError && old(r.pos) + offset <= |src.content| ==> src.faults == old(src.faults) + 1
      ensures |src.script| <= |old(src.script)| && (Honest(old(src.script)) ==> Honest(src.script))
      ensures err == Eof && Honest(old(src.script)) ==> !ok && |src.content| < old(r.pos) + offset
      ensures old(src.script) == [] && old(r.pos) + offset <= |src.content| ==> err == NoError
      ensures err != Closed && (err == NoError ==> ok && r.pos == old(r.pos) + offset)
      // only what cannot seek is read through, and ends
      ensures old(src.script) == [] ==> (err == NoError <==> r.seekable || old(r.pos) + offset <= |src.content|)
      ensures r.seekable && old(src.script) != [] && Fails(old(src.script)[0]) ==>
        && err == (if old(src.script)[0].kind == FalseEnd then Eof else Failed)
        && ok == (old(src.script)[0].n == offset) && src.script == old(src.script)[1..]
      ensures !r.seekable ==> (ok <==> err == NoError)
    {
      if r.seekable {
        var delta := 0;
        while delta < offset
          invariant |src.script| <= |old(src.script)| && (Honest(old(src.script)) ==> Honest(src.script))
          invariant src.faults == old(src.faults)
          invariant delta == 0 ==> src.script == old(src.script)
          invariant offset <= delta && old(src.script) != [] ==> !Fails(old(src.script)[0])
          invariant (delta == 0 && r.pos == old(r.pos)) || (offset <= delta && r.pos == old(r.pos) + offset)
          decreases offset - delta
        {
          var got;
          got, err := r.Seek(offset);
          var half := got / 2;
          delta := delta + half;
          delta := delta + (got - half);
          if err != NoError {
            return err, delta == offset;
          }
        }
        return NoError, true;
      }
      var delta;
      delta, err := r.Skip(offset);
      ok := delta == offset;
    }

    /** One attempt of a restart. */
    method Attempt() returns (r: Handle?, err: Error, ok: bool)
      requires Valid() && reader == null
      modifies src
      ensures |src.script| <= |old(src.script)| && (Honest(old(src.script)) ==> Honest(src.script))
      ensures err == Eof && Honest(old(src.script)) ==> !ok && |src.content| < offset.Value()
      ensures old(src.script) == [] && offset.Value() <= |src.content| ==> err == NoError
      ensures src.rounds == old(src.rounds) && src.granted == old(src.granted)
      ensures err == NoError ==> src.faults == old(src.faults)
      ensures err != NoError && offset.Value() <= |src.content| ==> src.faults == old(src.faults) + 1
      ensures r == null ==> src.handles == old(src.handles) && err != NoError && !ok
      ensures r != null ==> fresh(r) && src.handles == old(src.handles) + {r} && r.src == src && r.open
      ensures err != Closed && (r != null && err == NoError ==> ok && r.pos == offset.Value())
      ensures forall h <- old(src.handles) :: unchanged(h)
      ensures Refuses(old(src.script)) ==>
        r == null && err == Refusal(old(src.script)) && src.script == old(src.script)[1..]
      ensures Opens(old(src.script)) && offset.Value() == 0 ==> err == NoError && src.script == old(src.script)[1..]
      ensures EndsInSeek(old(src.script)) && offset.Small? && offset.n != 0 ==>
        r != null && err == Eof && (ok <==> old(src.script)[1].n == offset.n)
    {
      r, err := src.Open();
      if err != NoError {
        return r, err, false;
      }
      if r == null {
        return null, Failed, false;
      }
      if offset.Value() == 0 {
        return r, NoError, true;
      }
      var words := Iter(max, offset);
      SumsBelow(words);
      for i := 0 to |words|
        invariant Honest(old(src.script)) ==> Honest(src.script)
        invariant src.faults == old(src.faults) && src.rounds == old(src.rounds) && src.granted == old(src.granted)
        invariant |src.script| <= |old(src.script)| && src.handles == old(src.handles) + {r} && r.open
        invariant r.pos == Sum(words[..i])
        invariant i == 0 && old(src.script) != [] ==> src.script == old(src.script)[1..]
        invariant EndsInSeek(old(src.script)) && offset.Small? ==> i == 0
        invariant forall h <- old(src.handles) :: unchanged(h)
      {
        assert words[..i + 1][..i] == words[..i];
        err, ok := SeekBy(r, words[i]);
        if err != NoError {
          return r, err, ok;
        }
      }
      assert words[..|words|] == words;
      return r, NoError, true;
    }

    /** One round of a restart: settled with a reader that is kept, or not with one that is closed. */
    method TryOnce() returns (settled: bool, err: Error)
      requires Valid() && reader == null && !closed
      modifies this`reader, this`lost, src
      ensures Valid() && settled == (reader != null) && err != Closed
      ensures |src.script| <= |old(src.script)| && (Honest(old(src.script)) ==> Honest(src.script))
      ensures if err == NoError then settled && lost == old(lost) && reader.pos == offset.Value()
              else if settled then err == Eof && lost else lost == old(lost)
      ensures Honest(old(src.script)) ==> lost == old(lost) && (err == Eof ==> |src.content| < offset.Value())
      ensures old(src.script) == [] && offset.Value() <= |src.content| ==> err == NoError && src.script == []
      ensures src.rounds == old(src.rounds) && src.granted == old(src.granted)
      ensures offset.Value() <= |src.content| ==> src.faults == old(src.faults) + if err == NoError then 0 else 1
      ensures old(src.handles) <= src.handles && forall h <- src.handles :: h in old(src.handles) || fresh(h)
      ensures Refuses(old(src.script)) ==>
        !settled && err == Refusal(old(src.script)) && src.script == old(src.script)[1..]
      ensures Opens(old(src.script)) && offset.Value() == 0 ==> err == NoError && src.script == old(src.script)[1..]
      ensures EndsInSeek(old(src.script)) && offset.Small? && offset.n != 0 ==>
        err == Eof && (settled <==> old(src.script)[1].n == offset.n)
    {
      hide Honest, Stretch, Refuses, Refusal, Opens, EndsInSeek;
      var r, failure, ok := Attempt();
      if failure == NoError && ok {
        reader := r;
        return true, NoError;
      }
      if failure == Eof && ok {
        reader, lost := r, true;
        return true, Eof;
      }
      if r != null {
        r.Close();
      }
      return false, failure;
    }

    method Restart() returns (err: Error)
      requires Sound()
      modifies this`reader, this`closed, this`lost, src, src.handles
      ensures Valid() && closed == old(closed) && |src.script| <= |old(src.script)|
      ensures Honest(old(src.script)) ==> Honest(src.script) && lost == old(lost)
      ensures err == Eof && Honest(old(src.script)) ==> |src.content| < offset.Value()
      ensures old(src.script) == [] && src.patience > 0 && !old(closed) && offset.Value() <= |src.content| ==>
        err == NoError && src.script == []
      ensures err == Closed <==> old(closed)
      ensures src.rounds == old(src.rounds) + if old(closed) then 0 else 1
      // it fails only when every attempt it was granted failed
      ensures err != NoError && !old(closed) && !lost && offset.Value() <= |src.content| ==>
        src.faults == src.granted
      ensures old(closed) ==> lost == old(lost)
      ensures err == NoError ==> reader != null && reader.pos == offset.Value() && lost == old(lost)
      ensures old(lost) ==> lost
      ensures lost && !old(lost) ==> err == Eof
      ensures err != NoError && !lost ==> reader == null
      ensures forall h <- src.handles :: h in old(src.handles) || fresh(h)
      ensures !old(closed) && Once(old(src.script)) && Refuses(old(src.script)[1..]) ==>
        err == Refusal(old(src.script)[1..]) && lost == old(lost) && src.script == old(src.script)[2..]
      ensures !old(closed) && Once(old(src.script)) && Opens(old(src.script)[1..]) && offset.Value() == 0 ==>
        err == NoError && src.script == old(src.script)[2..]
      // the end of the stream as the answer to a seek is believed only if the seek claims the whole distance
      ensures
        (!old(closed) && Once(old(src.script)) && EndsInSeek(old(src.script)[1..]) && offset.Small? && offset.n != 0)
        ==>
        && err == Eof && lost == (old(lost) || old(src.script)[2].n == offset.n)
        && (reader != null <==> old(src.script)[2].n == offset.n)
    {
      if closed {
        return Closed;
      }
      var _ := Close();
      closed := false;
      var lastError := NoError;
      var attempts := src.Attempts();
      while attempts > 0
        invariant lastError != Closed && src.rounds == old(src.rounds) + 1 && 0 <= attempts <= src.granted
        invariant offset.Value() <= |src.content| ==> src.faults == src.granted - attempts
        invariant Honest(old(src.script)) ==> Honest(src.script)
        invariant lastError == Eof && Honest(old(src.script)) ==> |src.content| < offset.Value()
        invariant old(src.script) == [] && offset.Value() <= |src.content| ==>
          src.script == [] && attempts == src.patience
        invariant Once(old(src.script)) ==> attempts <= 1
        invariant Once(old(src.script)) && attempts == 1 ==> src.script == old(src.script)[1..]
        invariant Once(old(src.script)) && Refuses(old(src.script)[1..]) && attempts == 0 ==>
          lastError == Refusal(old(src.script)[1..]) && src.script == old(src.script)[2..]
        invariant Once(old(src.script)) && Opens(old(src.script)[1..]) && offset.Value() == 0 ==> attempts == 1
        invariant
          (Once(old(src.script)) && EndsInSeek(old(src.script)[1..]) && offset.Small? && offset.n != 0 && attempts == 0)
          ==> lastError == Eof && old(src.script)[2].n != offset.n
        invariant Valid() && !closed && lost == old(lost) && reader == null && |src.script| <= |old(src.script)|
        invariant old(src.handles) <= src.handles && forall h <- src.handles :: h in old(src.handles) || fresh(h)
      {
        attempts := attempts - 1;
        var settled;
        settled, lastError := TryOnce();
        if settled {
          return lastError;
        }
      }
      err := if lastError != NoError then lastError else Failed;
    }

    /**
     Reads into `p`.  Whatever the error, the bytes returned are those of the content at the
     offset.  The offset passes them unless a restart failed after they were read.
     */
    method Read(p: array<Byte>) returns (n: nat, err: Error, ghost passed: bool)
      requires Valid() && p.Length <= max
      modifies this`reader, this`offset, this`closed, this`lost, src, src.handles, p
      ensures Valid() && closed == old(closed) && n <= p.Length
      ensures old(closed) ==> n == 0 && err == Closed
      ensures err == NoError ==> passed
      ensures err == Failed || err == Closed ==> !passed
      ensures err == Closed ==> n == 0
      // without the bytes being passed it returns only after a restart used up its attempts
      ensures !old(closed) && !passed && !lost && old(offset.Value()) <= |src.content| ==>
        src.rounds > old(src.rounds) && src.faults == src.granted
      // a failing read is recovered from when the restart works
      ensures
        (!old(closed) && !old(lost) && old(reader) != null && src.patience > 0 && old(offset.Value()) <= |src.content|
         && |old(src.script)| == 1 && old(src.script)[0].kind in {Fault, FalseEnd})
        ==> Delivers(p, n, err, passed, old(offset.Value()))
      ensures !passed && err == Eof && !old(lost) && Honest(old(src.script)) ==> n == 0
      ensures !old(lost) ==>
        && (n == 0 || old(offset.Value()) + n <= |src.content|)
        && p[..n] == Stretch(src.content, old(offset.Value()), old(offset.Value()) + n)
      ensures offset.Value() == old(offset.Value()) + if passed then n else 0
      ensures !old(lost) && passed && err == Eof ==> |src.content| <= offset.Value()
      ensures Honest(old(src.script)) ==> Honest(src.script) && lost == old(lost)
      ensures err == Eof && !old(lost) && Honest(old(src.script)) ==> |src.content| <= offset.Value()
      ensures old(src.script) == [] && src.patience > 0 && !old(closed) && !old(lost) && offset.Value() <= |src.content|
        ==> Delivers(p, n, err, passed, old(offset.Value()))
      ensures old(lost) ==> lost
      ensures !old(lost) && lost ==> err == Eof && !passed
      ensures forall h <- src.handles :: h in old(src.handles) || fresh(h)
      ensures
        (!old(closed) && !old(lost) && old(reader) == null && old(offset) == Small(0) && Breaks(old(src.script))
         && 0 < p.Length && src.content != [])
        ==> n == 1 && err == Refusal(old(src.script)[4..]) && !passed && !lost && src.script == []
    {
      n, passed := 0, false;
      if closed {
        return 0, Closed, false;
      }
      if reader == null {
        err := Restart();
        if err != NoError {
          return 0, err, false;
        }
      }
      ghost var left := src.script;
      ghost var recovering := !lost && src.patience > 0 && offset.Value() <= |src.content|
        && |left| == 1 && left[0].kind in {Fault, FalseEnd};
      ghost var broken := !lost && offset == Small(0) && FailsAfterOne(left) && 0 < p.Length && src.content != [];
      assert Breaks(old(src.script)) && old(reader) == null && old(offset) == Small(0) ==>
        left == old(src.script)[2..] && left[2..] == old(src.script)[4..];
      while true
        invariant Valid() && !closed && reader != null && lost == old(lost)
        invariant offset == old(offset) && forall h <- src.handles :: h in old(src.handles) || fresh(h)
        invariant broken ==> src.script == left
        invariant Honest(old(src.script)) ==> Honest(src.script)
        invariant src.rounds >= old(src.rounds)
        invariant recovering ==> src.script == left || src.script == []
        invariant old(src.script) == [] && src.patience > 0 && offset.Value() <= |src.content| ==> src.script == []
        decreases |src.script|
      {
        var retry;
        n, err, passed, retry := Pass(p);
        if !retry {
          return;
        }
      }
    }

    /** A call on a source that has nothing more to fail: as much as is asked for or left, and the true end. */
    ghost predicate Delivers(p: array<Byte>, n: nat, err: Error, passed: bool, from: int)
    {
      && from <= |src.content| && n == Min(p.Length, |src.content| - from) && passed
      && err == if from == |src.content| then Eof else NoError
    }

    /** One round of Read's loop: done with a result, or with a new reader to try. */
    method Pass(p: array<Byte>) returns (n: nat, err: Error, ghost passed: bool, retry: bool)
      requires Valid() && !closed && reader != null && p.Length <= max
      modifies this`reader, this`offset, this`closed, this`lost, src, src.handles, p
      ensures Valid() && !closed && n <= p.Length
      ensures retry ==> reader != null && lost == old(lost) && offset == old(offset) && |src.script| < |old(src.script)|
      ensures !old(lost) ==>
        && (n == 0 || old(offset.Value()) + n <= |src.content|)
        && p[..n] == Stretch(src.content, old(offset.Value()), old(offset.Value()) + n)
      ensures !retry ==> offset.Value() == old(offset.Value()) + if passed then n else 0
      ensures !retry && err == NoError ==> passed
      ensures err == Failed ==> !passed
      ensures err != Closed && src.rounds >= old(src.rounds)
      ensures !retry && !passed && !lost && offset.Value() <= |src.content| ==>
        src.rounds > old(src.rounds) && src.faults == src.granted
      ensures
        (!old(lost) && src.patience > 0 && old(offset.Value()) <= |src.content|
         && |old(src.script)| == 1 && old(src.script)[0].kind in {Fault, FalseEnd})
        ==> retry && src.script == []
      ensures !retry && !passed && err == Eof && !old(lost) && Honest(old(src.script)) ==> n == 0
      ensures !old(lost) && passed && err == Eof ==> |src.content| <= offset.Value()
      ensures old(lost) ==> lost
      ensures !old(lost) && lost ==> err == Eof && !passed && !retry
      ensures forall h <- src.handles :: h in old(src.handles) || fresh(h)
      ensures Honest(old(src.script)) ==> Honest(src.script) && lost == old(lost)
      ensures !retry && err == Eof && !old(lost) && Honest(old(src.script)) ==> |src.content| <= offset.Value()
      ensures old(src.script) == [] && !old(lost) && offset.Value() <= |src.content| ==>
        !retry && Delivers(p, n, err, passed, old(offset.Value()))
      ensures
        (FailsAfterOne(old(src.script)) && !old(lost) && old(offset) == Small(0) && 0 < p.Length && src.content != [])
        ==> !retry && n == 1 && err == Refusal(old(src.script)[2..]) && !passed && !lost && src.script == []
    {
      hide Stretch, Honest, Add;
      n, err := reader.Read(p);
      if err == NoError || err == Eof {
        ExactArithmetic(max, offset, Of(n));
        offset := Add(max, offset, Of(n));
        return n, err, true, false;
      }
      passed := false;
      err := Restart();
      retry := err == NoError;
    }
  }

  /** What one call returned, and how the call stands. */
  datatype Call = Call(bytes: seq<Byte>, err: Error)

  function Joined(calls: seq<Call>): seq<Byte> {
    if calls == [] then [] else Joined(calls[..|calls| - 1]) + calls[|calls| - 1].bytes
  }

  lemma NoneJoined(content: seq<Byte>, start: nat)
    ensures Joined([]) == [] == Stretch(content, start, start)
  {
  }

  lemma JoinedMore(calls: seq<Call>, c: Call)
    ensures Joined(calls + [c]) == Joined(calls) + c.bytes
  {
    assert (calls + [c])[..|calls|] == calls;
  }

  /** The calls up to the first that reported any error. */
  predicate UntilError(calls: seq<Call>) {
    forall i :: 0 <= i < |calls| - 1 ==> calls[i].err == NoError
  }

  /**
   A consumer reads until the first error.  What it got, the last call included, is exactly
   what follows the start.  It got everything if the error is an end and the reader below
   reported it, or no opening and no seek fails with the error of an end.
   */
  method Consume(r: Reader, sizes: seq<nat>) returns (calls: seq<Call>, ghost passed: bool)
    requires r.Valid() && !r.lost && !r.closed && (forall i :: 0 <= i < |sizes| ==> sizes[i] <= r.max)
    requires r.offset.Value() == r.start
    modifies r`reader, r`offset, r`closed, r`lost, r.src, r.src.handles
    ensures UntilError(calls) && |calls| <= |sizes|
    ensures |calls| < |sizes| ==> calls != [] && calls[|calls| - 1].err != NoError
    ensures Joined(calls) == Stretch(r.src.content, r.start, r.start + |Joined(calls)|)
    ensures calls != [] && calls[|calls| - 1].err == Eof && (passed || Honest(old(r.src.script))) ==>
      |r.src.content| <= r.start + |Joined(calls)|
  {
    hide Stretch, Joined;
    NoneJoined(r.src.content, r.start);
    calls, passed := [], true;
    for i := 0 to |sizes|
      invariant r.Valid() && !r.closed && !r.lost && |calls| == i
      invariant Honest(old(r.src.script)) ==> Honest(r.src.script)
      invariant forall h <- r.src.handles :: h in old(r.src.handles) || fresh(h)
      invariant forall k :: 0 <= k < i ==> calls[k].err == NoError
      invariant r.offset.Value() == r.start + |Joined(calls)|
      invariant Joined(calls) == Stretch(r.src.content, r.start, r.offset.Value())
    {
      var p := new Byte[sizes[i]];
      ghost var from := r.offset.Value();
      var n, err;
      n, err, passed := r.Read(p);
      JoinedMore(calls, Call(p[..n], err));
      StretchConcat(r.src.content, r.start, from, from + n);
      calls := calls + [Call(p[..n], err)];
      if err != NoError {
        return;
      }
    }
  }

  /** How many bytes the calls before the i-th have passed. */
  function At(calls: seq<Call>, passed: seq<bool>, i: nat): nat
    requires i <= |calls| == |passed|
  {
    if i == 0 then 0 else At(calls, passed, i - 1) + if passed[i - 1] then |calls[i - 1].bytes| else 0
  }

  /** The bytes of the calls that passed them. */
  function Kept(calls: seq<Call>, passed: seq<bool>): (r: seq<Byte>)
    requires |calls| == |passed|
  {
    if calls == [] then []
    else
      var n := |calls| - 1;
      Kept(calls[..n], passed[..n]) + if passed[n] then calls[n].bytes else []
  }

  /** The call hands out the q-th byte after the start. */
  ghost predicate Hands(calls: seq<Call>, passed: seq<bool>, i: nat, q: int)
    requires i < |calls| == |passed|
  {
    At(calls, passed, i) <= q < At(calls, passed, i) + |calls[i].bytes|
  }

  /** Some byte of the content is handed out by two calls. */
  ghost predicate Twice(calls: seq<Call>, passed: seq<bool>)
    requires |calls| == |passed|
  {
    exists i, j, q :: 0 <= i < j < |calls| && Hands(calls, passed, i, q) && Hands(calls, passed, j, q)
  }

  lemma {:induction false} AtGrows(calls: seq<Call>, passed: seq<bool>, i: nat, j: nat)
    requires i <= j <= |calls| == |passed|
    ensures At(calls, passed, i) <= At(calls, passed, j)
    ensures (forall k :: i <= k < j ==> !passed[k] || calls[k].bytes == []) ==>
      At(calls, passed, i) == At(calls, passed, j)
    decreases j
  {
    if i < j {
      AtGrows(calls, passed, i, j - 1);
    }
  }

  /** After a call that did not pass its bytes, the next call with bytes starts where it did. */
  lemma {:induction false} HandedAgain(calls: seq<Call>, passed: seq<bool>, i: nat, j: nat)
    requires i < j < |calls| == |passed|
    requires !passed[i] && calls[i].bytes != [] && calls[j].bytes != []
    ensures Twice(calls, passed)
    decreases j
  {
    if k: nat :| i < k < j && calls[k].bytes != [] {
      HandedAgain(calls, passed, i, k);
    } else {
      AtGrows(calls, passed, i, j);
      var q := At(calls, passed, i);
      assert Hands(calls, passed, i, q) && Hands(calls, passed, j, q);
    }
  }

  /** A byte is handed out twice exactly when a call with bytes that were not passed is followed by one with bytes. */
  lemma TwiceIff(calls: seq<Call>, passed: seq<bool>)
    requires |calls| == |passed|
    ensures Twice(calls, passed) <==>
      exists i, j :: 0 <= i < j < |calls| && !passed[i] && calls[i].bytes != [] && calls[j].bytes != []
  {
    if i, j :| 0 <= i < j < |calls| && !passed[i] && calls[i].bytes != [] && calls[j].bytes != [] {
      HandedAgain(calls, passed, i, j);
    }
    if i, j, q :| 0 <= i < j < |calls| && Hands(calls, passed, i, q) && Hands(calls, passed, j, q) {
      AtGrows(calls, passed, i + 1, j);
      assert !passed[i];
    }
  }

  lemma OneCallMore(calls: seq<Call>, passed: seq<bool>, c: Call, p: bool)
    requires |calls| == |passed|
    ensures Kept(calls + [c], passed + [p]) == Kept(calls, passed) + if p then c.bytes else []
    ensures forall i: nat :: i <= |calls| ==> At(calls + [c], passed + [p], i) == At(calls, passed, i)
  {
    assert (calls + [c])[..|calls|] == calls && (passed + [p])[..|passed|] == passed;
    forall i: nat | i <= |calls| ensures At(calls + [c], passed + [p], i) == At(calls, passed, i) {
      AtPrefix(calls, passed, c, p, i);
    }
  }

  lemma {:induction false} AtPrefix(calls: seq<Call>, passed: seq<bool>, c: Call, p: bool, i: nat)
    requires i <= |calls| == |passed|
    ensures At(calls + [c], passed + [p], i) == At(calls, passed, i)
    decreases i
  {
    if i > 0 {
      AtPrefix(calls, passed, c, p, i - 1);
    }
  }

  /** Every call's bytes are those of the content at the place the passed bytes before it lead to. */
  ghost predicate InPlace(content: seq<Byte>, start: nat, calls: seq<Call>, passed: seq<bool>)
    requires |calls| == |passed|
  {
    forall i :: 0 <= i < |calls| ==> Placed(content, start + At(calls, passed, i), calls[i])
  }

  ghost predicate Placed(content: seq<Byte>, from: nat, c: Call) {
    c.bytes == Stretch(content, from, from + |c.bytes|)
  }

  lemma StillInPlace(content: seq<Byte>, start: nat, calls: seq<Call>, passed: seq<bool>, c: Call, p: bool)
    requires |calls| == |passed| && InPlace(content, start, calls, passed)
    requires Placed(content, start + At(calls, passed, |calls|), c)
    ensures InPlace(content, start, calls + [c], passed + [p])
  {
    hide At, Kept, Placed;
    OneCallMore(calls, passed, c, p);
    var calls', passed' := calls + [c], passed + [p];
    forall i | 0 <= i < |calls'| ensures Placed(content, start + At(calls', passed', i), calls'[i]) {
      assert At(calls', passed', i) == At(calls, passed, i);
      if i < |calls| {
        assert calls'[i] == calls[i];
      }
    }
  }

  /**
   A consumer that carries on after errors.  Whatever fails, each call's bytes are those of the
   content at the offset, and the passed bytes together are exactly what follows the start.  A
   byte is handed out twice exactly when a call had bytes that it did not pass and a later one
   has some.  These are, unless an opening or a seek fails with the error of an end, exactly the
   calls that return bytes with an error other than the end.
   */
  method ConsumeOn(r: Reader, sizes: seq<nat>) returns (calls: seq<Call>, ghost passed: seq<bool>)
    requires r.Valid() && !r.lost && (forall i :: 0 <= i < |sizes| ==> sizes[i] <= r.max)
    requires r.offset.Value() == r.start
    modifies r`reader, r`offset, r`closed, r`lost, r.src, r.src.handles
    ensures |calls| == |passed| == |sizes|
    ensures !r.lost ==> InPlace(r.src.content, r.start, calls, passed)
    ensures r.offset.Value() == r.start + |Kept(calls, passed)|
    ensures !r.lost ==> Kept(calls, passed) == Stretch(r.src.content, r.start, r.offset.Value())
    ensures forall i :: 0 <= i < |calls| && !passed[i] ==> calls[i].err != NoError
    ensures Honest(old(r.src.script)) ==> !r.lost
    ensures forall i :: 0 <= i < |calls| && calls[i].err == Failed ==> !passed[i]
    ensures Honest(old(r.src.script)) ==>
      forall i :: 0 <= i < |calls| ==>
        (!passed[i] && calls[i].bytes != [] <==> calls[i].err == Failed && calls[i].bytes != [])
    ensures Honest(old(r.src.script)) ==>
      (Twice(calls, passed) <==>
        exists i, j :: 0 <= i < j < |calls| && calls[i].err == Failed && calls[i].bytes != [] && calls[j].bytes != [])
    ensures Twice(calls, passed) <==>
      exists i, j :: 0 <= i < j < |calls| && !passed[i] && calls[i].bytes != [] && calls[j].bytes != []
  {
    hide Stretch, At, Kept, InPlace, Twice, Honest;
    calls, passed := [], [];
    NoCalls(r.src.content, r.start);
    for i := 0 to |sizes|
      invariant r.Valid() && |calls| == |passed| == i
      invariant forall h <- r.src.handles :: h in old(r.src.handles) || fresh(h)
      invariant r.offset.Value() == r.start + |Kept(calls, passed)|
      invariant |Kept(calls, passed)| == At(calls, passed, |calls|)
      invariant !r.lost ==> Kept(calls, passed) == Stretch(r.src.content, r.start, r.offset.Value())
      invariant !r.lost ==> InPlace(r.src.content, r.start, calls, passed)
      invariant forall k :: 0 <= k < i && !passed[k] ==> calls[k].err != NoError
      invariant forall k :: 0 <= k < i && calls[k].err == Failed ==> !passed[k]
      invariant Honest(old(r.src.script)) ==>
        forall k :: 0 <= k < i && !passed[k] && calls[k].bytes != [] ==> calls[k].err == Failed
      invariant Honest(old(r.src.script)) ==> Honest(r.src.script) && !r.lost
    {
      var p := new Byte[sizes[i]];
      ghost var from := r.offset.Value();
      var n, err, through := r.Read(p);
      ghost var c := Call(p[..n], err);
      AfterCall(r.src.content, r.start, calls, passed, c, through);
      calls := calls + [Call(p[..n], err)];
      passed := passed + [through];
    }
    TwiceIff(calls, passed);
  }

  lemma NoCalls(content: seq<Byte>, start: nat)
    ensures Kept([], []) == [] == Stretch(content, start, start) && At([], [], 0) == 0
    ensures InPlace(content, start, [], [])
  {
  }

  lemma AfterCall(content: seq<Byte>, start: nat, calls: seq<Call>, passed: seq<bool>, c: Call, p: bool)
    requires |calls| == |passed| && |Kept(calls, passed)| == At(calls, passed, |calls|)
    ensures var calls', passed' := calls + [c], passed + [p];
      && Kept(calls', passed') == Kept(calls, passed) + (if p then c.bytes else [])
      && |Kept(calls', passed')| == At(calls', passed', |calls'|)
    ensures var from := start + |Kept(calls, passed)|;
      (c.bytes == [] || from + |c.bytes| <= |content|) && c.bytes == Stretch(content, from, from + |c.bytes|) ==>
      && (InPlace(content, start, calls, passed) ==> InPlace(content, start, calls + [c], passed + [p]))
      && (Kept(calls, passed) == Stretch(content, start, from) ==>
           var to := from + if p then |c.bytes| else 0;
           Kept(calls + [c], passed + [p]) == Stretch(content, start, to))
  {
    hide Stretch, InPlace;
    OneCallMore(calls, passed, c, p);
    var from := start + |Kept(calls, passed)|;
    if c.bytes == Stretch(content, from, from + |c.bytes|) && InPlace(content, start, calls, passed) {
      StillInPlace(content, start, calls, passed, c, p);
    }
    if c.bytes == [] || from + |c.bytes| <= |content| {
      StretchConcat(content, start, from, from + |c.bytes|);
    }
  }

  /**
   A restart that fails returns the bytes of the failed read with its error and does not pass
   them: a caller that keeps them and reads on gets them again.
   */
  method HandedTwice(a: Byte, b: Byte) returns (first: seq<Byte>, error: Error, second: seq<Byte>)
    ensures first == [a] && error == Failed && second == [a, b]
  {
    first, error, second := ReadTwice(a, b, Fault);
  }

  /**
   When the opening is refused with the error of an end, the call reports the end of the
   stream, with bytes and with content left.
   */
  method FalselyEnded(a: Byte, b: Byte) returns (first: seq<Byte>, error: Error, second: seq<Byte>)
    ensures first == [a] && error == Eof && second == [a, b]
  {
    first, error, second := ReadTwice(a, b, FalseEnd);
  }

  method ReadTwice(a: Byte, b: Byte, refusal: Kind) returns (first: seq<Byte>, error: Error, second: seq<Byte>)
    requires refusal in {Fault, FalseEnd}
    ensures first == [a] && error == (if refusal == Fault then Failed else Eof) && second == [a, b]
  {
    var src := new Source([a, b], Broken(refusal), 1);
    var r := new Reader(127, src, 0);
    var p, q := new Byte[2], new Byte[2];
    var n, err, passed := r.Read(p);
    first, error := p[..n], err;
    var m, err', passed' := r.Read(q);
    second := q[..m];
  }
}
