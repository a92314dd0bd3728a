/**
 The raw-DEFLATE encoders of content objects.

 The sink compresses what a caller writes and passes it to an inner writer; the
 reader compresses what it reads from a source. Both run the same compressor,
 which is a step function here: any deterministic compressor. The inner writer
 and the source follow a script, so a script stands for any pattern of waiting,
 short writes and failures.
 */
module Deflate {
  import opened Bytes

  const CHUNK: nat := 65536

  datatype Mode = Plain | Sync | Finish

  datatype Status = Going | Ended | Failed

  datatype Step<C> = Step(state: C, taken: nat, out: Blob, status: Status)

  datatype Codec<!C(!new)> = Codec(step: (C, Blob, Mode) -> Step<C>, start: nat -> C)

  datatype Call = Call(input: Blob, mode: Mode)

  datatype Poll<T> = Pending | Ready(value: T) | Error

  /** A step takes no more than it is given, and writes no more than the buffer holds. */
  ghost predicate Proper<C(!new)>(z: Codec<C>) {
    forall c, b, m :: z.step(c, b, m).taken <= |b| && |z.step(c, b, m).out| <= CHUNK
  }

  // --- A compressor over a list of calls ----------------------------------------

  /**
   What a list of calls leaves: the state, the bytes of the calls that did not
   fail, and the number of sync steps since the last step over input.
   */
  datatype Trace<C> = Trace(state: C, output: Blob, syncs: nat, wrote: bool)

  function AddCall<C(!new)>(z: Codec<C>, t: Trace<C>, call: Call): Trace<C> {
    var s := z.step(t.state, call.input, call.mode);
    if s.status.Failed? then t.(state := s.state)
    else
      var writes := call.mode.Plain? && call.input != [];
      Trace(s.state, t.output + s.out,
            if writes then 0 else if call.mode.Sync? then t.syncs + 1 else t.syncs,
            t.wrote || writes)
  }

  function Run<C(!new)>(z: Codec<C>, c: C, calls: seq<Call>): Trace<C> {
    if calls == [] then Trace(c, [], 0, false)
    else AddCall(z, Run(z, c, calls[..|calls| - 1]), calls[|calls| - 1])
  }

  lemma {:induction false} RunSnoc<C(!new)>(z: Codec<C>, c: C, calls: seq<Call>, call: Call)
    ensures Run(z, c, calls + [call]) == AddCall(z, Run(z, c, calls), call)
  {
    assert (calls + [call])[..|calls|] == calls;
  }

  // --- The calls that encode a list of chunks -----------------------------------

  /** What is still to compress. */
  datatype Feed<C> = Feed(state: C, todo: seq<Blob>, finished: bool)

  function Left(todo: seq<Blob>, n: nat): seq<Blob>
    requires todo != []
  {
    if n < |todo[0]| then [todo[0][n..]] + todo[1..] else todo[1..]
  }

  function NextCall<C>(f: Feed<C>): Call {
    if f.todo == [] then Call([], Finish) else Call(f.todo[0], Plain)
  }

  function Advance<C(!new)>(z: Codec<C>, f: Feed<C>): Feed<C> {
    var call := NextCall(f);
    var s := z.step(f.state, call.input, call.mode);
    if s.status.Failed? then Feed(s.state, f.todo, false)
    else if f.todo == [] then Feed(s.state, [], s.status.Ended?)
    else Feed(s.state, Left(f.todo, s.taken), false)
  }

  function After<C(!new)>(z: Codec<C>, f: Feed<C>, n: nat): Feed<C> {
    if n == 0 then f else Advance(z, After(z, f, n - 1))
  }

  function Calls<C(!new)>(z: Codec<C>, f: Feed<C>, n: nat): seq<Call> {
    if n == 0 then [] else Calls(z, f, n - 1) + [NextCall(After(z, f, n - 1))]
  }

  predicate Unfinished<C(!new)>(z: Codec<C>, f: Feed<C>, n: nat) {
    n == 0 || (Unfinished(z, f, n - 1) && !After(z, f, n - 1).finished)
  }

  predicate Feeding<C(!new)>(z: Codec<C>, f: Feed<C>, n: nat) {
    n == 0 || (Feeding(z, f, n - 1) && After(z, f, n - 1).todo != [])
  }

  /** `log` is the calls that encode `f`, from the start up to where `now` is left. */
  ghost predicate Follows<C(!new)>(z: Codec<C>, f: Feed<C>, log: seq<Call>, now: Feed<C>) {
    log == Calls(z, f, |log|) && now == After(z, f, |log|) && Unfinished(z, f, |log|)
  }

  lemma {:induction false} FollowsStep<C(!new)>(z: Codec<C>, f: Feed<C>, log: seq<Call>, now: Feed<C>, more: seq<Call>)
    requires Follows(z, f, log, now) && !now.finished && more == log + [NextCall(now)]
    ensures Follows(z, f, more, Advance(z, now))
  {
    assert |more| - 1 == |log|;
  }

  lemma {:induction false} FeedingStep<C(!new)>(z: Codec<C>, f: Feed<C>, log: seq<Call>, now: Feed<C>, more: seq<Call>)
    requires Follows(z, f, log, now) && now.todo != [] && Feeding(z, f, |log|) && |more| == |log| + 1
    ensures Feeding(z, f, |more|)
  {
    assert |more| - 1 == |log|;
  }

  /** A chunk that arrives later does not change the calls made before. */
  lemma {:induction false} MoreChunks<C(!new)>(z: Codec<C>, f: Feed<C>, g: Feed<C>, b: Blob, n: nat)
    requires Feeding(z, f, n) && g == f.(todo := f.todo + [b])
    ensures Calls(z, g, n) == Calls(z, f, n)
    ensures After(z, g, n) == After(z, f, n).(todo := After(z, f, n).todo + [b])
    ensures Feeding(z, g, n) && (Unfinished(z, f, n) ==> Unfinished(z, g, n))
  {
    if n > 0 {
      MoreChunks(z, f, g, b, n - 1);
      AdvanceMore(z, After(z, f, n - 1), After(z, g, n - 1), b);
    }
  }

  lemma {:induction false} AdvanceMore<C(!new)>(z: Codec<C>, f: Feed<C>, g: Feed<C>, b: Blob)
    requires f.todo != [] && g == f.(todo := f.todo + [b])
    ensures NextCall(g) == NextCall(f)
    ensures Advance(z, g) == Advance(z, f).(todo := Advance(z, f).todo + [b])
  {
    var s := z.step(f.state, f.todo[0], Plain);
    assert Left(g.todo, s.taken) == Left(f.todo, s.taken) + [b];
  }

  lemma {:induction false} UnfinishedBefore<C(!new)>(z: Codec<C>, f: Feed<C>, m: nat, n: nat)
    requires m < n && Unfinished(z, f, n)
    ensures !After(z, f, m).finished
  {
    if m < n - 1 {
      UnfinishedBefore(z, f, m, n - 1);
    }
  }

  /** Two encoders that end the same chunks made the same calls, and so gave the same bytes. */
  lemma {:induction false} SameCalls<C(!new)>(
    z: Codec<C>, f: Feed<C>, a: seq<Call>, b: seq<Call>, x: Feed<C>, y: Feed<C>)
    requires Follows(z, f, a, x) && x.finished && Follows(z, f, b, y) && y.finished
    ensures a == b && Run(z, f.state, a).output == Run(z, f.state, b).output
  {
    if |a| < |b| {
      UnfinishedBefore(z, f, |a|, |b|);
    } else if |b| < |a| {
      UnfinishedBefore(z, f, |b|, |a|);
    }
  }

  // --- A compressor that falls silent --------------------------------------------

  predicate Silent<C(!new)>(z: Codec<C>, c: C) {
    var s := z.step(c, [], Finish);
    s.status.Going? && s.out == []
  }

  /** The first `n` finish steps from `c` neither end, nor fail, nor produce. */
  predicate SilentFor<C(!new)>(z: Codec<C>, c: C, n: nat) {
    n == 0 || (Silent(z, c) && SilentFor(z, z.step(c, [], Finish).state, n - 1))
  }

  ghost predicate Wakes<C(!new)>(z: Codec<C>, c: C) {
    exists n: nat :: !SilentFor(z, c, n)
  }

  function AfterFinish<C(!new)>(z: Codec<C>, c: C): C { z.step(c, [], Finish).state }

  function Finishing<C(!new)>(z: Codec<C>, c: C, k: nat): C {
    if k == 0 then c else Finishing(z, AfterFinish(z, c), k - 1)
  }

  /** The first `k` finish steps from `c` neither end nor fail. */
  predicate GoingFor<C(!new)>(z: Codec<C>, c: C, k: nat) {
    k == 0 || (z.step(c, [], Finish).status.Going? && GoingFor(z, AfterFinish(z, c), k - 1))
  }

  /** No state that the finish steps from `c` reach is silent for ever. */
  ghost predicate CanClose<C(!new)>(z: Codec<C>, c: C) {
    forall k: nat :: GoingFor(z, c, k) ==> Wakes(z, Finishing(z, c, k))
  }

  lemma {:induction false} CanCloseNext<C(!new)>(z: Codec<C>, c: C)
    requires CanClose(z, c) && z.step(c, [], Finish).status.Going?
    ensures CanClose(z, AfterFinish(z, c))
  {
    forall k: nat | GoingFor(z, AfterFinish(z, c), k)
      ensures Wakes(z, Finishing(z, AfterFinish(z, c), k))
    {
      assert GoingFor(z, c, k + 1);
    }
  }

  lemma {:induction false} WakesNow<C(!new)>(z: Codec<C>, c: C)
    requires CanClose(z, c)
    ensures Wakes(z, c)
  {
    assert GoingFor(z, c, 0);
  }

  /** From a state that never wakes, a finish step does nothing and never wakes either. */
  lemma {:induction false} Spins<C(!new)>(z: Codec<C>, c: C)
    requires !Wakes(z, c)
    ensures Silent(z, c) && !Wakes(z, AfterFinish(z, c))
  {
    assert SilentFor(z, c, 1);
    forall n: nat
      ensures SilentFor(z, AfterFinish(z, c), n)
    {
      assert SilentFor(z, c, n + 1);
    }
  }

  lemma {:induction false} NextWake<C(!new)>(z: Codec<C>, c: C, n: nat) returns (left: nat)
    requires CanClose(z, c) && !SilentFor(z, c, n) && z.step(c, [], Finish).status.Going?
    ensures !SilentFor(z, AfterFinish(z, c), left) && CanClose(z, AfterFinish(z, c))
    ensures Silent(z, c) ==> left < n
  {
    CanCloseNext(z, c);
    if Silent(z, c) {
      left := n - 1;
    } else {
      WakesNow(z, AfterFinish(z, c));
      left :| !SilentFor(z, AfterFinish(z, c), left);
    }
  }

  // --- When the close loop returns --------------------------------------------------

  /** The close loop between two turns: the compressor, the number of bytes held, and the script of the writer. */
  datatype Closing<C> = Closing(state: C, held: nat, script: seq<Answer>)

  /** The script after the writer took all bytes, or none if the drain returns: it waits, fails or takes nothing. */
  function Drained(held: nat, script: seq<Answer>): (r: Option<seq<Answer>>)
    ensures r.Some? ==> if held > 0 then |r.value| < |script| else r.value == script
    decreases |script|
  {
    if held == 0 then Some(script)
    else if script == [] || !script[0].Accept? || script[0].n == 0 then None
    else Drained(if script[0].n < held then held - script[0].n else 0, script[1..])
  }

  /** One turn: drain, then a finish step. None if the loop ends or returns. */
  function CloseTurn<C(!new)>(z: Codec<C>, s: Closing<C>): Option<Closing<C>> {
    var rest, step := Drained(s.held, s.script), z.step(s.state, [], Finish);
    if rest.Some? && step.status.Going? then Some(Closing(step.state, |step.out|, rest.value)) else None
  }

  function CloseTurns<C(!new)>(z: Codec<C>, s: Closing<C>, n: nat): Option<Closing<C>>
    decreases n
  {
    if n == 0 then Some(s) else if CloseTurn(z, s).None? then None else CloseTurns(z, CloseTurn(z, s).value, n - 1)
  }

  ghost predicate Returns<C(!new)>(z: Codec<C>, s: Closing<C>) {
    exists n: nat :: CloseTurns(z, s, n).None?
  }

  lemma {:induction false} ReturnsIfCanClose<C(!new)>(z: Codec<C>, s: Closing<C>, n: nat)
    requires CanClose(z, s.state) && !SilentFor(z, s.state, n)
    ensures Returns(z, s)
    decreases |s.script|, if s.held > 0 then 0 else 1, n
  {
    if CloseTurn(z, s).None? {
      assert CloseTurns(z, s, 1).None?;
    } else {
      var t := CloseTurn(z, s).value;
      var left := NextWake(z, s.state, n);
      ReturnsIfCanClose(z, t, left);
      var k: nat :| CloseTurns(z, t, k).None?;
      assert CloseTurns(z, s, k + 1).None?;
    }
  }

  lemma {:induction false} SpinsOn<C(!new)>(z: Codec<C>, c: C, script: seq<Answer>, n: nat)
    requires !Wakes(z, c)
    ensures CloseTurns(z, Closing(c, 0, script), n).Some?
  {
    if n > 0 {
      Spins(z, c);
      SpinsOn(z, AfterFinish(z, c), script, n - 1);
    }
  }

  lemma {:induction false} StuckAt<C(!new)>(z: Codec<C>, c: C, k: nat) returns (script: seq<Answer>)
    requires GoingFor(z, c, k) && !Wakes(z, Finishing(z, c, k))
    ensures !Returns(z, Closing(c, 0, script))
    decreases k
  {
    if k == 0 {
      script := [];
      forall n: nat
        ensures CloseTurns(z, Closing(c, 0, script), n).Some?
      {
        SpinsOn(z, c, script, n);
      }
    } else {
      var more := StuckAt(z, AfterFinish(z, c), k - 1);
      var out := |z.step(c, [], Finish).out|;
      script := if out == 0 then more else [Accept(out)] + more;
      assert Drained(out, script) == Some(more);
      forall n: nat
        ensures CloseTurns(z, Closing(c, 0, script), n).Some?
      {
        StuckTurn(z, c, out, script, more, n);
      }
    }
  }

  lemma {:induction false} StuckTurn<C(!new)>(z: Codec<C>, c: C, out: nat, script: seq<Answer>, more: seq<Answer>,
                                       n: nat)
    requires z.step(c, [], Finish).status.Going? && out == |z.step(c, [], Finish).out|
    requires Drained(out, script) == Some(more) && !Returns(z, Closing(AfterFinish(z, c), 0, more))
    ensures CloseTurns(z, Closing(c, 0, script), n).Some?
  {
    var next := AfterFinish(z, c);
    if n > 1 {
      assert CloseTurns(z, Closing(next, 0, more), n - 1).Some?;
      assert CloseTurn(z, Closing(next, out, script)) == CloseTurn(z, Closing(next, 0, more));
    }
  }

  /** The close loop returns, for every writer, exactly if no state it can reach is silent for ever. */
  lemma {:induction false} CloseReturns<C(!new)>(z: Codec<C>, c: C)
    ensures CanClose(z, c) <==> forall held: nat, script: seq<Answer> :: Returns(z, Closing(c, held, script))
  {
    if CanClose(z, c) {
      WakesNow(z, c);
      var n: nat :| !SilentFor(z, c, n);
      forall held: nat, script: seq<Answer>
        ensures Returns(z, Closing(c, held, script))
      {
        ReturnsIfCanClose(z, Closing(c, held, script), n);
      }
    } else {
      var k: nat :| GoingFor(z, c, k) && !Wakes(z, Finishing(z, c, k));
      var script := StuckAt(z, c, k);
      assert !Returns(z, Closing(c, 0, script));
    }
  }

  /** A proper compressor that is silent for ever. */
  function Mute(): Codec<nat> {
    Codec((c: nat, b: Blob, m: Mode) => Step(c, |b|, [], Going), (level: nat) => level)
  }

  /** On it the close loop never returns. */
  lemma {:induction false} MuteNeverCloses(c: nat)
    ensures Proper(Mute()) && !CanClose(Mute(), c) && !Returns(Mute(), Closing(c, 0, []))
  {
    forall n: nat
      ensures SilentFor(Mute(), c, n)
    {
      MuteIsSilent(c, n);
    }
    assert GoingFor(Mute(), c, 0) && !Wakes(Mute(), Finishing(Mute(), c, 0));
    forall n: nat
      ensures CloseTurns(Mute(), Closing(c, 0, []), n).Some?
    {
      SpinsOn(Mute(), c, [], n);
    }
  }

  lemma {:induction false} MuteIsSilent(c: nat, n: nat)
    ensures SilentFor(Mute(), c, n)
  {
    if n > 0 {
      MuteIsSilent(c, n - 1);
    }
  }

  // --- The two ends ---------------------------------------------------------------

  datatype Answer = Wait | Accept(n: nat) | Broken

  /** An inner writer that follows a script, and waits for ever after its end. */
  class Writer {
    var script: seq<Answer>
    var taken: Blob

    method PollWrite(buf: Blob) returns (r: Poll<nat>)
      modifies this
      ensures script == if old(script) == [] then [] else old(script)[1..]
      ensures old(script) == [] ==> r.Pending?
      ensures r.Ready? ==> r.value <= |buf| && taken == old(taken) + buf[..r.value]
      ensures !r.Ready? ==> taken == old(taken)
    {
      if script == [] {
        return Pending;
      }
      var answer := script[0];
      script := script[1..];
      match answer
      case Wait => r := Pending;
      case Broken => r := Error;
      case Accept(n) =>
        var k := if n < |buf| then n else |buf|;
        taken := taken + buf[..k];
        r := Ready(k);
    }

    method PollFlush() returns (r: Poll<()>)
      modifies this`script
      ensures script == if old(script) == [] then [] else old(script)[1..]
      ensures old(script) == [] ==> r.Pending?
    {
      if script == [] {
        return Pending;
      }
      r := match script[0] case Wait => Pending case Broken => Error case Accept(_) => Ready(());
      script := script[1..];
    }
  }

  datatype Reply = Hold | Bytes(b: Blob) | Lost

  /** A source that follows a script; each reply fits the buffer of the reader. */
  class Source {
    var script: seq<Reply>

    ghost predicate Valid()
      reads this
    {
      forall i :: 0 <= i < |script| && script[i].Bytes? ==> |script[i].b| <= CHUNK
    }

    method PollRead() returns (r: Poll<Blob>)
      requires Valid()
      modifies this
      ensures Valid() && script == if old(script) == [] then [] else old(script)[1..]
      ensures old(script) == [] ==> r.Pending?
      ensures r.Ready? ==> |r.value| <= CHUNK
    {
      if script == [] {
        return Pending;
      }
      r := match script[0] case Hold => Pending case Lost => Error case Bytes(b) => Ready(b);
      script := script[1..];
    }
  }

  lemma {:induction false} DrainStep(taken: Blob, held: Blob, k: nat, rest: Blob, whole: Blob)
    requires k <= |held| && rest == held[k..] && taken + held == whole
    ensures (taken + held[..k]) + rest == whole
  {
  }

  /** The stream since the last start: the state and the bytes it started with, and the calls since then. */
  datatype Stream<C(!new)> = Stream(init: C, base: Blob, log: seq<Call>) {
    ghost function Traced(z: Codec<C>): Trace<C> { Run(z, init, log) }

    ghost function With(call: Call): Stream<C> { Stream(init, base, log + [call]) }

    /** The same stream, with more calls. */
    ghost predicate Continues(s: Stream<C>) { init == s.init && base == s.base && s.log <= log }
  }

  /** What one step over `call` returns. */
  function StepResult<C>(s: Step<C>): Poll<(nat, nat, bool)> {
    if s.status.Failed? then Error else Ready((s.taken, |s.out|, s.status.Ended?))
  }

  /** What the inner writer took, then what the buffer holds, is all the output. */
  ghost predicate Conserved<C>(t: Trace<C>, compressor: C, base: Blob, taken: Blob, held: Blob) {
    compressor == t.state && taken + held == base + t.output
  }

  /** The open block has one sync step when a flush started on it, and none before. */
  ghost predicate SyncOnce<C>(t: Trace<C>, syncing: bool, flushed: bool) {
    && !(syncing && flushed)
    && t.syncs == (if t.wrote && (syncing || flushed) then 1 else 0)
    && (!t.wrote ==> flushed)
  }

  lemma {:induction false} OutputGrows(taken: Blob, base: Blob, output: Blob, more: Blob)
    requires taken + [] == base + output
    ensures taken + more == base + (output + more)
  {
    assert taken + [] == taken;
  }

  lemma {:induction false} WriteOpens<C(!new)>(z: Codec<C>, s: Stream<C>, buf: Blob, c: C, syncing: bool, flushed: bool)
    requires SyncOnce(s.Traced(z), syncing, flushed) && buf != [] && c == s.Traced(z).state
    ensures var ok := StepResult(z.step(c, buf, Plain)).Ready?;
            SyncOnce(s.With(Call(buf, Plain)).Traced(z), !ok && syncing, !ok && flushed)
  {
    RunSnoc(z, s.init, s.log, Call(buf, Plain));
  }

  lemma {:induction false} FlushSyncs<C(!new)>(z: Codec<C>, s: Stream<C>, c: C, syncing: bool, mode: Mode)
    requires SyncOnce(s.Traced(z), syncing, false) && c == s.Traced(z).state && mode == if syncing then Plain else Sync
    ensures var ok, t := StepResult(z.step(c, [], mode)).Ready?, s.With(Call([], mode)).Traced(z);
            if ok then SyncOnce(t, true, false) && SyncOnce(t, false, true) else SyncOnce(t, syncing, false)
  {
    RunSnoc(z, s.init, s.log, Call([], mode));
  }

  lemma {:induction false} FinishKeeps<C(!new)>(z: Codec<C>, s: Stream<C>, syncing: bool, flushed: bool)
    requires SyncOnce(s.Traced(z), syncing, flushed)
    ensures SyncOnce(s.With(Call([], Finish)).Traced(z), syncing, flushed)
  {
    RunSnoc(z, s.init, s.log, Call([], Finish));
  }

  /** A step over the first chunk still to do keeps to the list. */
  lemma {:induction false} WriteFollows<C(!new)>(
    z: Codec<C>, feed: Feed<C>, s: Stream<C>, c: C, buf: Blob, tail: seq<Blob>, done: bool)
    requires !done && Follows(z, feed, s.log, Feed(c, [buf] + tail, done))
    ensures var r := StepResult(z.step(c, buf, Plain));
            Follows(z, feed, s.With(Call(buf, Plain)).log,
                    Feed(z.step(c, buf, Plain).state,
                         if r.Ready? then Left([buf] + tail, r.value.0) else [buf] + tail, done))
  {
    FollowsStep(z, feed, s.log, Feed(c, [buf] + tail, done), s.log + [Call(buf, Plain)]);
  }

  lemma {:induction false} FinishFollows<C(!new)>(z: Codec<C>, feed: Feed<C>, s: Stream<C>, c: C)
    requires Follows(z, feed, s.log, Feed(c, [], false))
    ensures var r := StepResult(z.step(c, [], Finish));
            Follows(z, feed, s.With(Call([], Finish)).log,
                    Feed(z.step(c, [], Finish).state, [], r.Ready? && r.value.2))
  {
    FollowsStep(z, feed, s.log, Feed(c, [], false), s.log + [Call([], Finish)]);
  }

  /** Runs the compressor once into `out`. */
  method RunStep<C(!new)>(z: Codec<C>, c: C, input: Blob, mode: Mode, out: array<byte>)
    returns (next: C, r: Poll<(nat, nat, bool)>)
    requires Proper(z) && out.Length == CHUNK
    modifies out
    ensures next == z.step(c, input, mode).state && r == StepResult(z.step(c, input, mode))
    ensures r.Ready? ==> out[0..r.value.1] == z.step(c, input, mode).out
  {
    var s := z.step(c, input, mode);
    next := s.state;
    forall i | 0 <= i < |s.out| {
      out[i] := s.out[i];
    }
    if s.status.Failed? {
      return next, Error;
    }
    assert out[0..|s.out|] == s.out;
    return next, Ready((s.taken, |s.out|, s.status.Ended?));
  }

  // --- The sink -------------------------------------------------------------------

  class DeflateSink<C(!new)> {
    const z: Codec<C>
    var inner: Writer
    var compressor: C
    const out: array<byte>
    var sent: nat
    var filled: nat
    var syncing: bool
    var flushed: bool
    var done: bool
    ghost var stream: Stream<C>

    ghost predicate Sized()
      reads this
    {
      out.Length == CHUNK && sent <= filled <= CHUNK
    }

    ghost predicate Flowing()
      reads this, inner, out
    {
      && Proper(z) && Sized()
      && Conserved(stream.Traced(z), compressor, stream.base, inner.taken, out[sent..filled])
    }

    ghost predicate Valid()
      reads this, inner, out
    {
      Flowing() && SyncOnce(stream.Traced(z), syncing, flushed)
    }

    constructor (z: Codec<C>, inner: Writer, level: nat)
      requires Proper(z)
      ensures Valid() && this.z == z && this.inner == inner && fresh(out)
      ensures stream == Stream(z.start(level), inner.taken, []) && !done
    {
      this.z, this.inner, compressor := z, inner, z.start(level);
      out := new byte[CHUNK];
      sent, filled, syncing, flushed, done := 0, 0, false, true, false;
      stream := Stream(z.start(level), inner.taken, []);
    }

    /** A new stream: the bytes that the sink still holds are dropped. */
    method Reset(inner: Writer, level: nat) returns (previous: Writer)
      requires Valid()
      modifies this
      ensures Valid() && this.inner == inner && previous == old(this.inner)
      ensures stream == Stream(z.start(level), inner.taken, []) && !done
    {
      previous := this.inner;
      compressor := z.start(level);
      sent, filled, syncing, flushed, done := 0, 0, false, true, false;
      this.inner := inner;
      stream := Stream(z.start(level), inner.taken, []);
    }

    /** One write to the inner writer. */
    method Push() returns (r: Poll<()>)
      requires Valid() && sent < filled
      modifies this`sent, inner
      ensures Valid() && |inner.script| <= old(|inner.script|)
      ensures old(inner.script) != [] || r.Ready? ==> |inner.script| < old(|inner.script|)
    {
      var held := out[sent..filled];
      ghost var before := inner.taken;
      var n := inner.PollWrite(held);
      match n
      case Pending => return Pending;
      case Error => return Error;
      case Ready(k) =>
        if k == 0 {
          return Error;
        }
        sent := sent + k;
        DrainStep(before, held, k, out[sent..filled], stream.base + stream.Traced(z).output);
        return Ready(());
    }

    method PollDrain() returns (r: Poll<()>)
      requires Valid()
      modifies this`sent, this`filled, inner
      ensures Valid() && (r.Ready? ==> sent == filled == 0)
      ensures |inner.script| <= old(|inner.script|)
      ensures (r.Pending? && old(inner.script) != []) || (r.Ready? && old(sent < filled))
              ==> |inner.script| < old(|inner.script|)
    {
      while sent < filled
        invariant Valid() && |inner.script| <= old(|inner.script|)
        invariant |inner.script| == old(|inner.script|) ==> sent == old(sent) && filled == old(filled)
        decreases |inner.script|
      {
        r := Push();
        if !r.Ready? {
          return;
        }
      }
      sent, filled := 0, 0;
      return Ready(());
    }

    /** Runs the compressor once, into an empty output buffer. */
    method Compress(input: Blob, mode: Mode) returns (r: Poll<(nat, nat, bool)>)
      requires Valid() && sent == filled == 0
      modifies this`compressor, this`filled, this`stream, out
      ensures Flowing() && stream == old(stream).With(Call(input, mode))
      ensures r == StepResult(z.step(old(compressor), input, mode))
      ensures compressor == z.step(old(compressor), input, mode).state
      ensures filled == if r.Ready? then r.value.1 else 0
    {
      RunSnoc(z, stream.init, stream.log, Call(input, mode));
      OutputGrows(inner.taken, stream.base, stream.Traced(z).output, z.step(compressor, input, mode).out);
      stream := stream.With(Call(input, mode));
      compressor, r := RunStep(z, compressor, input, mode, out);
      if r.Ready? {
        filled := r.value.1;
      }
    }

    method PollStep(input: Blob, mode: Mode) returns (r: Poll<(nat, nat, bool)>, ghost ran: bool)
      requires Valid()
      modifies this`sent, this`compressor, this`filled, this`stream, inner, out
      ensures Flowing() && |inner.script| <= old(|inner.script|)
      ensures (r.Pending? && old(inner.script) != []) || (r.Ready? && old(sent < filled))
              ==> |inner.script| < old(|inner.script|)
      ensures !ran ==> !r.Ready? && stream == old(stream) && compressor == old(compressor)
      ensures ran ==>
              && stream == old(stream).With(Call(input, mode))
              && compressor == z.step(old(compressor), input, mode).state
              && r == StepResult(z.step(old(compressor), input, mode))
      ensures r.Ready? ==> sent == 0 && filled == r.value.1
    {
      var d := PollDrain();
      match d
      case Pending => return Pending, false;
      case Error => return Error, false;
      case Ready(_) =>
        ran := true;
        r := Compress(input, mode);
    }

    ghost predicate Encodes(feed: Feed<C>, todo: seq<Blob>)
      reads this
    {
      Follows(z, feed, stream.log, Feed(compressor, todo, done))
    }

    /** One step over the bytes of the caller. It opens the block, and abandons a flush that was under way. */
    method WriteStep(buf: Blob) returns (r: Poll<(nat, nat, bool)>, ghost ran: bool)
      requires Valid() && buf != []
      modifies this`sent, this`filled, this`compressor, this`stream, this`flushed, this`syncing, inner, out
      ensures Valid() && |inner.script| <= old(|inner.script|)
      ensures (r.Pending? && old(inner.script) != []) || (r.Ready? && old(sent < filled))
              ==> |inner.script| < old(|inner.script|)
      ensures !ran ==> !r.Ready? && stream == old(stream) && compressor == old(compressor)
      ensures ran ==>
              && stream == old(stream).With(Call(buf, Plain))
              && compressor == z.step(old(compressor), buf, Plain).state
              && r == StepResult(z.step(old(compressor), buf, Plain))
      ensures r.Ready? ==> !flushed && !syncing && sent == 0 && filled == r.value.1
    {
      WriteOpens(z, stream, buf, compressor, syncing, flushed);
      r, ran := PollStep(buf, Plain);
      if r.Ready? {
        flushed := false;
        syncing := false;
      }
    }

    /** The same step for a caller that encodes `buf` and then `tail`. */
    method FeedStep(buf: Blob, ghost feed: Feed<C>, ghost tail: seq<Blob>) returns (r: Poll<(nat, nat, bool)>)
      requires Valid() && buf != []
      modifies this`sent, this`filled, this`compressor, this`stream, this`flushed, this`syncing, inner, out
      ensures Valid() && stream.Continues(old(stream)) && |inner.script| <= old(|inner.script|)
      ensures (r.Pending? && old(inner.script) != []) || (r.Ready? && old(sent < filled))
              ==> |inner.script| < old(|inner.script|)
      ensures r.Ready? ==> r.value.0 <= |buf| && !flushed && !syncing && sent == 0 && filled == r.value.1
      ensures old(Encodes(feed, [buf] + tail)) && !done ==>
              Encodes(feed, if r.Ready? then Left([buf] + tail, r.value.0) else [buf] + tail)
    {
      if Encodes(feed, [buf] + tail) && !done {
        WriteFollows(z, feed, stream, compressor, buf, tail, done);
      }
      ghost var ran;
      r, ran := WriteStep(buf);
    }

    /**
     Takes the first bytes of `buf`. A caller that encodes `buf` and then `tail`
     keeps to the calls of that list.
     */
    method PollWrite(buf: Blob, ghost feed: Feed<C>, ghost tail: seq<Blob>) returns (r: Poll<nat>)
      requires Valid()
      modifies this`sent, this`filled, this`compressor, this`stream, this`flushed, this`syncing, inner, out
      ensures Valid() && stream.Continues(old(stream)) && |inner.script| <= old(|inner.script|)
      ensures r.Pending? && old(inner.script) != [] ==> |inner.script| < old(|inner.script|)
      ensures r.Ready? ==> r.value <= |buf| && (r.value == 0 <==> buf == [])
      ensures r.Ready? && buf != [] ==> !flushed && !syncing
      ensures old(Encodes(feed, [buf] + tail)) && !done && buf != [] ==>
              Encodes(feed, if r.Ready? then Left([buf] + tail, r.value) else [buf] + tail)
    {
      if buf == [] {
        return Ready(0);
      }
      while true
        invariant Valid() && stream.Continues(old(stream)) && |inner.script| <= old(|inner.script|)
        invariant old(Encodes(feed, [buf] + tail)) && !done ==> Encodes(feed, [buf] + tail)
        decreases |inner.script|, if sent < filled then 0 else 1
      {
        var step := FeedStep(buf, feed, tail);
        match step
        case Pending => return Pending;
        case Error => return Error;
        case Ready((taken, produced, _)) =>
          if taken > 0 {
            return Ready(taken);
          }
          if produced == 0 {
            return Error;
          }
          assert Left([buf] + tail, 0) == [buf] + tail;
      }
    }

    method FlushStep() returns (r: Poll<(nat, nat, bool)>)
      requires Valid() && !flushed
      modifies this`sent, this`filled, this`compressor, this`stream, this`flushed, this`syncing, inner, out
      ensures Valid() && stream.Continues(old(stream)) && |inner.script| <= old(|inner.script|)
      ensures (r.Pending? && old(inner.script) != []) || (r.Ready? && old(sent < filled))
              ==> |inner.script| < old(|inner.script|)
      ensures r.Ready? ==> flushed == (r.value.1 == 0) && sent == 0 && filled == r.value.1
      ensures stream.log == old(stream.log) ||
              stream.log == old(stream.log) + [Call([], if old(syncing) then Plain else Sync)]
    {
      var mode := if syncing then Plain else Sync;
      FlushSyncs(z, stream, compressor, syncing, mode);
      ghost var ran;
      r, ran := PollStep([], mode);
      if r.Ready? {
        syncing := true;
        if r.value.1 == 0 {
          flushed := true;
          syncing := false;
        }
      }
    }

    /**
     Ends the block, and flushes the inner writer. When it is ready the inner
     writer has the whole output, and the last block has its one sync step.
     */
    method PollFlush() returns (r: Poll<()>)
      requires Valid()
      modifies this`sent, this`filled, this`compressor, this`stream, this`flushed, this`syncing, inner, out
      ensures Valid() && stream.Continues(old(stream))
      ensures old(flushed) ==> stream == old(stream)
      ensures r.Ready? ==>
              && flushed && inner.taken == stream.base + stream.Traced(z).output
              && stream.Traced(z).syncs == (if stream.Traced(z).wrote then 1 else 0)
    {
      while !flushed
        invariant Valid() && stream.Continues(old(stream)) && (old(flushed) ==> flushed && stream == old(stream))
        decreases !flushed, |inner.script|, if sent < filled then 0 else 1
      {
        var step := FlushStep();
        match step
        case Pending => return Pending;
        case Error => return Error;
        case Ready(_) =>
      }
      r := PollDrain();
      if r.Ready? {
        assert inner.taken + out[0..0] == inner.taken;
        r := inner.PollFlush();
      }
    }

    /** One finish step. */
    method EndStep(ghost feed: Feed<C>) returns (r: Poll<(nat, nat, bool)>)
      requires Valid() && !done
      modifies this`sent, this`filled, this`compressor, this`stream, this`done, inner, out
      ensures Valid() && stream.Continues(old(stream)) && |inner.script| <= old(|inner.script|)
      ensures (r.Pending? && old(inner.script) != []) || (r.Ready? && old(sent < filled))
              ==> |inner.script| < old(|inner.script|)
      ensures r.Ready? ==> done == r.value.2 && sent == 0 && filled == r.value.1
      ensures r.Ready? ==>
                r == StepResult(z.step(old(compressor), [], Finish)) && compressor == AfterFinish(z, old(compressor))
      ensures !r.Ready? ==> !done
      ensures r.Pending? ==> compressor == old(compressor)
      ensures old(Encodes(feed, [])) ==> Encodes(feed, [])
    {
      FinishKeeps(z, stream, syncing, flushed);
      if Encodes(feed, []) {
        FinishFollows(z, feed, stream, compressor);
      }
      ghost var ran;
      r, ran := PollStep([], Finish);
      if r.Ready? {
        done := r.value.2;
      }
    }

    /** One turn of the close loop. Over silent steps the number of silent steps to come goes down. */
    method CloseStep(ghost feed: Feed<C>, ghost n: nat) returns (r: Poll<(nat, nat, bool)>, ghost left: nat)
      requires Valid() && !done && CanClose(z, compressor) && !SilentFor(z, compressor, n)
      modifies this`sent, this`filled, this`compressor, this`stream, this`done, inner, out
      ensures Valid() && stream.Continues(old(stream)) && |inner.script| <= old(|inner.script|)
      ensures (r.Pending? && old(inner.script) != []) || (r.Ready? && old(sent < filled))
              ==> |inner.script| < old(|inner.script|)
      ensures r.Ready? ==> done == r.value.2 && sent == 0 && filled == r.value.1
      ensures r.Ready? && !done ==>
              CanClose(z, compressor) && !SilentFor(z, compressor, left) && (r.value.1 == 0 ==> left < n)
      ensures !r.Ready? ==> !done
      ensures r.Pending? ==> compressor == old(compressor)
      ensures old(Encodes(feed, [])) ==> Encodes(feed, [])
    {
      left := n;
      if z.step(compressor, [], Finish).status.Going? {
        left := NextWake(z, compressor, n);
      }
      r := EndStep(feed);
    }

    /**
     Ends the stream. When it is ready the inner writer has the whole output.
     By `CloseReturns` the loop returns for every writer exactly if it starts
     done or from a compressor that can close.
     */
    method PollClose(ghost feed: Feed<C>) returns (r: Poll<()>)
      requires Valid() && (done || CanClose(z, compressor))
      modifies this`sent, this`filled, this`compressor, this`stream, this`done, inner, out
      ensures Valid() && stream.Continues(old(stream)) && |inner.script| <= old(|inner.script|)
      ensures r.Pending? && old(inner.script) != [] ==> |inner.script| < old(|inner.script|)
      ensures r.Ready? ==> done && sent == filled && inner.taken == stream.base + stream.Traced(z).output
      ensures r.Pending? ==> done || CanClose(z, compressor)
      ensures old(Encodes(feed, [])) ==> Encodes(feed, [])
    {
      ghost var n: nat := 0;
      if !done {
        WakesNow(z, compressor);
        n :| !SilentFor(z, compressor, n);
      }
      while !done
        invariant Valid() && stream.Continues(old(stream))
        invariant done || (CanClose(z, compressor) && !SilentFor(z, compressor, n))
        invariant |inner.script| <= old(|inner.script|)
        invariant old(Encodes(feed, [])) ==> Encodes(feed, [])
        decreases !done, |inner.script|, if sent < filled then 0 else 1, n
      {
        var step;
        step, n := CloseStep(feed, n);
        match step
        case Pending => return Pending;
        case Error => return Error;
        case Ready(_) =>
      }
      r := PollDrain();
      if r.Ready? {
        assert inner.taken + out[0..0] == inner.taken;
        r := inner.PollFlush();
      }
    }
  }

  // --- A caller of the sink ----------------------------------------------------------

  function Bytewise(todo: seq<Blob>): nat {
    if todo == [] then 0 else |todo[0]| + Bytewise(todo[1..])
  }

  predicate NoneEmpty(todo: seq<Blob>) {
    forall i :: 0 <= i < |todo| ==> todo[i] != []
  }

  lemma {:induction false} BytewiseLeft(todo: seq<Blob>, n: nat)
    requires NoneEmpty(todo) && todo != [] && 0 < n <= |todo[0]|
    ensures Bytewise(Left(todo, n)) < Bytewise(todo) && NoneEmpty(Left(todo, n))
  {
    if n < |todo[0]| {
      assert Left(todo, n)[1..] == todo[1..];
    }
  }

  /** Writes every chunk, polling again after each wait for as long as the script goes on. */
  method WriteChunks<C(!new)>(sink: DeflateSink<C>, chunks: seq<Blob>) returns (r: Poll<()>)
    requires sink.Valid() && sink.stream.log == [] && !sink.done
    requires NoneEmpty(chunks)
    modifies sink, sink.inner, sink.out
    ensures sink.Valid() && sink.inner == old(sink.inner) && !sink.done
    ensures sink.stream.Continues(old(sink.stream))
    ensures r.Ready? ==> sink.Encodes(Feed(sink.stream.init, chunks, false), [])
  {
    ghost var feed := Feed(sink.stream.init, chunks, false);
    var todo := chunks;
    while todo != []
      invariant sink.Valid() && !sink.done && sink.inner == old(sink.inner)
      invariant sink.stream.Continues(old(sink.stream)) && sink.Encodes(feed, todo) && NoneEmpty(todo)
      decreases |sink.inner.script| + Bytewise(todo)
    {
      var n := WriteSome(sink, todo, feed);
      match n
      case Error => return Error;
      case Pending =>
        if sink.inner.script == [] {
          return Pending;
        }
      case Ready(left) => todo := left;
    }
    return Ready(());
  }

  method WriteSome<C(!new)>(sink: DeflateSink<C>, todo: seq<Blob>, ghost feed: Feed<C>) returns (r: Poll<seq<Blob>>)
    requires sink.Valid() && !sink.done && todo != [] && NoneEmpty(todo)
    requires sink.Encodes(feed, todo)
    modifies sink, sink.inner, sink.out
    ensures sink.Valid() && !sink.done && sink.inner == old(sink.inner) && sink.stream.Continues(old(sink.stream))
    ensures |sink.inner.script| <= old(|sink.inner.script|)
    ensures r.Pending? ==> sink.inner.script == [] || |sink.inner.script| < old(|sink.inner.script|)
    ensures r.Ready? ==> NoneEmpty(r.value) && Bytewise(r.value) < Bytewise(todo)
    ensures sink.Encodes(feed, if r.Ready? then r.value else todo)
  {
    assert todo == [todo[0]] + todo[1..];
    var n := sink.PollWrite(todo[0], feed, todo[1..]);
    match n
    case Error => return Error;
    case Pending => return Pending;
    case Ready(k) =>
      BytewiseLeft(todo, k);
      return Ready(Left(todo, k));
  }

  /** Once every chunk of the feed is taken, the compressor can close. */
  ghost predicate CanEnd<C(!new)>(z: Codec<C>, f: Feed<C>) {
    forall n: nat :: After(z, f, n).todo == [] && !After(z, f, n).finished ==> CanClose(z, After(z, f, n).state)
  }

  /** Writes every chunk and closes the sink. */
  method WriteAll<C(!new)>(sink: DeflateSink<C>, chunks: seq<Blob>) returns (r: Poll<()>)
    requires sink.Valid() && sink.stream.log == [] && !sink.done
    requires NoneEmpty(chunks) && CanEnd(sink.z, Feed(sink.stream.init, chunks, false))
    modifies sink, sink.inner, sink.out
    ensures sink.Valid() && sink.inner == old(sink.inner) && sink.stream.Continues(old(sink.stream))
    ensures r.Ready? ==>
            && sink.done && sink.sent == sink.filled
            && sink.inner.taken == sink.stream.base + sink.stream.Traced(sink.z).output
            && sink.Encodes(Feed(sink.stream.init, chunks, false), [])
  {
    r := WriteChunks(sink, chunks);
    if !r.Ready? {
      return;
    }
    ghost var feed := Feed(sink.stream.init, chunks, false);
    while true
      invariant sink.Valid() && sink.inner == old(sink.inner)
      invariant sink.stream.Continues(old(sink.stream)) && sink.Encodes(feed, [])
      invariant sink.done || CanClose(sink.z, sink.compressor)
      decreases |sink.inner.script|
    {
      r := sink.PollClose(feed);
      if !r.Pending? || sink.inner.script == [] {
        return;
      }
    }
  }

  // --- The reader ----------------------------------------------------------------------

  /** The stream since the last start: its first state, the chunks it read, its calls, and what its caller got. */
  datatype Book<C(!new)> = Book(init: C, given: seq<Blob>, log: seq<Call>, delivered: Blob) {
    ghost function Traced(z: Codec<C>): Trace<C> { Run(z, init, log) }

    ghost function Start(): Feed<C> { Feed(init, given, false) }

    ghost function With(call: Call): Book<C> { Book(init, given, log + [call], delivered) }

    /** The same stream, further on, with nothing more delivered. */
    ghost predicate Continues(b: Book<C>) {
      init == b.init && b.given <= given && b.log <= log && delivered == b.delivered
    }
  }

  function Held(rest: Blob): seq<Blob> {
    if rest == [] then [] else [rest]
  }

  /** The reader made the calls that encode the chunks it read, and holds `rest` of the last one. */
  ghost predicate OnCourse<C(!new)>(z: Codec<C>, book: Book<C>, compressor: C, rest: Blob, eof: bool, done: bool) {
    && NoneEmpty(book.given)
    && Follows(z, book.Start(), book.log, Feed(compressor, Held(rest), done))
    && (!eof ==> !done && Feeding(z, book.Start(), |book.log|))
    && (eof && done ==> rest == [])
  }

  lemma {:induction false} PlainOnCourse<C(!new)>(z: Codec<C>, book: Book<C>, c: C, rest: Blob, left: Blob, eof: bool)
    requires OnCourse(z, book, c, rest, eof, false) && rest != []
    requires var s := z.step(c, rest, Plain);
             s.taken <= |rest| && left == if s.status.Failed? then rest else rest[s.taken..]
    ensures OnCourse(z, book.With(Call(rest, Plain)), z.step(c, rest, Plain).state, left, eof, false)
  {
    var call := Call(rest, Plain);
    FollowsStep(z, book.Start(), book.log, Feed(c, Held(rest), false), book.With(call).log);
    if !eof {
      FeedingStep(z, book.Start(), book.log, Feed(c, Held(rest), false), book.With(call).log);
    }
  }

  lemma {:induction false} FinishOnCourse<C(!new)>(z: Codec<C>, book: Book<C>, c: C)
    requires OnCourse(z, book, c, [], true, false)
    ensures var s := z.step(c, [], Finish);
            OnCourse(z, book.With(Call([], Finish)), s.state, [], true, s.status.Ended?)
  {
    FollowsStep(z, book.Start(), book.log, Feed(c, [], false), book.With(Call([], Finish)).log);
  }

  lemma {:induction false} ChunkOnCourse<C(!new)>(z: Codec<C>, book: Book<C>, c: C, b: Blob)
    requires OnCourse(z, book, c, [], false, false) && b != []
    ensures OnCourse(z, book.(given := book.given + [b]), c, b, false, false)
  {
    var next := book.(given := book.given + [b]);
    MoreChunks(z, book.Start(), next.Start(), b, |book.log|);
    assert [] + [b] == Held(b);
  }

  class DeflateReader<C(!new)> {
    const z: Codec<C>
    var source: Source
    var compressor: C
    const input: array<byte>
    var pos: nat
    var len: nat
    const out: array<byte>
    var outPos: nat
    var outLen: nat
    var eof: bool
    var done: bool
    ghost var book: Book<C>

    ghost predicate Sized()
      reads this
    {
      && input != out && input.Length == out.Length == CHUNK
      && pos <= len <= CHUNK && outPos <= outLen <= CHUNK
    }

    ghost predicate Valid()
      reads this, source, input, out
    {
      && Proper(z) && Sized() && source.Valid()
      && Conserved(book.Traced(z), compressor, [], book.delivered, out[outPos..outLen])
      && OnCourse(z, book, compressor, input[pos..len], eof, done)
    }

    constructor (z: Codec<C>, source: Source, level: nat)
      requires Proper(z) && source.Valid()
      ensures Valid() && this.z == z && this.source == source && fresh(input) && fresh(out)
      ensures book == Book(z.start(level), [], [], []) && !done && !eof
    {
      this.z, this.source, compressor := z, source, z.start(level);
      input := new byte[CHUNK];
      out := new byte[CHUNK];
      pos, len, outPos, outLen, eof, done := 0, 0, 0, 0, false, false;
      book := Book(z.start(level), [], [], []);
    }

    method Reset(source: Source, level: nat) returns (previous: Source)
      requires Valid() && source.Valid()
      modifies this
      ensures Valid() && this.source == source && previous == old(this.source)
      ensures book == Book(z.start(level), [], [], []) && !done && !eof
    {
      previous := this.source;
      compressor := z.start(level);
      pos, len, outPos, outLen, eof, done := 0, 0, 0, 0, false, false;
      this.source := source;
      book := Book(z.start(level), [], [], []);
    }

    /** One step of the compressor into the empty output buffer. */
    method Step(bytes: Blob, mode: Mode) returns (r: Poll<(nat, nat, bool)>)
      requires Proper(z) && Sized() && outPos == outLen == 0
      requires Conserved(book.Traced(z), compressor, [], book.delivered, [])
      modifies this`compressor, this`outLen, this`book, out
      ensures Sized() && book == old(book).With(Call(bytes, mode))
      ensures compressor == z.step(old(compressor), bytes, mode).state
      ensures r == StepResult(z.step(old(compressor), bytes, mode))
      ensures outLen == if r.Ready? then r.value.1 else 0
      ensures Conserved(book.Traced(z), compressor, [], book.delivered, out[0..outLen])
    {
      RunSnoc(z, book.init, book.log, Call(bytes, mode));
      OutputGrows(book.delivered, [], book.Traced(z).output, z.step(compressor, bytes, mode).out);
      book := book.With(Call(bytes, mode));
      compressor, r := RunStep(z, compressor, bytes, mode, out);
      if r.Ready? {
        outLen := r.value.1;
      }
    }

    /** One step over the bytes that the reader holds. */
    method FeedStep(rest: Blob) returns (r: Poll<(nat, nat, bool)>)
      requires Valid() && !done && rest == input[pos..len] != [] && outPos == outLen == 0
      modifies this`compressor, this`outLen, this`book, out
      ensures Sized() && book == old(book).With(Call(rest, Plain)) && outLen == if r.Ready? then r.value.1 else 0
      ensures Conserved(book.Traced(z), compressor, [], book.delivered, out[0..outLen])
      ensures r == StepResult(z.step(old(compressor), rest, Plain)) && (r.Ready? ==> r.value.0 <= |rest|)
      ensures OnCourse(z, book, compressor, rest[if r.Ready? then r.value.0 else 0..], eof, done)
    {
      ghost var s := z.step(compressor, rest, Plain);
      assert rest[0..] == rest;
      PlainOnCourse(z, book, compressor, rest, if s.status.Failed? then rest else rest[s.taken..], eof);
      assert out[0..0] == [];
      r := Step(rest, Plain);
    }

    /** The cursor moves past the bytes that the compressor took. */
    method Settle(taken: nat, ghost rest: Blob)
      requires Proper(z) && Sized() && source.Valid() && rest == input[pos..len] && taken <= |rest|
      requires Conserved(book.Traced(z), compressor, [], book.delivered, out[outPos..outLen])
      requires OnCourse(z, book, compressor, rest[taken..], eof, done)
      modifies this`pos
      ensures Valid() && pos == old(pos) + taken
    {
      pos := pos + taken;
      assert input[pos..len] == rest[taken..];
    }

    method Feed() returns (r: Poll<()>)
      requires Valid() && !done && pos < len && outPos == outLen == 0
      modifies this`compressor, this`pos, this`outLen, this`book, out
      ensures Valid() && book.Continues(old(book)) && !r.Pending?
      ensures r.Ready? ==> len - pos < old(len - pos) || (pos == old(pos) && outLen > 0)
      ensures r.Error? ==>
              var s := z.step(old(compressor), old(input[pos..len]), Plain);
              s.status.Failed? || (s.taken == 0 && s.out == [])
    {
      var rest := input[pos..len];
      var step := FeedStep(rest);
      Settle(if step.Ready? then step.value.0 else 0, rest);
      match step
      case Error => return Error;
      case Ready((taken, written, _)) => return if taken == 0 && written == 0 then Error else Ready(());
    }

    method End() returns (r: Poll<()>)
      requires Valid() && !done && pos == len && eof && outPos == outLen == 0
      modifies this`compressor, this`done, this`outLen, this`book, out
      ensures Valid() && book.Continues(old(book)) && !r.Pending?
      ensures r.Ready? ==> done || outLen > 0
      ensures r.Error? ==> Silent(z, old(compressor)) || z.step(old(compressor), [], Finish).status.Failed?
    {
      assert input[pos..len] == [];
      assert out[0..0] == [];
      FinishOnCourse(z, book, compressor);
      var step := Step([], Finish);
      match step
      case Error => return Error;
      case Ready((_, written, end)) =>
        done := end;
        return if !end && written == 0 then Error else Ready(());
    }

    /** Copies a chunk of the source into the input buffer. */
    method Hold(b: Blob)
      requires Sized() && |b| <= CHUNK
      modifies this`pos, this`len, input
      ensures Sized() && input[pos..len] == b
    {
      forall i | 0 <= i < |b| {
        input[i] := b[i];
      }
      pos, len := 0, |b|;
    }

    /** A chunk that the source gave. */
    method Accept(b: Blob)
      requires Valid() && !done && pos == len && !eof && outPos == outLen == 0 && b != [] && |b| <= CHUNK
      modifies this`pos, this`len, this`book, input
      ensures Valid() && book == old(book).(given := old(book.given) + [b])
    {
      assert input[pos..len] == [];
      ChunkOnCourse(z, book, compressor, b);
      Hold(b);
      book := book.(given := book.given + [b]);
    }

    method Load() returns (r: Poll<()>)
      requires Valid() && !done && pos == len && !eof && outPos == outLen == 0
      modifies this`pos, this`len, this`eof, this`book, source, input
      ensures Valid() && book.Continues(old(book))
      ensures old(source.script) == [] ==> r.Pending?
      ensures source.script == if old(source.script) == [] then [] else old(source.script)[1..]
      ensures !r.Ready? ==> book == old(book)
    {
      assert input[pos..len] == [];
      var chunk := source.PollRead();
      match chunk
      case Pending => return Pending;
      case Error => return Error;
      case Ready(b) =>
        if b == [] {
          eof := true;
        } else {
          Accept(b);
        }
        return Ready(());
    }

    method Clear()
      requires Valid() && outPos == outLen
      modifies this`outPos, this`outLen
      ensures Valid() && outPos == outLen == 0
    {
      assert out[outPos..outLen] == [] == out[0..0];
      outPos, outLen := 0, 0;
    }

    /** One turn of the fill loop. */
    method Turn() returns (r: Poll<()>)
      requires Valid() && outPos == outLen && !done
      modifies this`compressor, this`pos, this`len, this`outPos, this`outLen, this`eof, this`done, this`book,
               source, input, out
      ensures Valid() && book.Continues(old(book))
      ensures r.Ready? ==>
              || |source.script| < old(|source.script|)
              || (|source.script| == old(|source.script|)
                  && (len - pos < old(len - pos) || (len - pos == old(len - pos) && (outPos < outLen || done))))
    {
      Clear();
      if pos < len {
        r := Feed();
      } else if !eof {
        r := Load();
      } else {
        r := End();
      }
    }

    /** Runs the encoder until the output buffer holds unread bytes or the stream ends. */
    method Fill() returns (r: Poll<()>)
      requires Valid()
      modifies this`compressor, this`pos, this`len, this`outPos, this`outLen, this`eof, this`done, this`book,
               source, input, out
      ensures Valid() && book.Continues(old(book))
      ensures r.Ready? ==> outPos < outLen || done
    {
      while !(outPos < outLen || done)
        invariant Valid() && book.Continues(old(book))
        decreases |source.script|, len - pos, if outPos < outLen || done then 0 else 1
      {
        r := Turn();
        if !r.Ready? {
          return;
        }
      }
      return Ready(());
    }

    /** Hands out the next bytes of the output buffer. */
    method Take(n: nat) returns (bytes: Blob)
      requires Valid() && n <= outLen - outPos
      modifies this`outPos, this`book
      ensures Valid() && |bytes| == n && bytes == old(out[outPos..outLen])[..n]
      ensures book == old(book).(delivered := old(book.delivered) + bytes)
    {
      var held := out[outPos..outLen];
      bytes := out[outPos..outPos + n];
      assert bytes == held[..n];
      DrainStep(book.delivered, held, n, held[n..], [] + book.Traced(z).output);
      outPos := outPos + n;
      assert out[outPos..outLen] == held[n..];
      book := book.(delivered := book.delivered + bytes);
    }

    /** Skips bytes that the caller took from the output buffer. */
    method Consume(amount: nat)
      requires Valid()
      modifies this`outPos, this`book
      ensures Valid() && old(book.delivered) <= book.delivered && book.log == old(book.log)
      ensures |book.delivered| ==
              old(|book.delivered|) + (if amount < old(outLen - outPos) then amount else old(outLen - outPos))
    {
      var _ := Take(if amount < outLen - outPos then amount else outLen - outPos);
    }

    /** Reads up to `size` bytes. It gives none exactly at the end of the stream, when all output was delivered. */
    method PollRead(size: nat) returns (r: Poll<Blob>)
      requires Valid()
      modifies this`compressor, this`pos, this`len, this`outPos, this`outLen, this`eof, this`done, this`book,
               source, input, out
      ensures Valid()
      ensures book.delivered == if r.Ready? then old(book.delivered) + r.value else old(book.delivered)
      ensures r.Ready? ==> |r.value| <= size
      ensures r.Ready? && size > 0 && r.value == [] ==> done && book.delivered == book.Traced(z).output
    {
      if size == 0 {
        assert book.delivered + [] == book.delivered;
        return Ready([]);
      }
      var f := Fill();
      match f
      case Pending => return Pending;
      case Error => return Error;
      case Ready(_) =>
        var bytes := Take(if size < outLen - outPos then size else outLen - outPos);
        if bytes == [] {
          AllDelivered(book.delivered, out[outPos..outLen], book.Traced(z).output);
        }
        return Ready(bytes);
    }
  }

  lemma {:induction false} AllDelivered(delivered: Blob, held: Blob, whole: Blob)
    requires held == [] && delivered + held == [] + whole
    ensures delivered == whole
  {
    assert delivered + held == delivered && [] + whole == whole;
  }

  /** A sink that was written the chunks of a reader, and closed, made its calls and gave its bytes. */
  lemma {:induction false} SinkIsReader<C(!new)>(sink: DeflateSink<C>, reader: DeflateReader<C>)
    requires sink.Valid() && reader.Valid() && sink.z == reader.z && sink.stream.init == reader.book.init
    requires sink.done && sink.Encodes(Feed(sink.stream.init, reader.book.given, false), [])
    requires reader.done && reader.outPos == reader.outLen && sink.sent == sink.filled
    ensures sink.stream.log == reader.book.log
    ensures sink.inner.taken == sink.stream.base + reader.book.delivered
  {
    SameCalls(sink.z, reader.book.Start(), sink.stream.log, reader.book.log,
              Feed(sink.compressor, [], true),
              Feed(reader.compressor, Held(reader.input[reader.pos..reader.len]), true));
    AllDelivered(reader.book.delivered, reader.out[reader.outPos..reader.outLen], reader.book.Traced(reader.z).output);
    assert sink.inner.taken + sink.out[sink.sent..sink.filled] == sink.inner.taken;
  }
}
