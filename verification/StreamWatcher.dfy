/** The stream watcher as a step system: the receiver goroutine, callers of Error and Done, and
    cancellation from outside, under a read-write lock (api/client/streamwatcher.go). */
module StreamWatcher {
  import opened Options

  type Event = int
  type Error = string

  /** What the server sends: an event, or something that does not convert to one. */
  datatype Msg = Good(event: Event) | Bad(err: Error)

  /** What `Error()` returns. */
  datatype Answer = NoError | ContextError | Received(err: Error)

  datatype Receiver =
    | Receiving
    | Offering(event: Event)   // at the select on eventsC
    | Failing(err: Error)      // about to take the lock in closeWithError
    | Locked(err: Error)
    | Cancelled(err: Error)    // w.Close() done, lock held
    | Recorded(err: Error)     // w.err set, lock held
    | Stopped
  {
    predicate HoldsLock() { Locked? || Cancelled? || Recorded? }
  }

  /** A caller of `Error()`; `saw` says that it had seen Done closed before it called. */
  datatype Reader =
    | Idle
    | Reading(saw: bool)       // read lock held
    | CheckingContext(saw: bool)
    | Answered(saw: bool, answer: Answer)

  datatype Reply = Reply(reader: nat, saw: bool, answer: Answer)

  /** `claimed` records the error of a receiver that took the lock before any cancellation. */
  datatype State = State(
    ctxDone: bool,
    err: Option<Error>,
    next: nat,
    delivered: seq<Event>,
    receiver: Receiver,
    readers: seq<Reader>,
    sawDone: seq<bool>,
    replies: seq<Reply>,
    claimed: Option<Error>)

  datatype Step =
    | RecvMsg | RecvErr(err: Error) | Deliver | StopOnDone
    | Lock | Cancel | SetErr | Unlock
    | OutsideCancel
    | SeeDone(r: nat) | RLock(r: nat) | ReadErr(r: nat) | ReadContext(r: nat) | RUnlock(r: nat)

  /** The events of a stream up to the first message that does not convert. */
  function Events(stream: seq<Msg>): seq<Event> {
    if stream == [] || stream[0].Bad? then [] else [stream[0].event] + Events(stream[1..])
  }

  function Init(readers: nat): State {
    State(false, None, 0, [], Receiving, seq(readers, _ => Idle), seq(readers, _ => false), [], None)
  }

  predicate NoReaders(s: State) {
    forall r :: 0 <= r < |s.readers| ==> s.readers[r].Idle?
  }

  predicate Enabled(stream: seq<Msg>, s: State, step: Step) {
    match step
    case RecvMsg => s.receiver.Receiving? && s.next < |stream|
    case RecvErr(_) => s.receiver.Receiving?
    case Deliver => s.receiver.Offering?
    case StopOnDone => s.receiver.Offering? && s.ctxDone
    case Lock => s.receiver.Failing? && NoReaders(s)
    case Cancel => s.receiver.Locked?
    case SetErr => s.receiver.Cancelled?
    case Unlock => s.receiver.Recorded?
    case OutsideCancel => true
    case SeeDone(r) => r < |s.sawDone| && s.ctxDone
    case RLock(r) => r < |s.readers| == |s.sawDone| && s.readers[r].Idle? && !s.receiver.HoldsLock()
    case ReadErr(r) => r < |s.readers| && s.readers[r].Reading?
    case ReadContext(r) => r < |s.readers| && s.readers[r].CheckingContext?
    case RUnlock(r) => r < |s.readers| && s.readers[r].Answered?
  }

  function Next(stream: seq<Msg>, s: State, step: Step): State
    requires Enabled(stream, s, step)
  {
    match step
    case RecvMsg =>
      s.(next := s.next + 1,
         receiver := match stream[s.next] case Good(e) => Offering(e) case Bad(err) => Failing(err))
    case RecvErr(err) => s.(receiver := Failing(err))
    case Deliver => s.(delivered := s.delivered + [s.receiver.event], receiver := Receiving)
    case StopOnDone => s.(receiver := Stopped)
    case Lock => s.(receiver := Locked(s.receiver.err), claimed := if s.ctxDone then s.claimed else Some(s.receiver.err))
    case Cancel => s.(ctxDone := true, receiver := Cancelled(s.receiver.err))
    case SetErr => s.(err := Some(s.receiver.err), receiver := Recorded(s.receiver.err))
    case Unlock => s.(receiver := Stopped)
    case OutsideCancel => s.(ctxDone := true)
    case SeeDone(r) => s.(sawDone := s.sawDone[r := true])
    case RLock(r) => s.(readers := s.readers[r := Reading(s.sawDone[r])])
    case ReadErr(r) =>
      var saw := s.readers[r].saw;
      s.(readers := s.readers[r := if s.err.Some? then Answered(saw, Received(s.err.value)) else CheckingContext(saw)])
    case ReadContext(r) =>
      s.(readers := s.readers[r := Answered(s.readers[r].saw, if s.ctxDone then ContextError else NoError)])
    case RUnlock(r) =>
      s.(readers := s.readers[r := Idle], replies := s.replies + [Reply(r, s.readers[r].saw, s.readers[r].answer)])
  }

  ghost predicate Execution(stream: seq<Msg>, readers: nat, steps: seq<Step>, run: seq<State>) {
    && |run| == |steps| + 1
    && run[0] == Init(readers)
    && forall i :: 0 <= i < |steps| ==> Enabled(stream, run[i], steps[i]) && run[i + 1] == Next(stream, run[i], steps[i])
  }

  /** Whatever is ready can happen: a receive can fail at any time and an offered event be delivered even after a cancellation,
      anyone can cancel at any time, and the lock is given to readers while the receiver does not hold it and to
      the receiver while no reader does. */
  lemma ChoicesAreFree(stream: seq<Msg>, s: State)
    ensures Enabled(stream, s, OutsideCancel)
    ensures s.receiver.Receiving? ==> (forall err :: Enabled(stream, s, RecvErr(err))) && (s.next < |stream| ==> Enabled(stream, s, RecvMsg))
    ensures s.receiver.Offering? ==> Enabled(stream, s, Deliver) && (s.ctxDone ==> Enabled(stream, s, StopOnDone))
    ensures s.receiver.Failing? && (forall r :: 0 <= r < |s.readers| ==> s.readers[r] == Idle) ==> Enabled(stream, s, Lock)
    ensures forall r: nat :: r < |s.readers| == |s.sawDone| && s.readers[r] == Idle && !s.receiver.HoldsLock() ==> Enabled(stream, s, RLock(r))
    ensures forall r: nat :: r < |s.sawDone| ==> (Enabled(stream, s, SeeDone(r)) <==> s.ctxDone)
  {
  }

  // ---- events ----

  /** The messages taken so far were delivered, but for one that is on offer, went undelivered or
      did not convert. */
  ghost predicate InOrder(stream: seq<Msg>, s: State) {
    && s.next <= |stream|
    && match s.receiver
       case Receiving => s.delivered == Events(stream[..s.next]) && |s.delivered| == s.next
       case Offering(e) => s.delivered + [e] == Events(stream[..s.next]) && |s.delivered| + 1 == s.next
       case _ => s.delivered <= Events(stream)
  }

  /** The decoded stream: the events of the messages, in order, up to the first that does not convert. */
  lemma {:induction false} EventsMeans(stream: seq<Msg>)
    ensures |Events(stream)| <= |stream|
    ensures forall i :: 0 <= i < |Events(stream)| ==> stream[i] == Good(Events(stream)[i])
    ensures |Events(stream)| < |stream| ==> stream[|Events(stream)|].Bad?
  {
    if stream != [] && stream[0].Good? {
      EventsMeans(stream[1..]);
    }
  }

  lemma {:induction false} EventsPrefix(stream: seq<Msg>, n: nat)
    requires n <= |stream|
    ensures Events(stream[..n]) <= Events(stream)
  {
    if n > 0 && stream[0].Good? {
      EventsPrefix(stream[1..], n - 1);
      assert stream[..n][1..] == stream[1..][..n - 1];
    }
  }

  /** Reading one more good message after an unbroken run of them. */
  lemma {:induction false} EventsStep(stream: seq<Msg>, n: nat)
    requires n < |stream| && |Events(stream[..n])| == n && stream[n].Good?
    ensures Events(stream[..n + 1]) == Events(stream[..n]) + [stream[n].event]
  {
    if n == 0 {
      assert stream[..1][1..] == [];
      assert Events(stream[..1][1..]) == [];
    } else {
      assert stream[..n][1..] == stream[1..][..n - 1];
      assert stream[..n + 1][1..] == stream[1..][..n];
      EventsStep(stream[1..], n - 1);
    }
  }

  lemma InOrderStep(stream: seq<Msg>, s: State, step: Step)
    requires InOrder(stream, s) && Enabled(stream, s, step)
    ensures InOrder(stream, Next(stream, s, step))
  {
    EventsPrefix(stream, s.next);
    if step.RecvMsg? && stream[s.next].Good? {
      EventsStep(stream, s.next);
    }
  }

  // ---- errors ----

  ghost predicate ReaderOk(s: State, r: Reader) {
    match r
    case Idle => true
    case Reading(saw) => !s.receiver.HoldsLock() && (saw ==> s.ctxDone) && (s.claimed.Some? ==> s.err == s.claimed)
    case CheckingContext(saw) => !s.receiver.HoldsLock() && (saw ==> s.ctxDone) && s.err.None? && s.claimed.None?
    case Answered(saw, a) => !s.receiver.HoldsLock() && (saw ==> s.ctxDone) && AnswerOk(s, saw, a)
  }

  /** What an answer can be: an error for a caller that saw Done, and the claimed one if there is one. */
  ghost predicate AnswerOk(s: State, saw: bool, a: Answer) {
    && (saw ==> a != NoError)
    && (a.ContextError? ==> s.ctxDone)
    && (saw && s.claimed.Some? ==> a == Received(s.claimed.value))
    && (a.Received? ==> s.err == Some(a.err))
  }

  ghost predicate Locking(s: State) {
    && |s.readers| == |s.sawDone|
    && (s.receiver.Cancelled? || s.receiver.Recorded? || s.err.Some? ==> s.ctxDone)
    && (s.claimed.Some? ==>
          if s.receiver.HoldsLock() then s.receiver.err == s.claimed.value else s.receiver.Stopped? && s.err == s.claimed)
    && (s.receiver.Recorded? ==> s.err == Some(s.receiver.err))
    && (s.err.Some? ==> s.receiver.Recorded? || s.receiver.Stopped?)
  }

  ghost predicate Answers(s: State) {
    && (forall r :: 0 <= r < |s.sawDone| ==> s.sawDone[r] ==> s.ctxDone)
    && (forall r :: 0 <= r < |s.readers| ==> ReaderOk(s, s.readers[r]))
    && (forall i :: 0 <= i < |s.replies| ==> (s.replies[i].saw ==> s.ctxDone) && AnswerOk(s, s.replies[i].saw, s.replies[i].answer))
  }

  lemma LockingStep(stream: seq<Msg>, s: State, step: Step)
    requires Locking(s) && Answers(s) && Enabled(stream, s, step)
    ensures Locking(Next(stream, s, step))
  {
  }

  lemma AnswersStep(stream: seq<Msg>, s: State, step: Step)
    requires Locking(s) && Answers(s) && Enabled(stream, s, step)
    ensures Answers(Next(stream, s, step))
  {
    var t := Next(stream, s, step);
    forall r | 0 <= r < |t.readers|
      ensures ReaderOk(t, t.readers[r])
    {
      assert ReaderOk(s, s.readers[r]);
    }
    forall i | 0 <= i < |t.replies|
      ensures (t.replies[i].saw ==> t.ctxDone) && AnswerOk(t, t.replies[i].saw, t.replies[i].answer)
    {
      if i < |s.replies| {
        assert AnswerOk(s, s.replies[i].saw, s.replies[i].answer);
      } else {
        assert ReaderOk(s, s.readers[step.r]);
      }
    }
  }

  lemma {:induction false} RunInv(stream: seq<Msg>, readers: nat, steps: seq<Step>, run: seq<State>, i: nat)
    requires Execution(stream, readers, steps, run) && i <= |steps|
    ensures InOrder(stream, run[i]) && Locking(run[i]) && Answers(run[i])
  {
    if i == 0 {
      assert stream[..0] == [];
    } else {
      RunInv(stream, readers, steps, run, i - 1);
      InOrderStep(stream, run[i - 1], steps[i - 1]);
      LockingStep(stream, run[i - 1], steps[i - 1]);
      AnswersStep(stream, run[i - 1], steps[i - 1]);
    }
  }

  // ---- the theorems ----

  /** In every interleaving the events handed out are an in-order prefix of the decoded stream. */
  lemma DeliveredIsPrefix(stream: seq<Msg>, readers: nat, steps: seq<Step>, run: seq<State>)
    requires Execution(stream, readers, steps, run)
    ensures run[|steps|].delivered <= Events(stream)
  {
    RunInv(stream, readers, steps, run, |steps|);
    EventsPrefix(stream, run[|steps|].next);
  }

  /** In every interleaving a caller that had seen Done gets an error, and the receiver's own error if the
      receiver took the lock before any cancellation, even when it is still to be recorded. */
  lemma ErrorAfterDone(stream: seq<Msg>, readers: nat, steps: seq<Step>, run: seq<State>, i: nat)
    requires Execution(stream, readers, steps, run)
    requires i < |run[|steps|].replies| && run[|steps|].replies[i].saw
    ensures var s := run[|steps|];
            && s.replies[i].answer != NoError
            && (s.claimed.Some? ==> s.replies[i].answer == Received(s.claimed.value))
  {
    RunInv(stream, readers, steps, run, |steps|);
  }

  /** What any answer tells: the context error that the context is done, a receive error that the receiver recorded it; so before
      any cancellation a caller is told that there is no error. */
  lemma AnswersTell(stream: seq<Msg>, readers: nat, steps: seq<Step>, run: seq<State>, i: nat)
    requires Execution(stream, readers, steps, run) && i < |run[|steps|].replies|
    ensures var s := run[|steps|];
            var a := s.replies[i].answer;
            && (a == ContextError ==> s.ctxDone) && (a.Received? ==> s.err == Some(a.err) && s.ctxDone)
            && (!s.ctxDone ==> a == NoError)
  {
    RunInv(stream, readers, steps, run, |steps|);
  }

  /** An error that the stream or a receive gave. */
  ghost predicate CameFrom(stream: seq<Msg>, done: seq<Step>, err: Error) {
    RecvErr(err) in done || Bad(err) in stream
  }

  ghost predicate ErrorsCame(stream: seq<Msg>, s: State, done: seq<Step>) {
    && (s.receiver.Failing? || s.receiver.HoldsLock() ==> CameFrom(stream, done, s.receiver.err))
    && (s.err.Some? ==> CameFrom(stream, done, s.err.value))
  }

  lemma ErrorsCameStep(stream: seq<Msg>, s: State, step: Step, done: seq<Step>)
    requires ErrorsCame(stream, s, done) && Enabled(stream, s, step)
    ensures ErrorsCame(stream, Next(stream, s, step), done + [step])
  {
    assert forall x :: x in done + [step] <==> x in done || x == step;
    assert step.RecvMsg? ==> stream[s.next] in stream;
  }

  lemma {:induction false} ErrorsCameAlong(stream: seq<Msg>, readers: nat, steps: seq<Step>, run: seq<State>, i: nat)
    requires Execution(stream, readers, steps, run) && i <= |steps|
    ensures ErrorsCame(stream, run[i], steps[..i])
  {
    if i > 0 {
      hide Next, Enabled, ErrorsCame;
      ErrorsCameAlong(stream, readers, steps, run, i - 1);
      ErrorsCameStep(stream, run[i - 1], steps[i - 1], steps[..i - 1]);
      assert steps[..i] == steps[..i - 1] + [steps[i - 1]];
    }
  }

  /** A receive error that a caller is given is one that a receive returned or a message could not be converted with. */
  lemma ReceivedIsReal(stream: seq<Msg>, readers: nat, steps: seq<Step>, run: seq<State>, i: nat)
    requires Execution(stream, readers, steps, run) && i < |run[|steps|].replies|
    ensures var a := run[|steps|].replies[i].answer; a.Received? ==> RecvErr(a.err) in steps || Bad(a.err) in stream
  {
    ErrorsCameAlong(stream, readers, steps, run, |steps|);
    AnswersTell(stream, readers, steps, run, i);
    hide Execution;
    assert steps[..|steps|] == steps;
  }

  /** Nothing need be lost: some run hands out the whole decoded stream. */
  lemma EverythingCanBeDelivered(stream: seq<Msg>, readers: nat) returns (steps: seq<Step>, run: seq<State>)
    ensures |run| == |steps| + 1 && Execution(stream, readers, steps, run) && run[|steps|].delivered == Events(stream)
  {
    steps, run := DeliverFirst(stream, readers, |Events(stream)|);
    hide Execution;
    assert Events(stream)[..|Events(stream)|] == Events(stream);
  }

  lemma {:induction false} DeliverFirst(stream: seq<Msg>, readers: nat, n: nat) returns (steps: seq<Step>, run: seq<State>)
    requires n <= |Events(stream)|
    ensures |run| == |steps| + 1 && Execution(stream, readers, steps, run)
    ensures run[|steps|].delivered == Events(stream)[..n] && run[|steps|].next == n && run[|steps|].receiver == Receiving
  {
    EventsMeans(stream);
    hide Execution, Events;
    if n == 0 {
      steps, run := Start(stream, readers);
    } else {
      steps, run := DeliverFirst(stream, readers, n - 1);
      steps, run := Extend(stream, readers, steps, run, RecvMsg);
      steps, run := Extend(stream, readers, steps, run, Deliver);
    }
  }

  lemma Start(stream: seq<Msg>, readers: nat) returns (steps: seq<Step>, run: seq<State>)
    ensures steps == [] && |run| == 1 && Execution(stream, readers, steps, run) && run[0] == Init(readers)
  {
    steps, run := [], [Init(readers)];
  }

  lemma Extend(stream: seq<Msg>, readers: nat, steps: seq<Step>, run: seq<State>, step: Step)
    returns (steps': seq<Step>, run': seq<State>)
    requires |run| == |steps| + 1 && Execution(stream, readers, steps, run) && Enabled(stream, run[|steps|], step)
    ensures steps' == steps + [step] && |run'| == |steps'| + 1 && Execution(stream, readers, steps', run')
    ensures run <= run' && run'[|steps'|] == Next(stream, run[|steps|], step)
  {
    hide Next, Enabled, Init;
    steps', run' := steps + [step], run + [Next(stream, run[|steps|], step)];
  }

  // ---- when the bare context error can be the answer ----

  /** The receiver's error is recorded, or the receiver holds the lock and will record it. */
  predicate Settled(s: State) {
    s.receiver.HoldsLock() || s.err.Some?
  }

  /** A run and one that continues it. */
  ghost predicate Continues(stream: seq<Msg>, readers: nat, steps: seq<Step>, run: seq<State>, steps': seq<Step>, run': seq<State>) {
    && Execution(stream, readers, steps, run) && Execution(stream, readers, steps', run')
    && steps <= steps' && run <= run'
  }

  /** Caller `r` gets this reply after the first `n`. */
  ghost predicate Gets(s: State, n: nat, reply: Reply) {
    exists i :: n <= i < |s.replies| && s.replies[i] == reply
  }

  lemma SeeDoneAndLock(stream: seq<Msg>, readers: nat, steps: seq<Step>, run: seq<State>, r: nat)
    returns (steps': seq<Step>, run': seq<State>)
    requires |run| == |steps| + 1 && Execution(stream, readers, steps, run)
    requires var s := run[|steps|];
             s.ctxDone && !s.receiver.HoldsLock() && r < |s.readers| == |s.sawDone| && s.readers[r].Idle?
    ensures |run'| == |steps'| + 1 && Continues(stream, readers, steps, run, steps', run')
    ensures var s := run[|steps|];
            run'[|steps'|] == s.(sawDone := s.sawDone[r := true], readers := s.readers[r := Reading(true)])
  {
    hide Execution;
    steps', run' := Extend(stream, readers, steps, run, SeeDone(r));
    steps', run' := Extend(stream, readers, steps', run', RLock(r));
  }

  /** Once the context is done, an idle caller of an unsettled watcher can see Done and get the context error. */
  lemma GetContextError(stream: seq<Msg>, readers: nat, steps: seq<Step>, run: seq<State>, r: nat)
    returns (steps': seq<Step>, run': seq<State>)
    requires |run| == |steps| + 1 && Execution(stream, readers, steps, run)
    requires var s := run[|steps|];
             s.ctxDone && !Settled(s) && r < |s.readers| == |s.sawDone| && s.readers[r].Idle?
    ensures |run'| == |steps'| + 1 && Continues(stream, readers, steps, run, steps', run')
    ensures run'[|steps'|].replies == run[|steps|].replies + [Reply(r, true, ContextError)]
    ensures run'[|steps'|].receiver == run[|steps|].receiver
  {
    hide Execution;
    steps', run' := SeeDoneAndLock(stream, readers, steps, run, r);
    steps', run' := Extend(stream, readers, steps', run', ReadErr(r));
    steps', run' := Extend(stream, readers, steps', run', ReadContext(r));
    steps', run' := Extend(stream, readers, steps', run', RUnlock(r));
  }

  /** From every unsettled state, whatever the receiver is doing, an idle caller can still see Done and get the
      bare context error: if nobody has cancelled yet, someone can. */
  lemma UnsettledErrorCanHide(stream: seq<Msg>, readers: nat, steps: seq<Step>, run: seq<State>, r: nat)
    returns (steps': seq<Step>, run': seq<State>)
    requires |run| == |steps| + 1 && Execution(stream, readers, steps, run)
    requires !Settled(run[|steps|]) && r < |run[|steps|].readers| && run[|steps|].readers[r].Idle?
    ensures |run'| == |steps'| + 1 && Continues(stream, readers, steps, run, steps', run')
    ensures run'[|steps'|].replies == run[|steps|].replies + [Reply(r, true, ContextError)]
    ensures run'[|steps'|].receiver == run[|steps|].receiver
  {
    RunInv(stream, readers, steps, run, |steps|);
    hide Execution;
    steps', run' := steps, run;
    if !run[|steps|].ctxDone {
      steps', run' := Extend(stream, readers, steps, run, OutsideCancel);
    }
    steps', run' := GetContextError(stream, readers, steps', run', r);
  }

  /** Caller `r`, idle when the watcher was settled after `n` replies, gets the receiver's error or none yet. */
  ghost predicate GetsReceived(s: State, r: nat, n: nat) {
    && Settled(s) && r < |s.readers| && n <= |s.replies|
    && (match s.readers[r]
        case Idle => true
        case Reading(_) => s.err.Some?
        case CheckingContext(_) => false
        case Answered(_, a) => a.Received?)
    && forall i :: n <= i < |s.replies| && s.replies[i].reader == r ==> s.replies[i].answer.Received?
  }

  lemma GetsReceivedStep(stream: seq<Msg>, s: State, step: Step, r: nat, n: nat)
    requires Locking(s) && GetsReceived(s, r, n) && Enabled(stream, s, step)
    ensures GetsReceived(Next(stream, s, step), r, n)
  {
  }

  lemma {:induction false} GetsReceivedAlong(stream: seq<Msg>, readers: nat, steps: seq<Step>, run: seq<State>, k: nat, i: nat, r: nat)
    requires Execution(stream, readers, steps, run) && k <= i <= |steps|
    requires Settled(run[k]) && r < |run[k].readers| && run[k].readers[r].Idle?
    ensures GetsReceived(run[i], r, |run[k].replies|)
    decreases i
  {
    if k < i {
      hide Next, Enabled, GetsReceived;
      GetsReceivedAlong(stream, readers, steps, run, k, i - 1, r);
      RunInv(stream, readers, steps, run, i - 1);
      GetsReceivedStep(stream, run[i - 1], steps[i - 1], r, |run[k].replies|);
    }
  }

  /** In every state of every run, an idle caller can still see Done and get the bare context error exactly
      when the receiver neither holds the lock nor has recorded its error. */
  lemma ContextErrorFrom(stream: seq<Msg>, readers: nat, steps: seq<Step>, run: seq<State>, r: nat)
    requires |run| == |steps| + 1 && Execution(stream, readers, steps, run)
    requires r < |run[|steps|].readers| && run[|steps|].readers[r].Idle?
    ensures (exists steps': seq<Step>, run': seq<State> ::
               Continues(stream, readers, steps, run, steps', run')
               && Gets(run'[|steps'|], |run[|steps|].replies|, Reply(r, true, ContextError)))
       <==> !run[|steps|].receiver.HoldsLock() && run[|steps|].err.None?
  {
    var s := run[|steps|];
    if !Settled(s) {
      var steps', run' := UnsettledErrorCanHide(stream, readers, steps, run, r);
      assert run'[|steps'|].replies[|s.replies|] == Reply(r, true, ContextError);
      assert Gets(run'[|steps'|], |s.replies|, Reply(r, true, ContextError));
    } else {
      forall steps': seq<Step>, run': seq<State> | Continues(stream, readers, steps, run, steps', run')
        ensures !Gets(run'[|steps'|], |s.replies|, Reply(r, true, ContextError))
      {
        GetsReceivedAlong(stream, readers, steps', run', |steps|, |steps'|, r);
      }
    }
  }

  /** A state with a failed receiver where that is so: someone cancels between the failure and the lock. */
  lemma LateCancel(stream: seq<Msg>, readers: nat, err: Error) returns (steps: seq<Step>, run: seq<State>)
    ensures |run| == |steps| + 1 && Execution(stream, readers, steps, run) && steps == [RecvErr(err), OutsideCancel]
    ensures run[|steps|] == Init(readers).(receiver := Failing(err), ctxDone := true)
  {
    hide Execution;
    steps, run := Start(stream, readers);
    steps, run := Extend(stream, readers, steps, run, RecvErr(err));
    steps, run := Extend(stream, readers, steps, run, OutsideCancel);
  }
}
