/** The racing `connect` protocol as a step system: planner, workers, closer and caller
    goroutines over a wait group, two unbuffered channels and a cancellable context
    (api/client/client.go). Every interleaving is a sequence of `Step` labels. */
module Connect {
  import opened ConnectPlan
  import opened Options

  /** What `connect` is run with: the planner's actions, and whether the configuration names a dialer
      or an address. */
  datatype Setup = Setup(ops: seq<Op>, anyMethod: bool)

  function SetupOf(cfg: Config): Setup {
    Setup(Plan(cfg), cfg.addrs != [] || cfg.hasDialer)
  }

  /** The goroutine started for plan entry `k` by `syncConnect`. */
  datatype Worker =
    | Unborn
    | Added                    // wg.Add(1) done, `go` not yet
    | Dialing
    | Failing(err: Error)      // at the select of sendError
    | Connected                // at the select on cltChan
    | Leaving                  // body done, deferred wg.Done() pending
    | Finished

  datatype Planner =
    | PlannerUnstarted
    | PlannerAt(pc: nat)
    | PlannerSpawning(pc: nat) // between wg.Add(1) and `go`
    | PlannerLeaving
    | PlannerFinished

  datatype Closer = CloserUnstarted | CloserWaiting | CloserClosing | CloserFinished

  /** An error received from errChan, tagged with the plan entry that sent it. */
  datatype Message = Message(from: nat, err: Error)

  datatype Result =
    | Client(attempt: nat)
    | AllFailed(errs: seq<Message>)
    | NoMethodsConfigured
    | NoMethodsFound
    | ContextError

  datatype Caller =
    | CallerAdding
    | CallerStartingPlanner
    | CallerStartingCloser
    | CallerSelecting
    | CallerReturning(result: Result)  // `return` reached, deferred cancel() pending
    | CallerReturned(result: Result)
  {
    predicate HasResult() { CallerReturning? || CallerReturned? }
  }

  /** `dialed`, `failures`, `handed` and `closes` record history: which attempts connected, which
      failed, which clients the caller received and how often each client was closed. */
  datatype State = State(
    wg: int,
    ctxDone: bool,
    parentCancelled: bool,
    errClosed: bool,
    crashed: bool,
    planner: Planner,
    workers: seq<Worker>,
    closer: Closer,
    caller: Caller,
    errs: seq<Message>,
    dialed: set<nat>,
    failures: map<nat, Error>,
    handed: seq<nat>,
    closes: multiset<nat>)

  datatype Step =
    | CallerAdd | CallerGoPlanner | CallerGoCloser
    | PlannerAdd | PlannerGo | PlannerReport | PlannerDrop | PlannerExit | PlannerDone
    | DialOk(k: nat) | DialErr(k: nat, err: Error)
    | WorkerReport(k: nat) | WorkerDrop(k: nat) | WorkerHand(k: nat) | WorkerClose(k: nat) | WorkerDone(k: nat)
    | CloserWake | CloserClose
    | CallerSeesClosed | CallerSeesCancel | CallerCancel
    | ParentCancel
    | PlannerSendOnClosed | WorkerSendOnClosed(k: nat)

  function Init(su: Setup): State {
    State(0, false, false, false, false, PlannerUnstarted, seq(|su.ops|, _ => Unborn),
          CloserUnstarted, CallerAdding, [], {}, map[], [], multiset{})
  }

  predicate PlannerSending(su: Setup, s: State) {
    s.planner.PlannerAt? && s.planner.pc < |su.ops| && su.ops[s.planner.pc].Report?
  }

  predicate WorkerIs(s: State, k: nat, w: Worker) {
    k < |s.workers| && s.workers[k] == w
  }

  predicate WorkerFailing(s: State, k: nat) {
    k < |s.workers| && s.workers[k].Failing?
  }

  predicate Enabled(su: Setup, s: State, step: Step) {
    !s.crashed &&
    match step
    case CallerAdd => s.caller.CallerAdding?
    case CallerGoPlanner => s.caller.CallerStartingPlanner?
    case CallerGoCloser => s.caller.CallerStartingCloser?
    case PlannerAdd => s.planner.PlannerAt? && s.planner.pc < |su.ops| == |s.workers| && su.ops[s.planner.pc].Attempt?
    case PlannerGo => s.planner.PlannerSpawning? && s.planner.pc < |s.workers|
    // An unbuffered send completes only together with the caller's receive.
    case PlannerReport => PlannerSending(su, s) && s.caller.CallerSelecting? && !s.errClosed
    case PlannerDrop => PlannerSending(su, s) && s.ctxDone
    case PlannerExit => s.planner == PlannerAt(|su.ops|)
    case PlannerDone => s.planner.PlannerLeaving?
    case DialOk(k) => WorkerIs(s, k, Dialing)
    case DialErr(k, _) => WorkerIs(s, k, Dialing)
    case WorkerReport(k) => WorkerFailing(s, k) && s.caller.CallerSelecting? && !s.errClosed
    case WorkerDrop(k) => WorkerFailing(s, k) && s.ctxDone
    case WorkerHand(k) => WorkerIs(s, k, Connected) && s.caller.CallerSelecting?
    case WorkerClose(k) => WorkerIs(s, k, Connected) && s.ctxDone
    case WorkerDone(k) => WorkerIs(s, k, Leaving)
    case CloserWake => s.closer.CloserWaiting? && s.wg == 0
    case CloserClose => s.closer.CloserClosing?
    case CallerSeesClosed => s.caller.CallerSelecting? && s.errClosed
    case CallerSeesCancel => s.caller.CallerSelecting? && s.ctxDone
    case CallerCancel => s.caller.CallerReturning?
    case ParentCancel => !s.parentCancelled
    case PlannerSendOnClosed => PlannerSending(su, s) && s.errClosed
    case WorkerSendOnClosed(k) => WorkerFailing(s, k) && s.errClosed
  }

  /** The caller's return value once it receives from the closed errChan. */
  function ClosedResult(su: Setup, errs: seq<Message>): Result {
    if errs != [] then AllFailed(errs)
    else if !su.anyMethod then NoMethodsConfigured
    else NoMethodsFound
  }

  /** wg.Done(): a negative counter panics. */
  function Done(s: State): State {
    s.(wg := s.wg - 1, crashed := s.wg <= 0)
  }

  function Next(su: Setup, s: State, step: Step): State
    requires Enabled(su, s, step)
  {
    match step
    case CallerAdd => s.(wg := s.wg + 1, caller := CallerStartingPlanner)
    case CallerGoPlanner => s.(planner := PlannerAt(0), caller := CallerStartingCloser)
    case CallerGoCloser => s.(closer := CloserWaiting, caller := CallerSelecting)
    // wg.Add from zero while a Wait is pending is a misuse that panics.
    case PlannerAdd => s.(wg := s.wg + 1, crashed := s.wg <= 0 && !s.closer.CloserUnstarted?,
                          planner := PlannerSpawning(s.planner.pc), workers := s.workers[s.planner.pc := Added])
    case PlannerGo => s.(planner := PlannerAt(s.planner.pc + 1), workers := s.workers[s.planner.pc := Dialing])
    case PlannerReport => s.(planner := PlannerAt(s.planner.pc + 1),
                             errs := s.errs + [Message(s.planner.pc, su.ops[s.planner.pc].err)])
    case PlannerDrop => s.(planner := PlannerAt(s.planner.pc + 1))
    case PlannerExit => s.(planner := PlannerLeaving)
    case PlannerDone => Done(s.(planner := PlannerFinished))
    case DialOk(k) => s.(workers := s.workers[k := Connected], dialed := s.dialed + {k})
    case DialErr(k, err) => s.(workers := s.workers[k := Failing(err)], failures := s.failures[k := err])
    case WorkerReport(k) => s.(workers := s.workers[k := Leaving], errs := s.errs + [Message(k, s.workers[k].err)])
    case WorkerDrop(k) => s.(workers := s.workers[k := Leaving])
    case WorkerHand(k) => s.(workers := s.workers[k := Leaving], handed := s.handed + [k], caller := CallerReturning(Client(k)))
    case WorkerClose(k) => s.(workers := s.workers[k := Leaving], closes := s.closes + multiset{k})
    case WorkerDone(k) => Done(s.(workers := s.workers[k := Finished]))
    case CloserWake => s.(closer := CloserClosing)
    case CloserClose => s.(closer := CloserFinished, errClosed := true)
    case CallerSeesClosed => s.(caller := CallerReturning(ClosedResult(su, s.errs)))
    case CallerSeesCancel => s.(caller := CallerReturning(ContextError))
    case CallerCancel => s.(caller := CallerReturned(s.caller.result), ctxDone := true)
    case ParentCancel => s.(parentCancelled := true, ctxDone := true)
    case PlannerSendOnClosed => s.(crashed := true)
    case WorkerSendOnClosed(k) => s.(crashed := true)
  }

  /** An execution: the labels of a run and the states it passes through. */
  ghost predicate Execution(su: Setup, steps: seq<Step>, run: seq<State>) {
    && |run| == |steps| + 1
    && run[0] == Init(su)
    && forall i :: 0 <= i < |steps| ==> Enabled(su, run[i], steps[i]) && run[i + 1] == Next(su, run[i], steps[i])
  }

  predicate Settled(w: Worker) { w.Unborn? || w.Finished? }

  /** Every goroutine started by `connect`, and the call itself, has ended. */
  predicate Quiescent(s: State) {
    && s.planner.PlannerFinished? && s.closer.CloserFinished? && s.caller.CallerReturned?
    && forall k :: 0 <= k < |s.workers| ==> Settled(s.workers[k])
  }

  function Total(f: Worker -> nat, ws: seq<Worker>): nat {
    if ws == [] then 0 else f(ws[0]) + Total(f, ws[1..])
  }

  lemma {:induction false} TotalUpdate(f: Worker -> nat, ws: seq<Worker>, k: nat, w: Worker)
    requires k < |ws|
    ensures Total(f, ws[k := w]) + f(ws[k]) == Total(f, ws) + f(w)
  {
    if k == 0 {
      assert ws[k := w][1..] == ws[1..];
    } else {
      assert ws[k := w][1..] == ws[1..][k - 1 := w];
      TotalUpdate(f, ws[1..], k - 1, w);
    }
  }

  lemma {:induction false} TotalZero(f: Worker -> nat, ws: seq<Worker>)
    ensures Total(f, ws) == 0 <==> forall k :: 0 <= k < |ws| ==> f(ws[k]) == 0
  {
    if ws != [] {
      TotalZero(f, ws[1..]);
      assert forall k :: 0 < k < |ws| ==> ws[k] == ws[1..][k - 1];
      assert forall k :: 0 <= k < |ws| - 1 ==> ws[1..][k] == ws[k + 1];
    }
  }

  const Live: Worker -> nat := w => if Settled(w) then 0 else 1

  function PlannerLive(s: State): nat {
    if s.caller.CallerAdding? || s.planner.PlannerFinished? then 0 else 1
  }

  /** How many plan entries the planner has passed. */
  function Passed(su: Setup, s: State): nat {
    match s.planner
    case PlannerUnstarted => 0
    case PlannerAt(pc) => pc
    case PlannerSpawning(pc) => pc
    case PlannerLeaving => |su.ops|
    case PlannerFinished => |su.ops|
  }

  // ---- the invariant, in three layers ----

  /** Where each plan entry stands relative to the planner. */
  predicate EntryOk(su: Setup, s: State, k: nat)
    requires k < |su.ops| == |s.workers|
  {
    && (su.ops[k].Report? ==> s.workers[k].Unborn?)
    && (s.workers[k].Added? <==> s.planner == PlannerSpawning(k))
    && (k > Passed(su, s) ==> s.workers[k].Unborn?)
    && (k == Passed(su, s) ==> s.workers[k].Unborn? || s.workers[k].Added?)
    && (k < Passed(su, s) && su.ops[k].Attempt? ==> !s.workers[k].Unborn?)
  }

  /** How the phases of caller, planner and closer and the two flags go together. */
  predicate Phases(s: State) {
    && (s.planner.PlannerUnstarted? <==> s.caller.CallerAdding? || s.caller.CallerStartingPlanner?)
    && (s.closer.CloserUnstarted? <==> s.caller.CallerAdding? || s.caller.CallerStartingPlanner? || s.caller.CallerStartingCloser?)
    && (s.errClosed <==> s.closer.CloserFinished?)
    && (s.ctxDone <==> s.parentCancelled || s.caller.CallerReturned?)
  }

  /** The closer is past its wait only when nobody is left to wait for. */
  ghost predicate Drained(s: State) {
    s.closer.CloserClosing? || s.closer.CloserFinished? ==>
      s.planner.PlannerFinished? && forall k :: 0 <= k < |s.workers| ==> Settled(s.workers[k])
  }

  ghost predicate Control(su: Setup, s: State) {
    var n := |su.ops|;
    && |s.workers| == n
    && !s.crashed
    && s.wg == PlannerLive(s) + Total(Live, s.workers)
    && Passed(su, s) <= n
    && SpawningOk(su, s.planner)
    && (forall k :: 0 <= k < n ==> EntryOk(su, s, k))
    && Phases(s) && Drained(s)
  }

  /** Who owns the client of attempt `k`. */
  predicate ClientOk(s: State, k: nat)
    requires k < |s.workers|
  {
    match s.workers[k]
    case Connected => k in s.dialed && k !in s.failures && k !in s.handed && s.closes[k] == 0
    case Failing(e) => k !in s.dialed && k in s.failures && s.failures[k] == e && k !in s.handed && s.closes[k] == 0
    case Leaving => SettledClient(s, k)
    case Finished => SettledClient(s, k)
    case _ => k !in s.dialed && k !in s.failures && k !in s.handed && s.closes[k] == 0
  }

  predicate SettledClient(s: State, k: nat) {
    && (k in s.dialed <==> k !in s.failures)
    && (k in s.dialed ==> s.closes[k] == if k in s.handed then 0 else 1)
    && (k !in s.dialed ==> k !in s.handed && s.closes[k] == 0)
  }

  ghost predicate Ownership(s: State) {
    && (forall k :: 0 <= k < |s.workers| ==> ClientOk(s, k))
    && (forall k :: k in s.dialed || k in s.failures || k in s.handed || k in s.closes ==> k < |s.workers|)
    && s.handed == if s.caller.HasResult() && s.caller.result.Client? then [s.caller.result.attempt] else []
  }

  predicate Sent(ms: seq<Message>, k: nat) {
    exists i :: 0 <= i < |ms| && ms[i].from == k
  }

  predicate MessageOk(su: Setup, s: State, m: Message)
    requires |su.ops| == |s.workers|
  {
    && m.from < Passed(su, s) <= |su.ops|
    && match su.ops[m.from]
       case Report(e) => m.err == e
       case Attempt(_) => (s.workers[m.from].Leaving? || s.workers[m.from].Finished?)
                          && m.from in s.failures && s.failures[m.from] == m.err
  }

  /** Plan entry `k` is over: its error was sent or dropped, or its worker left the select. */
  predicate Over(su: Setup, s: State, k: nat)
    requires k < |su.ops| == |s.workers|
  {
    k < Passed(su, s) && (su.ops[k].Report? || s.workers[k].Leaving? || s.workers[k].Finished?)
  }

  ghost predicate Errors(su: Setup, s: State)
    requires |su.ops| == |s.workers|
  {
    && (forall i :: 0 <= i < |s.errs| ==> MessageOk(su, s, s.errs[i]))
    && (forall i, j :: 0 <= i < j < |s.errs| ==> s.errs[i].from != s.errs[j].from)
    && (!s.parentCancelled && s.handed == [] ==> forall k :: 0 <= k < |su.ops| && Over(su, s, k) ==> Sent(s.errs, k))
    && (s.caller.HasResult() ==>
          match s.caller.result
          case Client(_) => true
          case ContextError => s.parentCancelled
          case r => s.errClosed && r == ClosedResult(su, s.errs))
  }

  ghost predicate Inv(su: Setup, s: State) {
    Control(su, s) && Ownership(s) && Errors(su, s)
  }

  // ---- preservation ----

  lemma InitInv(su: Setup)
    ensures Inv(su, Init(su))
  {
    TotalZero(Live, Init(su).workers);
  }

  /** The plan entry whose worker a step moves, if any. */
  function Moved(s: State, step: Step): Option<nat> {
    match step
    case PlannerAdd => if s.planner.PlannerAt? then Some(s.planner.pc) else None
    case PlannerGo => if s.planner.PlannerSpawning? then Some(s.planner.pc) else None
    case DialOk(k) => Some(k)
    case DialErr(k, _) => Some(k)
    case WorkerReport(k) => Some(k)
    case WorkerDrop(k) => Some(k)
    case WorkerHand(k) => Some(k)
    case WorkerClose(k) => Some(k)
    case WorkerDone(k) => Some(k)
    case _ => None
  }

  lemma TotalStep(su: Setup, s: State, step: Step, f: Worker -> nat)
    requires Enabled(su, s, step)
    ensures var t := Next(su, s, step);
            var m := Moved(s, step);
            if m.None? then t.workers == s.workers
            else m.value < |s.workers| == |t.workers|
                 && t.workers == s.workers[m.value := t.workers[m.value]]
                 && Total(f, t.workers) + f(s.workers[m.value]) == Total(f, s.workers) + f(t.workers[m.value])
  {
    var t := Next(su, s, step);
    var m := Moved(s, step);
    if m.Some? {
      TotalUpdate(f, s.workers, m.value, t.workers[m.value]);
    }
  }

  lemma WgStep(su: Setup, s: State, step: Step)
    requires Control(su, s) && Enabled(su, s, step)
    ensures var t := Next(su, s, step);
            |t.workers| == |s.workers| && t.wg == PlannerLive(t) + Total(Live, t.workers) && !t.crashed
  {
    TotalStep(su, s, step, Live);
    TotalZero(Live, s.workers);
    var m := Moved(s, step);
    if m.Some? { assert EntryOk(su, s, m.value); }
  }

  /** A goroutine is started once. */
  predicate Starts(s: State, step: Step) {
    && (step.CallerGoPlanner? ==> s.planner.PlannerUnstarted?)
    && (step.CallerGoCloser? ==> s.closer.CloserUnstarted?)
  }

  predicate MovesPlanner(step: Step) {
    step.CallerGoPlanner? || step.PlannerAdd? || step.PlannerGo? || step.PlannerReport? || step.PlannerDrop?
    || step.PlannerExit? || step.PlannerDone?
  }

  lemma PlannerFrame(su: Setup, s: State, step: Step)
    requires Enabled(su, s, step) && !MovesPlanner(step)
    ensures Next(su, s, step).planner == s.planner
  {
    hide Enabled;
  }

  lemma WorkerFrame(su: Setup, s: State, step: Step, k: nat)
    requires Enabled(su, s, step) && Moved(s, step) != Some(k) && k < |s.workers|
    ensures var ws := Next(su, s, step).workers; |ws| == |s.workers| && ws[k] == s.workers[k]
  {
  }

  /** A worker that moves by itself has been started and stays so. */
  lemma WorkerMoves(su: Setup, s: State, step: Step, k: nat)
    requires Enabled(su, s, step) && !MovesPlanner(step) && Moved(s, step) == Some(k)
    ensures k < |s.workers| == |Next(su, s, step).workers|
    ensures forall w :: w in [s.workers[k], Next(su, s, step).workers[k]] ==> !w.Unborn? && !w.Added?
  {
  }

  predicate SpawningOk(su: Setup, p: Planner) {
    p.PlannerSpawning? ==> p.pc < |su.ops| && su.ops[p.pc].Attempt?
  }

  lemma PassedStep(su: Setup, s: State, step: Step)
    requires Starts(s, step) && Enabled(su, s, step) && Passed(su, s) <= |su.ops| == |s.workers|
    ensures Passed(su, s) <= Passed(su, Next(su, s, step)) <= |su.ops|
    ensures SpawningOk(su, s.planner) ==> SpawningOk(su, Next(su, s, step).planner)
  {
  }

  lemma EntryPlanner(su: Setup, s: State, step: Step, k: nat)
    requires Starts(s, step) && Enabled(su, s, step) && MovesPlanner(step) && k < |su.ops| == |s.workers|
    requires EntryOk(su, s, k) && Passed(su, s) <= |su.ops|
    ensures |Next(su, s, step).workers| == |su.ops| && EntryOk(su, Next(su, s, step), k)
  {
  }

  lemma EntryStep(su: Setup, s: State, step: Step, k: nat)
    requires Starts(s, step) && Enabled(su, s, step) && k < |su.ops| == |s.workers|
    requires EntryOk(su, s, k) && Passed(su, s) <= |su.ops|
    ensures |Next(su, s, step).workers| == |su.ops| && EntryOk(su, Next(su, s, step), k)
  {
    hide Next, Enabled, Starts, MovesPlanner, Moved;
    if MovesPlanner(step) {
      EntryPlanner(su, s, step, k);
    } else {
      PlannerFrame(su, s, step);
      if Moved(s, step) == Some(k) { WorkerMoves(su, s, step, k); } else { WorkerFrame(su, s, step, k); }
    }
  }

  lemma PhasesStep(su: Setup, s: State, step: Step)
    requires Phases(s) && Enabled(su, s, step)
    ensures Phases(Next(su, s, step)) && Starts(s, step)
  {
  }

  /** Once everyone is done, only closer, caller and context still move. */
  lemma DrainedMoves(su: Setup, s: State, step: Step)
    requires Drained(s) && Enabled(su, s, step) && (s.closer.CloserClosing? || s.closer.CloserFinished?)
    ensures Moved(s, step).None? && (MovesPlanner(step) ==> step.CallerGoPlanner?)
  {
    hide Next;
  }

  lemma WakeMoves(su: Setup, s: State, step: Step)
    requires Enabled(su, s, step) && !s.closer.CloserClosing? && !s.closer.CloserFinished?
    requires Next(su, s, step).closer.CloserClosing? || Next(su, s, step).closer.CloserFinished?
    ensures s.wg == 0 && s.closer.CloserWaiting? && Next(su, s, step) == s.(closer := CloserClosing)
  {
  }

  lemma DrainedStep(su: Setup, s: State, step: Step)
    requires Control(su, s) && Enabled(su, s, step)
    ensures Drained(Next(su, s, step))
  {
    var t := Next(su, s, step);
    TotalZero(Live, s.workers);
    hide Next, Enabled, EntryOk, Moved, MovesPlanner;
    if s.closer.CloserClosing? || s.closer.CloserFinished? {
      DrainedMoves(su, s, step);
      PhasesStep(su, s, step);
      PlannerFrame(su, s, step);
      forall k | 0 <= k < |t.workers| ensures Settled(t.workers[k]) {
        WorkerFrame(su, s, step, k);
      }
    } else if t.closer.CloserClosing? || t.closer.CloserFinished? {
      WakeMoves(su, s, step);
    }
  }

  lemma ControlStep(su: Setup, s: State, step: Step)
    requires Inv(su, s) && Enabled(su, s, step)
    ensures Control(su, Next(su, s, step))
  {
    hide Next, Enabled;
    WgStep(su, s, step);
    PhasesStep(su, s, step);
    DrainedStep(su, s, step);
    PassedStep(su, s, step);
    forall k | 0 <= k < |su.ops|
      ensures EntryOk(su, Next(su, s, step), k)
    {
      EntryStep(su, s, step, k);
    }
  }

  /** A step leaves the history of every other attempt alone. */
  lemma DialFrame(su: Setup, s: State, step: Step, k: nat)
    requires Enabled(su, s, step) && Moved(s, step) != Some(k)
    ensures var t := Next(su, s, step);
            && (k in t.dialed <==> k in s.dialed)
            && (k in t.failures <==> k in s.failures) && (k in s.failures ==> t.failures[k] == s.failures[k])
  {
    match step { case DialOk(_) => case DialErr(_, _) => case _ => }
  }

  lemma ReleaseFrame(su: Setup, s: State, step: Step, k: nat)
    requires Enabled(su, s, step) && Moved(s, step) != Some(k)
    ensures var t := Next(su, s, step); (k in t.handed <==> k in s.handed) && t.closes[k] == s.closes[k]
  {
    match step { case WorkerClose(_) => case WorkerHand(_) => case _ => }
  }

  /** A step leaves the ownership record of every other attempt alone. */
  lemma ClientFrame(su: Setup, s: State, step: Step, k: nat)
    requires Enabled(su, s, step) && Moved(s, step) != Some(k) && k < |s.workers|
    ensures var t := Next(su, s, step);
            && |t.workers| == |s.workers| && t.workers[k] == s.workers[k]
            && (k in t.dialed <==> k in s.dialed) && (k in t.handed <==> k in s.handed) && t.closes[k] == s.closes[k]
            && (k in t.failures <==> k in s.failures) && (k in s.failures ==> t.failures[k] == s.failures[k])
  {
    hide Next, Enabled, Moved;
    WorkerFrame(su, s, step, k);
    DialFrame(su, s, step, k);
    ReleaseFrame(su, s, step, k);
  }

  lemma ClientMoved(su: Setup, s: State, step: Step, k: nat)
    requires Enabled(su, s, step) && Moved(s, step) == Some(k) && k < |s.workers|
    requires ClientOk(s, k) && (step.PlannerAdd? ==> s.workers[k].Unborn?) && (step.PlannerGo? ==> s.workers[k].Added?)
    ensures |Next(su, s, step).workers| == |s.workers| && ClientOk(Next(su, s, step), k)
  {
  }

  lemma HandedStep(su: Setup, s: State, step: Step)
    requires Enabled(su, s, step)
    requires s.handed == if s.caller.HasResult() && s.caller.result.Client? then [s.caller.result.attempt] else []
    ensures var t := Next(su, s, step);
            t.handed == if t.caller.HasResult() && t.caller.result.Client? then [t.caller.result.attempt] else []
  {
  }

  lemma OwnershipStep(su: Setup, s: State, step: Step)
    requires Inv(su, s) && Enabled(su, s, step)
    ensures Ownership(Next(su, s, step))
  {
    hide Next, Enabled;
    TotalStep(su, s, step, Live);
    HandedStep(su, s, step);
    forall k: nat
      ensures var t := Next(su, s, step);
              k in t.dialed || k in t.failures || k in t.handed || k in t.closes ==> k < |s.workers|
    {
      if Moved(s, step) != Some(k) {
        DialFrame(su, s, step, k);
        ReleaseFrame(su, s, step, k);
      }
    }
    forall k | 0 <= k < |s.workers|
      ensures ClientOk(Next(su, s, step), k)
    {
      assert ClientOk(s, k) && EntryOk(su, s, k);
      if Moved(s, step) == Some(k) { ClientMoved(su, s, step, k); } else { ClientFrame(su, s, step, k); }
    }
  }

  lemma LeftMoves(su: Setup, s: State, step: Step, k: nat)
    requires Enabled(su, s, step) && k < |s.workers| && (s.workers[k].Leaving? || s.workers[k].Finished?)
    requires Moved(s, step) == Some(k) && !step.PlannerAdd? && !step.PlannerGo?
    ensures step == WorkerDone(k)
  {
    hide Next;
  }

  /** A worker that has left its select only finishes. */
  lemma LeftStays(su: Setup, s: State, step: Step, k: nat)
    requires Enabled(su, s, step) && k < |s.workers| && (s.workers[k].Leaving? || s.workers[k].Finished?) && k in s.failures
    requires step.PlannerAdd? || step.PlannerGo? ==> s.planner.pc != k
    ensures var t := Next(su, s, step);
            && |t.workers| == |s.workers| && (t.workers[k].Leaving? || t.workers[k].Finished?)
            && k in t.failures && t.failures[k] == s.failures[k]
  {
    if Moved(s, step) == Some(k) {
      LeftMoves(su, s, step, k);
      assert Next(su, s, WorkerDone(k)).workers[k] == Finished;
    } else {
      hide Next, Enabled;
      ClientFrame(su, s, step, k);
    }
  }

  lemma MessageKept(su: Setup, s: State, step: Step, m: Message)
    requires Starts(s, step) && Enabled(su, s, step) && |su.ops| == |s.workers| == |Next(su, s, step).workers|
    requires MessageOk(su, s, m)
    ensures MessageOk(su, Next(su, s, step), m)
  {
    PassedStep(su, s, step);
    if su.ops[m.from].Attempt? { LeftStays(su, s, step, m.from); }
  }

  lemma MessageStep(su: Setup, s: State, step: Step, i: nat)
    requires Inv(su, s) && Enabled(su, s, step) && i < |Next(su, s, step).errs|
    ensures MessageOk(su, Next(su, s, step), Next(su, s, step).errs[i])
  {
    if i < |s.errs| {
      assert MessageOk(su, s, s.errs[i]) && EntryOk(su, s, s.errs[i].from);
      MessageKept(su, s, step, s.errs[i]);
    } else if step.WorkerReport? {
      assert EntryOk(su, s, step.k) && ClientOk(s, step.k);
    }
  }

  /** A new message comes from an entry that has sent none before. */
  lemma FreshMessage(su: Setup, s: State, step: Step, i: nat)
    requires Inv(su, s) && Enabled(su, s, step) && i < |s.errs| < |Next(su, s, step).errs|
    ensures s.errs[i].from != Next(su, s, step).errs[|s.errs|].from
  {
    assert MessageOk(su, s, s.errs[i]) && EntryOk(su, s, s.errs[i].from);
  }

  /** Messages are only ever added, one at a time, and neither a cancellation nor a winner is forgotten. */
  lemma ErrsGrow(su: Setup, s: State, step: Step)
    requires Enabled(su, s, step)
    ensures var t := Next(su, s, step);
            && s.errs <= t.errs && |t.errs| <= |s.errs| + 1
            && (s.parentCancelled ==> t.parentCancelled) && (s.handed != [] ==> t.handed != [])
  {
    match step { case PlannerReport => case WorkerReport(_) => case WorkerHand(_) => case ParentCancel => case _ => }
  }

  /** An entry that is over just now has sent its message just now. */
  lemma NewlyOverReport(su: Setup, s: State, step: Step, k: nat)
    requires Enabled(su, s, step) && k < |su.ops| == |s.workers| == |Next(su, s, step).workers|
    requires su.ops[k].Report? && EntryOk(su, s, k) && !Over(su, s, k) && Over(su, Next(su, s, step), k)
    requires Starts(s, step) && !s.ctxDone
    ensures var t := Next(su, s, step); |t.errs| == |s.errs| + 1 && t.errs[|s.errs|].from == k
  {
  }

  lemma NewlyOverAttempt(su: Setup, s: State, step: Step, k: nat)
    requires Enabled(su, s, step) && k < |su.ops| == |s.workers| == |Next(su, s, step).workers|
    requires su.ops[k].Attempt? && EntryOk(su, s, k) && !Over(su, s, k) && Over(su, Next(su, s, step), k)
    requires Next(su, s, step).handed == [] && !s.ctxDone
    ensures var t := Next(su, s, step); |t.errs| == |s.errs| + 1 && t.errs[|s.errs|].from == k
  {
  }

  /** After the caller has returned, with nothing handed out and no cancellation, nothing is left to be over. */
  lemma ReturnedMeansOver(su: Setup, s: State, k: nat)
    requires Inv(su, s) && s.ctxDone && !s.parentCancelled && s.handed == [] && k < |su.ops|
    ensures s.planner.PlannerFinished? && (su.ops[k].Attempt? ==> s.workers[k].Finished?)
  {
    assert EntryOk(su, s, k);
  }

  /** Without cancellation or a winner, leaving a select means having sent. */
  lemma ReportedStep(su: Setup, s: State, step: Step, k: nat)
    requires Inv(su, s) && Enabled(su, s, step) && k < |su.ops| == |Next(su, s, step).workers|
    requires var t := Next(su, s, step); !t.parentCancelled && t.handed == [] && Over(su, t, k)
    ensures Sent(Next(su, s, step).errs, k)
  {
    hide Next, Enabled;
    var t := Next(su, s, step);
    ErrsGrow(su, s, step);
    if Over(su, s, k) {
      var i :| 0 <= i < |s.errs| && s.errs[i].from == k;
      assert t.errs[i].from == k;
    } else {
      assert EntryOk(su, s, k);
      PhasesStep(su, s, step);
      if s.ctxDone { ReturnedMeansOver(su, s, k); }
      if su.ops[k].Report? { NewlyOverReport(su, s, step, k); } else { NewlyOverAttempt(su, s, step, k); }
    }
  }

  lemma ResultStep(su: Setup, s: State, step: Step)
    requires Inv(su, s) && Enabled(su, s, step)
    ensures var t := Next(su, s, step);
            t.caller.HasResult() ==>
              match t.caller.result
              case Client(_) => true
              case ContextError => t.parentCancelled
              case r => t.errClosed && r == ClosedResult(su, t.errs)
  {
  }

  lemma ErrorsStep(su: Setup, s: State, step: Step)
    requires Inv(su, s) && Enabled(su, s, step)
    ensures |Next(su, s, step).workers| == |su.ops|
    ensures Errors(su, Next(su, s, step))
  {
    hide Next, Enabled, Over;
    var t := Next(su, s, step);
    TotalStep(su, s, step, Live);
    ErrsGrow(su, s, step);
    forall i | 0 <= i < |t.errs| ensures MessageOk(su, t, t.errs[i]) {
      MessageStep(su, s, step, i);
    }
    forall i, j | 0 <= i < j < |t.errs| ensures t.errs[i].from != t.errs[j].from {
      if j == |s.errs| { FreshMessage(su, s, step, i); }
    }
    if !t.parentCancelled && t.handed == [] {
      forall k | 0 <= k < |su.ops| && Over(su, t, k) ensures Sent(t.errs, k) {
        ReportedStep(su, s, step, k);
      }
    }
    ResultStep(su, s, step);
  }

  /** Every state of every run satisfies the invariant. */
  lemma {:induction false} RunInv(su: Setup, steps: seq<Step>, run: seq<State>, i: nat)
    requires Execution(su, steps, run) && i <= |steps|
    ensures Inv(su, run[i])
  {
    if i == 0 {
      InitInv(su);
    } else {
      RunInv(su, steps, run, i - 1);
      ControlStep(su, run[i - 1], steps[i - 1]);
      OwnershipStep(su, run[i - 1], steps[i - 1]);
      ErrorsStep(su, run[i - 1], steps[i - 1]);
    }
  }

  // ---- the theorems ----

  /** Resource ownership over every interleaving: at most one client reaches the caller, it was
      dialed and is never closed, no client is closed twice, and once everything has ended every
      other dialed client has been closed exactly once. */
  lemma ClientOwnership(su: Setup, steps: seq<Step>, run: seq<State>)
    requires Execution(su, steps, run)
    ensures var s := run[|steps|];
            && |s.handed| <= 1
            && (forall k :: k in s.handed ==> k in s.dialed && s.closes[k] == 0)
            && (forall k :: s.closes[k] <= 1 && (s.closes[k] == 1 ==> k in s.dialed))
            && (s.caller.CallerReturned? ==> (s.caller.result.Client? <==> s.handed != []))
            && (s.caller.HasResult() && s.caller.result.Client? ==> s.handed == [s.caller.result.attempt])
            && (Quiescent(s) ==> forall k :: k in s.dialed && k !in s.handed ==> s.closes[k] == 1)
  {
    RunInv(su, steps, run, |steps|);
    var s := run[|steps|];
    forall k: nat
      ensures s.closes[k] <= 1 && (s.closes[k] == 1 ==> k in s.dialed)
      ensures k in s.handed ==> k in s.dialed && s.closes[k] == 0
      ensures Quiescent(s) && k in s.dialed && k !in s.handed ==> s.closes[k] == 1
    {
      if k < |s.workers| { assert ClientOk(s, k); }
    }
  }

  /** Goroutines that have called wg.Add and not yet wg.Done. */
  function Pending(s: State): set<nat> {
    set k | 0 <= k < |s.workers| && !Settled(s.workers[k])
  }

  lemma {:induction false} TotalIsPending(ws: seq<Worker>)
    ensures Total(Live, ws) == |set k | 0 <= k < |ws| && !Settled(ws[k])|
  {
    if ws == [] {
    } else {
      var n := |ws| - 1;
      var init := ws[..n];
      TotalIsPending(init);
      TotalSnoc(Live, init, ws[n]);
      assert ws == init + [ws[n]];
      var a := set k | 0 <= k < |init| && !Settled(init[k]);
      var b := set k | 0 <= k < |ws| && !Settled(ws[k]);
      assert b == if Settled(ws[n]) then a else a + {n};
    }
  }

  lemma {:induction false} TotalSnoc(f: Worker -> nat, ws: seq<Worker>, w: Worker)
    ensures Total(f, ws + [w]) == Total(f, ws) + f(w)
  {
    if ws != [] {
      TotalSnoc(f, ws[1..], w);
      assert (ws + [w])[1..] == ws[1..] + [w];
    }
  }

  lemma Safe(su: Setup, s: State)
    requires Control(su, s)
    ensures s.wg == PlannerLive(s) + |Pending(s)|
    ensures s.errClosed ==> s.planner.PlannerFinished? && Pending(s) == {}
    ensures !Enabled(su, s, PlannerSendOnClosed)
    ensures forall k :: !Enabled(su, s, WorkerSendOnClosed(k))
  {
    TotalIsPending(s.workers);
  }

  /** Channel and wait-group safety over every interleaving: no panic, the counter counts exactly
      the unfinished planner and workers, and errChan is closed only when nobody can send. */
  lemma ChannelSafety(su: Setup, steps: seq<Step>, run: seq<State>)
    requires Execution(su, steps, run)
    ensures var s := run[|steps|];
            && !s.crashed
            && s.wg == PlannerLive(s) + |Pending(s)|
            && (s.errClosed ==> s.planner.PlannerFinished? && Pending(s) == {})
            && !Enabled(su, s, PlannerSendOnClosed)
            && (forall k :: !Enabled(su, s, WorkerSendOnClosed(k)))
  {
    RunInv(su, steps, run, |steps|);
    Safe(su, run[|steps|]);
  }

  /** The step tells the caller nothing: no client, no error, no cancellation. */
  predicate Quiet(step: Step) {
    !step.PlannerReport? && !step.WorkerReport? && !step.WorkerHand? && !step.CallerSeesCancel?
  }

  lemma SomePlannerStep(su: Setup, s: State) returns (step: Step)
    requires Control(su, s) && !s.planner.PlannerUnstarted? && !s.planner.PlannerFinished?
    requires s.caller.CallerSelecting? || s.caller.CallerReturned?
    ensures Enabled(su, s, step) && step != ParentCancel
    ensures s.ctxDone || su.ops == [] ==> Quiet(step)
  {
    match s.planner {
      case PlannerAt(pc) =>
        if pc == |su.ops| { return PlannerExit; }
        if su.ops[pc].Attempt? { return PlannerAdd; }
        return if s.ctxDone then PlannerDrop else PlannerReport;
      case PlannerSpawning(_) => return PlannerGo;
      case PlannerLeaving => return PlannerDone;
    }
  }

  lemma SomeWorkerStep(su: Setup, s: State, k: nat) returns (step: Step)
    requires Control(su, s) && s.planner.PlannerFinished? && k < |s.workers| && !Settled(s.workers[k])
    requires s.caller.CallerSelecting? || s.caller.CallerReturned?
    ensures Enabled(su, s, step) && step != ParentCancel
    ensures s.ctxDone ==> Quiet(step)
  {
    assert EntryOk(su, s, k);
    match s.workers[k] {
      case Dialing => return DialOk(k);
      case Failing(_) => return if s.ctxDone then WorkerDrop(k) else WorkerReport(k);
      case Connected => return if s.ctxDone then WorkerClose(k) else WorkerHand(k);
      case Leaving => return WorkerDone(k);
    }
  }

  /** The step some goroutine can take in a state that is not quiescent. */
  lemma SomeStep(su: Setup, s: State) returns (step: Step)
    requires Inv(su, s) && !Quiescent(s)
    ensures Enabled(su, s, step) && step != ParentCancel
    ensures s.ctxDone || su.ops == [] ==> Quiet(step)
  {
    hide Ownership, Errors, EntryOk;
    TotalZero(Live, s.workers);
    match s.caller {
      case CallerAdding => return CallerAdd;
      case CallerStartingPlanner => return CallerGoPlanner;
      case CallerStartingCloser => return CallerGoCloser;
      case CallerReturning(_) => return CallerCancel;
      case CallerSelecting => if s.errClosed { return CallerSeesClosed; }
      case CallerReturned(_) =>
    }
    if !s.planner.PlannerFinished? {
      step := SomePlannerStep(su, s);
    } else if k: nat :| k < |s.workers| && !Settled(s.workers[k]) {
      step := SomeWorkerStep(su, s, k);
    } else {
      step := if s.closer.CloserWaiting? then CloserWake else CloserClose;
    }
  }

  /** No deadlock: until every goroutine has ended, one of them can move, with or without
      cancellation from outside. */
  lemma Progress(su: Setup, steps: seq<Step>, run: seq<State>)
    requires Execution(su, steps, run) && !Quiescent(run[|steps|])
    ensures exists step :: step != ParentCancel && Enabled(su, run[|steps|], step)
  {
    RunInv(su, steps, run, |steps|);
    var step := SomeStep(su, run[|steps|]);
  }

  const Weight: Worker -> nat := (w: Worker) =>
    match w
    case Unborn => 5
    case Added => 4
    case Dialing => 3
    case Failing(_) => 2
    case Connected => 2
    case Leaving => 1
    case Finished => 0

  function PlannerWeight(n: nat, p: Planner): int {
    match p
    case PlannerUnstarted => n + 3
    case PlannerAt(pc) => n - pc + 2
    case PlannerSpawning(pc) => n - pc + 2
    case PlannerLeaving => 1
    case PlannerFinished => 0
  }

  function CloserWeight(c: Closer): nat {
    match c case CloserUnstarted => 3 case CloserWaiting => 2 case CloserClosing => 1 case CloserFinished => 0
  }

  function CallerWeight(c: Caller): nat {
    match c
    case CallerAdding => 5
    case CallerStartingPlanner => 4
    case CallerStartingCloser => 3
    case CallerSelecting => 2
    case CallerReturning(_) => 1
    case CallerReturned(_) => 0
  }

  /** What planner, closer, caller and parent may still do. */
  function ControlWeight(su: Setup, s: State): int {
    PlannerWeight(|su.ops|, s.planner) + CloserWeight(s.closer) + CallerWeight(s.caller) + (if s.parentCancelled then 0 else 1)
  }

  /** The number of steps still possible is at most this. */
  function Remaining(su: Setup, s: State): int {
    Total(Weight, s.workers) + ControlWeight(su, s)
  }

  lemma WeightStep(su: Setup, s: State, step: Step)
    requires Control(su, s) && Enabled(su, s, step)
    ensures var total, total' := Total(Weight, s.workers), Total(Weight, Next(su, s, step).workers);
            if Moved(s, step).Some? then total' < total else total' == total
  {
    TotalStep(su, s, step, Weight);
    var m := Moved(s, step);
    if m.Some? { assert EntryOk(su, s, m.value); }
  }

  lemma WorkerWeightStep(su: Setup, s: State, step: Step)
    requires Enabled(su, s, step) && Moved(s, step).Some?
    ensures ControlWeight(su, Next(su, s, step)) <= ControlWeight(su, s)
  {
  }

  lemma ControlWeightStep(su: Setup, s: State, step: Step)
    requires Starts(s, step) && Enabled(su, s, step) && !Next(su, s, step).crashed && Moved(s, step).None?
    ensures ControlWeight(su, Next(su, s, step)) < ControlWeight(su, s)
  {
  }

  lemma RemainingStep(su: Setup, s: State, step: Step)
    requires Inv(su, s) && Enabled(su, s, step)
    ensures Remaining(su, Next(su, s, step)) < Remaining(su, s)
  {
    hide Next, Enabled, ControlWeight;
    WgStep(su, s, step);
    PhasesStep(su, s, step);
    WeightStep(su, s, step);
    if Moved(s, step).Some? { WorkerWeightStep(su, s, step); } else { ControlWeightStep(su, s, step); }
  }

  lemma {:induction false} TotalConst(f: Worker -> nat, n: nat, w: Worker)
    ensures Total(f, seq(n, _ => w)) == n * f(w)
  {
    if n > 0 {
      assert seq(n, _ => w)[1..] == seq(n - 1, _ => w);
      TotalConst(f, n - 1, w);
    }
  }

  lemma RemainingInit(su: Setup)
    ensures Remaining(su, Init(su)) == 6 * |su.ops| + 12
  {
    TotalConst(Weight, |su.ops|, Unborn);
  }

  lemma {:induction false} RemainingAlong(su: Setup, steps: seq<Step>, run: seq<State>, i: nat)
    requires Execution(su, steps, run) && i <= |steps|
    ensures i + Remaining(su, run[i]) <= 6 * |su.ops| + 12
  {
    hide Next, Enabled, Inv, Remaining;
    if i == 0 {
      RemainingInit(su);
    } else {
      RemainingAlong(su, steps, run, i - 1);
      RunInv(su, steps, run, i - 1);
      RemainingStep(su, run[i - 1], steps[i - 1]);
    }
  }

  /** No run is longer than six steps a plan entry and twelve more. With `Progress`: every maximal
      run ends with no goroutine left. */
  lemma Termination(su: Setup, steps: seq<Step>, run: seq<State>)
    requires Execution(su, steps, run)
    ensures |steps| + Remaining(su, run[|steps|]) <= 6 * |su.ops| + 12
    ensures |steps| <= 6 * |su.ops| + 12
  {
    RunInv(su, steps, run, |steps|);
    RemainingAlong(su, steps, run, |steps|);
  }

  /** The error that plan entry `k` ended with. */
  function FailureAt(su: Setup, s: State, k: nat): Error
    requires k < |su.ops|
  {
    match su.ops[k]
    case Report(e) => e
    case Attempt(_) => if k in s.failures then s.failures[k] else ""
  }

  function AllFailures(su: Setup, s: State): seq<Error> {
    seq(|su.ops|, k requires 0 <= k < |su.ops| => FailureAt(su, s, k))
  }

  function Texts(ms: seq<Message>): seq<Error> {
    seq(|ms|, i requires 0 <= i < |ms| => ms[i].err)
  }

  /** Messages from pairwise different senders below `|errs|`, each carrying its sender's error,
      and one from every sender. */
  ghost predicate Covers(ms: seq<Message>, errs: seq<Error>) {
    && (forall i, j :: 0 <= i < j < |ms| ==> ms[i].from != ms[j].from)
    && (forall i :: 0 <= i < |ms| ==> ms[i].from < |errs| && ms[i].err == errs[ms[i].from])
    && (forall k :: 0 <= k < |errs| ==> Sent(ms, k))
  }

  lemma CoversRest(ms: seq<Message>, errs: seq<Error>, i: nat)
    requires Covers(ms, errs) && i < |ms| && ms[i].from == |errs| - 1
    ensures Covers(ms[..i] + ms[i + 1..], errs[..|errs| - 1])
  {
    var rest := ms[..i] + ms[i + 1..];
    forall k | 0 <= k < |errs| - 1
      ensures Sent(rest, k)
    {
      assert Sent(ms, k);
      var j :| 0 <= j < |ms| && ms[j].from == k;
      if j < i { assert rest[j].from == k; } else { assert rest[j - 1].from == k; }
    }
  }

  lemma TextsRemove(ms: seq<Message>, i: nat)
    requires i < |ms|
    ensures multiset(Texts(ms)) == multiset(Texts(ms[..i] + ms[i + 1..])) + multiset{ms[i].err}
  {
    var texts := Texts(ms);
    assert texts == texts[..i] + [ms[i].err] + texts[i + 1..];
    assert Texts(ms[..i] + ms[i + 1..]) == texts[..i] + texts[i + 1..];
  }

  lemma SenderKnown(ms: seq<Message>, errs: seq<Error>)
    requires Covers(ms, errs) && ms != []
    ensures errs != []
  {
    assert ms[0].from < |errs|;
  }

  lemma {:induction false} CoverIsPermutation(ms: seq<Message>, errs: seq<Error>)
    requires Covers(ms, errs)
    ensures multiset(Texts(ms)) == multiset(errs)
    decreases |errs|
  {
    if errs == [] {
      if ms != [] {
        SenderKnown(ms, errs);
        assert false;
      }
    } else {
      var n := |errs| - 1;
      assert Sent(ms, n);
      var i :| 0 <= i < |ms| && ms[i].from == n;
      CoversRest(ms, errs, i);
      CoverIsPermutation(ms[..i] + ms[i + 1..], errs[..n]);
      TextsRemove(ms, i);
      assert errs == errs[..n] + [errs[n]];
    }
  }

  /** What the closed channel means when nobody cancelled from outside: every plan entry failed and
      its error was collected. */
  lemma ClosedMeansAllReported(su: Setup, s: State)
    requires Inv(su, s) && !s.parentCancelled && s.handed == [] && s.errClosed
    ensures s.dialed == {}
    ensures multiset(Texts(s.errs)) == multiset(AllFailures(su, s))
    ensures |s.errs| == |su.ops|
    ensures forall k :: 0 <= k < |su.ops| && su.ops[k].Attempt? ==> k in s.failures
  {
    forall k | 0 <= k < |su.ops|
      ensures k !in s.dialed && Sent(s.errs, k) && (su.ops[k].Attempt? ==> k in s.failures)
    {
      assert EntryOk(su, s, k) && ClientOk(s, k);
      assert Over(su, s, k);
      var i :| 0 <= i < |s.errs| && s.errs[i].from == k;
      assert MessageOk(su, s, s.errs[i]);
    }
    forall i | 0 <= i < |s.errs|
      ensures s.errs[i].from < |su.ops| && s.errs[i].err == AllFailures(su, s)[s.errs[i].from]
    {
      assert MessageOk(su, s, s.errs[i]);
    }
    CoverIsPermutation(s.errs, AllFailures(su, s));
    assert |multiset(Texts(s.errs))| == |multiset(AllFailures(su, s))|;
  }

  /** What a returned call has seen when the parent context is never cancelled. */
  lemma UncancelledResult(su: Setup, s: State)
    requires Inv(su, s) && !s.parentCancelled && s.caller.CallerReturned?
    ensures s.caller.result.Client? ==> s.dialed != {}
    ensures !s.caller.result.Client? ==> s.handed == [] && s.errClosed && s.caller.result == ClosedResult(su, s.errs)
  {
    if s.caller.result.Client? {
      assert s.handed[0] in s.handed;
      assert ClientOk(s, s.handed[0]);
    }
  }

  /** The outcome when the parent context is never cancelled. A call returns a client exactly
      when some attempt connected, and an error exactly when none did; an aggregate holds every
      failure, one for each action of the planner; and the two "no connection methods" errors mean
      that the planner had nothing to do. */
  lemma UncancelledOutcome(su: Setup, steps: seq<Step>, run: seq<State>)
    requires Execution(su, steps, run) && !run[|steps|].parentCancelled
    requires run[|steps|].caller.CallerReturned?
    ensures var s := run[|steps|];
            var r := s.caller.result;
            && !r.ContextError?
            && (r.Client? <==> s.dialed != {})
            && (r.AllFailed? ==> && |r.errs| == |su.ops| && multiset(Texts(r.errs)) == multiset(AllFailures(su, s))
                                 && forall k :: 0 <= k < |su.ops| && su.ops[k].Attempt? ==> k in s.failures)
            && (r.NoMethodsConfigured? ==> su.ops == [] && !su.anyMethod)
            && (r.NoMethodsFound? ==> su.ops == [] && su.anyMethod)
  {
    RunInv(su, steps, run, |steps|);
    var s := run[|steps|];
    UncancelledResult(su, s);
    if !s.caller.result.Client? {
      ClosedMeansAllReported(su, s);
    }
  }

  /** A validated configuration, which has credentials, is never told "no connection methods found"
      unless the parent context was cancelled. */
  lemma MethodsFound(cfg: Config, steps: seq<Step>, run: seq<State>)
    requires Execution(SetupOf(cfg), steps, run) && cfg.credentials != []
    requires run[|steps|].caller == CallerReturned(NoMethodsFound)
    ensures run[|steps|].parentCancelled
  {
    if !run[|steps|].parentCancelled {
      UncancelledOutcome(SetupOf(cfg), steps, run);
      PlanEmptyIff(cfg);
    }
  }

  // ---- when "no connection methods found" can be the answer ----

  /** The caller has that answer, or it has none yet and has collected no error. */
  predicate NoneOpen(s: State) {
    if s.caller.HasResult() then s.caller.result.NoMethodsFound? else s.errs == []
  }

  /** A run and one that continues it. */
  ghost predicate Continues(su: Setup, steps: seq<Step>, run: seq<State>, steps': seq<Step>, run': seq<State>) {
    && Execution(su, steps, run) && Execution(su, steps', run')
    && steps <= steps' && run <= run'
  }

  lemma Extend(su: Setup, steps: seq<Step>, run: seq<State>, step: Step) returns (steps': seq<Step>, run': seq<State>)
    requires Execution(su, steps, run) && Enabled(su, run[|steps|], step)
    ensures Continues(su, steps, run, steps', run') && |steps'| == |steps| + 1
    ensures run'[|steps'|] == Next(su, run[|steps|], step)
  {
    hide Next, Enabled, Init;
    steps', run' := steps + [step], run + [Next(su, run[|steps|], step)];
  }

  lemma QuietKeepsOpen(su: Setup, s: State, step: Step)
    requires su.anyMethod && NoneOpen(s) && Enabled(su, s, step) && Quiet(step)
    ensures NoneOpen(Next(su, s, step)) && (s.ctxDone ==> Next(su, s, step).ctxDone)
    ensures step != ParentCancel ==> Next(su, s, step).parentCancelled == s.parentCancelled
  {
  }

  /** Once the context is done, or if the planner has nothing to do, everything can end without another
      word to the caller. */
  lemma {:induction false} EndQuietly(su: Setup, steps: seq<Step>, run: seq<State>) returns (steps': seq<Step>, run': seq<State>)
    requires Execution(su, steps, run) && su.anyMethod
    requires NoneOpen(run[|steps|]) && (run[|steps|].ctxDone || su.ops == [])
    ensures Continues(su, steps, run, steps', run') && Quiescent(run'[|steps'|])
    ensures run'[|steps'|].caller == CallerReturned(NoMethodsFound)
    ensures run'[|steps'|].parentCancelled == run[|steps|].parentCancelled
    decreases 6 * |su.ops| + 12 - |steps|
  {
    hide Next, Enabled, Inv;
    var s := run[|steps|];
    if Quiescent(s) {
      steps', run' := steps, run;
    } else {
      RunInv(su, steps, run, |steps|);
      var step := SomeStep(su, s);
      QuietKeepsOpen(su, s, step);
      var steps1, run1 := Extend(su, steps, run, step);
      Termination(su, steps, run);
      Termination(su, steps1, run1);
      hide Execution;
      steps', run' := EndQuietly(su, steps1, run1);
      ContinuesTrans(su, steps, run, steps1, run1, steps', run');
    }
  }

  lemma ContinuesTrans(su: Setup, a: seq<Step>, ra: seq<State>, b: seq<Step>, rb: seq<State>, c: seq<Step>, rc: seq<State>)
    requires Continues(su, a, ra, b, rb) && Continues(su, b, rb, c, rc)
    ensures Continues(su, a, ra, c, rc)
  {
    hide Execution;
  }

  /** From every state of every run in which the caller has heard nothing, a cancellation from outside can
      make "no connection methods found" the answer, whatever was dialed, failed or connected. */
  lemma CancelledCanFindNoMethods(su: Setup, steps: seq<Step>, run: seq<State>) returns (steps': seq<Step>, run': seq<State>)
    requires Execution(su, steps, run) && su.anyMethod && NoneOpen(run[|steps|])
    ensures Continues(su, steps, run, steps', run') && Quiescent(run'[|steps'|])
    ensures run'[|steps'|].caller == CallerReturned(NoMethodsFound)
  {
    RunInv(su, steps, run, |steps|);
    if run[|steps|].ctxDone {
      steps', run' := EndQuietly(su, steps, run);
    } else {
      var steps1, run1 := Extend(su, steps, run, ParentCancel);
      steps', run' := EndQuietly(su, steps1, run1);
      ContinuesTrans(su, steps, run, steps1, run1, steps', run');
    }
  }

  lemma OpenBefore(su: Setup, s: State, step: Step)
    requires Enabled(su, s, step) && NoneOpen(Next(su, s, step))
    ensures NoneOpen(s)
  {
  }

  lemma {:induction false} OpenAlong(su: Setup, steps: seq<Step>, run: seq<State>, i: nat)
    requires Execution(su, steps, run) && i <= |steps| && NoneOpen(run[|steps|])
    ensures NoneOpen(run[i])
    decreases |steps| - i
  {
    hide Next, Enabled, NoneOpen;
    if i < |steps| {
      OpenAlong(su, steps, run, i + 1);
      OpenBefore(su, run[i], steps[i]);
    }
  }

  /** A run can still end in "no connection methods found" exactly when some dialer or address is
      configured and the caller has heard nothing else. */
  lemma NoMethodsFoundFrom(su: Setup, steps: seq<Step>, run: seq<State>)
    requires Execution(su, steps, run)
    ensures (exists steps': seq<Step>, run': seq<State> :: Continues(su, steps, run, steps', run') && run'[|steps'|].caller == CallerReturned(NoMethodsFound))
       <==> su.anyMethod && NoneOpen(run[|steps|])
  {
    if su.anyMethod && NoneOpen(run[|steps|]) {
      var steps', run' := CancelledCanFindNoMethods(su, steps, run);
    }
    forall steps': seq<Step>, run': seq<State> | Continues(su, steps, run, steps', run') && run'[|steps'|].caller == CallerReturned(NoMethodsFound)
      ensures su.anyMethod && NoneOpen(run[|steps|])
    {
      RunInv(su, steps', run', |steps'|);
      OpenAlong(su, steps', run', |steps|);
    }
  }

  /** Some run ends with that answer, with or without a cancellation from outside. */
  ghost predicate CanFindNoMethods(su: Setup, cancelled: bool) {
    exists steps: seq<Step>, run: seq<State> :: Execution(su, steps, run)
      && run[|steps|].caller == CallerReturned(NoMethodsFound) && run[|steps|].parentCancelled == cancelled
  }

  /** Exactly which configurations can get the answer that is meant never to be given: after a
      cancellation, every one that names a dialer or an address; without, only one that has no
      credentials, which validation refuses. */
  lemma NoMethodsFoundIff(cfg: Config)
    ensures CanFindNoMethods(SetupOf(cfg), true) <==> cfg.hasDialer || cfg.addrs != []
    ensures CanFindNoMethods(SetupOf(cfg), false) <==> (cfg.hasDialer || cfg.addrs != []) && cfg.credentials == []
  {
    var su := SetupOf(cfg);
    var start := [Init(su)];
    assert Execution(su, [], start);
    if su.anyMethod {
      var steps1, run1 := Extend(su, [], start, ParentCancel);
      var steps, run := EndQuietly(su, steps1, run1);
      if cfg.credentials == [] {
        var steps0, run0 := EndQuietly(su, [], start);
      }
    }
    forall steps: seq<Step>, run: seq<State> | Execution(su, steps, run) && run[|steps|].caller == CallerReturned(NoMethodsFound)
      ensures su.anyMethod && (cfg.credentials != [] ==> run[|steps|].parentCancelled)
    {
      RunInv(su, steps, run, |steps|);
      if cfg.credentials != [] { MethodsFound(cfg, steps, run); }
    }
  }

  // ---- what history means, and what can happen ----

  lemma DialStep(su: Setup, s: State, step: Step, k: nat)
    requires Enabled(su, s, step)
    ensures var t := Next(su, s, step);
            && (k in t.dialed <==> k in s.dialed || step == DialOk(k))
            && (k in t.failures <==> k in s.failures || (step.DialErr? && step.k == k))
            && (k in t.failures ==> t.failures[k] == if step.DialErr? && step.k == k then step.err else s.failures[k])
  {
    match step { case DialOk(_) => case DialErr(_, _) => case _ => }
  }

  lemma ReleaseStep(su: Setup, s: State, step: Step, k: nat)
    requires Enabled(su, s, step)
    ensures var t := Next(su, s, step);
            && (k in t.handed <==> k in s.handed || step == WorkerHand(k))
            && t.closes[k] == s.closes[k] + if step == WorkerClose(k) then 1 else 0
  {
    match step { case WorkerClose(_) => case WorkerHand(_) => case _ => }
  }

  /** What is recorded about attempt `k` is what these steps did. */
  ghost predicate Dials(s: State, done: seq<Step>, k: nat) {
    && (k in s.dialed <==> DialOk(k) in done)
    && (k in s.failures ==> DialErr(k, s.failures[k]) in done)
    && (forall err :: DialErr(k, err) in done ==> k in s.failures)
  }

  ghost predicate Releases(s: State, done: seq<Step>, k: nat) {
    (k in s.handed <==> WorkerHand(k) in done) && s.closes[k] == multiset(done)[WorkerClose(k)]
  }

  lemma HistoryStep(su: Setup, s: State, step: Step, done: seq<Step>, k: nat)
    requires Enabled(su, s, step) && Dials(s, done, k) && Releases(s, done, k)
    ensures Dials(Next(su, s, step), done + [step], k) && Releases(Next(su, s, step), done + [step], k)
  {
    DialStep(su, s, step, k);
    ReleaseStep(su, s, step, k);
    hide Next, Enabled;
    assert forall x :: x in done + [step] <==> x in done || x == step;
  }

  lemma HistoryStarts(su: Setup, k: nat)
    ensures Dials(Init(su), [], k) && Releases(Init(su), [], k)
  {
  }

  lemma {:induction false} HistoryAlong(su: Setup, steps: seq<Step>, run: seq<State>, i: nat, k: nat)
    requires Execution(su, steps, run) && i <= |steps|
    ensures Dials(run[i], steps[..i], k) && Releases(run[i], steps[..i], k)
  {
    hide Next, Enabled, Init, Dials, Releases;
    if i == 0 {
      HistoryStarts(su, k);
      assert steps[..0] == [];
    } else {
      HistoryAlong(su, steps, run, i - 1, k);
      HistoryStep(su, run[i - 1], steps[i - 1], steps[..i - 1], k);
      assert steps[..i] == steps[..i - 1] + [steps[i - 1]];
    }
  }

  /** The history at the end of a run is what its steps did: who connected, who failed with which error, who
      was handed over and how often each client was closed. */
  lemma HistoryIsRun(su: Setup, steps: seq<Step>, run: seq<State>, k: nat)
    requires Execution(su, steps, run)
    ensures var s := run[|steps|];
            && (k in s.dialed <==> DialOk(k) in steps)
            && (k in s.failures ==> DialErr(k, s.failures[k]) in steps)
            && (forall err :: DialErr(k, err) in steps ==> k in s.failures)
            && (k in s.handed <==> WorkerHand(k) in steps)
            && s.closes[k] == multiset(steps)[WorkerClose(k)]
  {
    HistoryAlong(su, steps, run, |steps|, k);
    hide Execution;
    assert steps[..|steps|] == steps;
  }

  /** The planner stands before entry `k`, and everybody is at work. */
  predicate Underway(s: State, k: nat) {
    s.planner == PlannerAt(k) && s.caller.CallerSelecting? && s.closer.CloserWaiting? && !s.errClosed && !s.parentCancelled
  }

  lemma {:induction false} ReachEntry(su: Setup, k: nat) returns (steps: seq<Step>, run: seq<State>)
    requires k <= |su.ops|
    ensures Execution(su, steps, run) && Underway(run[|steps|], k)
  {
    hide Execution;
    if k == 0 {
      steps, run := Begin(su);
    } else {
      steps, run := ReachEntry(su, k - 1);
      steps, run := PassEntry(su, steps, run, k - 1);
    }
  }

  lemma Begin(su: Setup) returns (steps: seq<Step>, run: seq<State>)
    ensures Execution(su, steps, run) && Underway(run[|steps|], 0)
  {
    steps, run := [], [Init(su)];
    assert Execution(su, steps, run);
    hide Execution;
    steps, run := Extend(su, steps, run, CallerAdd);
    steps, run := Extend(su, steps, run, CallerGoPlanner);
    steps, run := Extend(su, steps, run, CallerGoCloser);
  }

  /** The planner gets past entry `k`, which if it is an attempt is then being dialed. */
  lemma PassEntry(su: Setup, steps: seq<Step>, run: seq<State>, k: nat) returns (steps': seq<Step>, run': seq<State>)
    requires Execution(su, steps, run) && Underway(run[|steps|], k) && k < |su.ops|
    ensures Execution(su, steps', run') && Underway(run'[|steps'|], k + 1)
    ensures su.ops[k].Attempt? ==> WorkerIs(run'[|steps'|], k, Dialing)
  {
    RunInv(su, steps, run, |steps|);
    hide Execution, Inv;
    if su.ops[k].Report? {
      steps', run' := Extend(su, steps, run, PlannerReport);
    } else {
      steps', run' := Extend(su, steps, run, PlannerAdd);
      RunInv(su, steps', run', |steps'|);
      steps', run' := Extend(su, steps', run', PlannerGo);
    }
  }

  /** Every attempt of the plan can win: some run without any cancellation from outside returns its client. */
  lemma AnyAttemptCanWin(su: Setup, k: nat) returns (steps: seq<Step>, run: seq<State>)
    requires k < |su.ops| && su.ops[k].Attempt?
    ensures Execution(su, steps, run) && !run[|steps|].parentCancelled
    ensures run[|steps|].caller == CallerReturned(Client(k))
  {
    steps, run := ReachEntry(su, k);
    steps, run := PassEntry(su, steps, run, k);
    RunInv(su, steps, run, |steps|);
    hide Execution, Inv;
    steps, run := Extend(su, steps, run, DialOk(k));
    steps, run := Extend(su, steps, run, WorkerHand(k));
    steps, run := Extend(su, steps, run, CallerCancel);
  }

  /** So each way to connect that a configuration allows can be the one whose client is returned; for instance the reverse
      tunnel of any address, if some credential has TLS and SSH settings. */
  lemma AnyTargetCanWin(cfg: Config, target: Target) returns (steps: seq<Step>, run: seq<State>, k: nat)
    requires Attempt(target) in Plan(cfg)
    ensures Execution(SetupOf(cfg), steps, run) && !run[|steps|].parentCancelled
    ensures run[|steps|].caller == CallerReturned(Client(k)) && k < |Plan(cfg)| && Plan(cfg)[k] == Attempt(target)
  {
    k :| 0 <= k < |Plan(cfg)| && Plan(cfg)[k] == Attempt(target);
    steps, run := AnyAttemptCanWin(SetupOf(cfg), k);
  }

  lemma FreeChoice(su: Setup, s: State)
    requires Control(su, s)
    ensures s.caller.CallerSelecting? && s.ctxDone ==> Enabled(su, s, CallerSeesCancel)
    ensures PlannerSending(su, s) ==>
              (s.caller.CallerSelecting? ==> Enabled(su, s, PlannerReport)) && (s.ctxDone ==> Enabled(su, s, PlannerDrop))
    ensures forall k :: WorkerIs(s, k, Dialing) ==> Enabled(su, s, DialOk(k)) && forall err :: Enabled(su, s, DialErr(k, err))
    ensures forall k :: WorkerFailing(s, k) ==>
              (s.caller.CallerSelecting? ==> Enabled(su, s, WorkerReport(k))) && (s.ctxDone ==> Enabled(su, s, WorkerDrop(k)))
    ensures forall k :: WorkerIs(s, k, Connected) ==>
              (s.caller.CallerSelecting? ==> Enabled(su, s, WorkerHand(k))) && (s.ctxDone ==> Enabled(su, s, WorkerClose(k)))
  {
    Safe(su, s);
    hide Control;
    forall k | WorkerFailing(s, k) ensures !s.errClosed {
      assert !Enabled(su, s, WorkerSendOnClosed(k));
    }
    assert PlannerSending(su, s) ==> !Enabled(su, s, PlannerSendOnClosed);
  }

  /** No select is biased: in every state of every run, whichever cases are ready can each be the one that happens. A
      caller can take the cancellation although clients and errors wait, or take them although it is cancelled; a
      goroutine can give up once the context is done, or still be heard; and every dial can end either way. */
  lemma SelectsAreFree(su: Setup, steps: seq<Step>, run: seq<State>)
    requires Execution(su, steps, run)
    ensures var s := run[|steps|];
            && (s.caller.CallerSelecting? && s.ctxDone ==> Enabled(su, s, CallerSeesCancel))
            && (PlannerSending(su, s) ==>
                  (s.caller.CallerSelecting? ==> Enabled(su, s, PlannerReport)) && (s.ctxDone ==> Enabled(su, s, PlannerDrop)))
            && (forall k :: WorkerIs(s, k, Dialing) ==> Enabled(su, s, DialOk(k)) && forall err :: Enabled(su, s, DialErr(k, err)))
            && (forall k :: WorkerFailing(s, k) ==>
                  (s.caller.CallerSelecting? ==> Enabled(su, s, WorkerReport(k))) && (s.ctxDone ==> Enabled(su, s, WorkerDrop(k))))
            && (forall k :: WorkerIs(s, k, Connected) ==>
                  (s.caller.CallerSelecting? ==> Enabled(su, s, WorkerHand(k))) && (s.ctxDone ==> Enabled(su, s, WorkerClose(k))))
  {
    RunInv(su, steps, run, |steps|);
    hide Enabled, Execution;
    FreeChoice(su, run[|steps|]);
  }

  /** So a caller that is waiting when the context is cancelled can return at once, whatever else is ready. */
  lemma CancelReturnsAtOnce(su: Setup, steps: seq<Step>, run: seq<State>) returns (steps': seq<Step>, run': seq<State>)
    requires Execution(su, steps, run) && run[|steps|].caller.CallerSelecting? && run[|steps|].ctxDone
    ensures Continues(su, steps, run, steps', run') && |steps'| == |steps| + 2
    ensures run'[|steps'|].caller == CallerReturned(ContextError)
  {
    SelectsAreFree(su, steps, run);
    hide Execution;
    steps', run' := Extend(su, steps, run, CallerSeesCancel);
    steps', run' := Extend(su, steps', run', CallerCancel);
  }
}
