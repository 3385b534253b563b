/** The recorder of open system calls (bpf/enhancedrecording/disk.bpf.c, bpf/helpers.h): enter and
    exit probes of all threads, paired through a bounded map. Here a probe is one step; module
    `OpenRecorderKernel` takes it apart. */
module OpenRecorder {

  const INFLIGHT_MAX := 8192
  const TWO32 := 0x1_0000_0000
  const TWO64 := 0x1_0000_0000_0000_0000

  /** bpf_get_current_pid_tgid(): process in the upper half, thread in the lower. */
  type Id = i: int | 0 <= i < TWO64

  datatype Val = Val(pid: int, fname: int, flags: int)

  datatype Record = Record(pid: int, fname: int, flags: int, ret: int, cgroup: int)

  /** One probe hit. `room` says whether the event ring accepts a record at that moment. */
  datatype Probe = Enter(id: Id, fname: int, flags: int) | Exit(id: Id, ret: int, cgroup: int, room: bool)

  datatype State = State(infotmp: map<Id, Val>, events: seq<Record>, lost: int)

  const INIT := State(map[], [], 0)

  /** bpf_map_update_elem: an existing key is overwritten, a new one needs room. */
  predicate CanStore(m: map<Id, Val>, id: Id) {
    id in m || |m| < INFLIGHT_MAX
  }

  function Step(s: State, p: Probe): State {
    match p
    case Enter(id, fname, flags) =>
      if CanStore(s.infotmp, id) then s.(infotmp := s.infotmp[id := Val(id / TWO32, fname, flags)]) else s
    case Exit(id, ret, cgroup, room) =>
      if id !in s.infotmp then s
      else
        var v := s.infotmp[id];
        State(s.infotmp - {id},
              if room then s.events + [Record(v.pid, v.fname, v.flags, ret, cgroup)] else s.events,
              if room then s.lost else (s.lost + 1) % TWO64)
  }

  /** What an enter does: the process is the upper half of the identifier, an entry of the thread is overwritten,
      and a new one needs one of 8192 places. */
  lemma EnterMeans(s: State, pid: int, tid: int, fname: int, flags: int)
    requires 0 <= pid < 0x1_0000_0000 && 0 <= tid < 0x1_0000_0000
    ensures var id: Id := pid * 0x1_0000_0000 + tid;
            var t := Step(s, Enter(id, fname, flags));
            && t.events == s.events && t.lost == s.lost
            && t.infotmp == if id in s.infotmp || |s.infotmp| < 8192 then s.infotmp[id := Val(pid, fname, flags)] else s.infotmp
  {
    assert (pid * 0x1_0000_0000 + tid) / 0x1_0000_0000 == pid;
  }

  /** What an exit does: nothing without an entry; otherwise the entry goes, and its data with the exit's goes to the ring, or the
      lost counter of 64 bits is incremented. */
  lemma ExitMeans(s: State, id: Id, ret: int, cgroup: int, room: bool)
    ensures var t := Step(s, Exit(id, ret, cgroup, room));
            && (id !in s.infotmp ==> t == s)
            && (id in s.infotmp ==>
                  && t.infotmp == (map k | k in s.infotmp && k != id :: s.infotmp[k])
                  && (room ==> t.lost == s.lost && |t.events| == |s.events| + 1 && t.events[..|s.events|] == s.events)
                  && (room ==> var r, v := t.events[|s.events|], s.infotmp[id];
                               r.pid == v.pid && r.fname == v.fname && r.flags == v.flags && r.ret == ret && r.cgroup == cgroup)
                  && (!room ==> t.events == s.events && t.lost == (s.lost + 1) % 0x1_0000_0000_0000_0000))
  {
  }

  function Run(trace: seq<Probe>): State {
    if trace == [] then INIT else Step(Run(trace[..|trace| - 1]), trace[|trace| - 1])
  }

  // ---- the history of a thread, read off the trace alone ----

  /** The position of the thread's latest probe, if it has had any. */
  function Latest(trace: seq<Probe>, id: Id): (i: int)
    ensures -1 <= i < |trace|
    ensures i >= 0 ==> trace[i].id == id
    ensures forall j :: i < j < |trace| ==> trace[j].id != id
  {
    if trace == [] then -1
    else if trace[|trace| - 1].id == id then |trace| - 1
    else Latest(trace[..|trace| - 1], id)
  }

  /** The enter probe at `i` got its entry into the map. */
  predicate Stored(trace: seq<Probe>, i: nat)
    requires i < |trace|
  {
    trace[i].Enter? && CanStore(Run(trace[..i]).infotmp, trace[i].id)
  }

  /** The thread is inside a call whose enter probe was stored. */
  predicate InFlight(trace: seq<Probe>, id: Id) {
    Latest(trace, id) >= 0 && Stored(trace, Latest(trace, id))
  }

  lemma StoredPrefix(trace: seq<Probe>, n: nat, i: nat)
    requires i < n <= |trace|
    ensures Stored(trace[..n], i) <==> Stored(trace, i)
  {
    assert trace[..n][..i] == trace[..i];
  }

  /** After any probes the map holds exactly the threads inside a stored call, each with the
      process, name and flags of that call, and never more than it has room for. */
  lemma {:induction false} MapExact(trace: seq<Probe>)
    ensures |Run(trace).infotmp| <= INFLIGHT_MAX
    ensures forall id: Id :: id in Run(trace).infotmp <==> InFlight(trace, id)
    ensures forall id: Id :: InFlight(trace, id) ==>
              var e := trace[Latest(trace, id)]; Run(trace).infotmp[id] == Val(id / TWO32, e.fname, e.flags)
  {
    if trace == [] {
      assert Run([]) == INIT;
    } else {
      hide InFlight, Step, CanStore, Stored;
      var n := |trace| - 1;
      var before := trace[..n];
      MapExact(before);
      MapSizeStep(Run(before), trace[n]);
      forall id: Id
        ensures id in Run(trace).infotmp <==> InFlight(trace, id)
        ensures id in Run(trace).infotmp ==>
                  var e := trace[Latest(trace, id)]; Run(trace).infotmp[id] == Val(id / TWO32, e.fname, e.flags)
      {
        MapExactAt(trace, id);
      }
    }
  }

  lemma MapSizeStep(s: State, p: Probe)
    requires |s.infotmp| <= INFLIGHT_MAX
    ensures |Step(s, p).infotmp| <= INFLIGHT_MAX
  {
    var m, m' := s.infotmp, Step(s, p).infotmp;
    match p {
      case Enter(id, _, _) =>
        if CanStore(m, id) { assert m'.Keys == m.Keys + {id}; }
        if id in m { assert m'.Keys == m.Keys; }
      case Exit(id, _, _, _) =>
        if id in m { assert m'.Keys == m.Keys - {id}; }
    }
    assert |m.Keys| == |m| && |m'.Keys| == |m'|;
  }

  lemma MapExactAt(trace: seq<Probe>, id: Id)
    requires trace != []
    requires var before := trace[..|trace| - 1];
             && (id in Run(before).infotmp <==> InFlight(before, id))
             && (id in Run(before).infotmp ==>
                   var e := before[Latest(before, id)]; Run(before).infotmp[id] == Val(id / TWO32, e.fname, e.flags))
    ensures id in Run(trace).infotmp <==> InFlight(trace, id)
    ensures id in Run(trace).infotmp ==>
              var e := trace[Latest(trace, id)]; Run(trace).infotmp[id] == Val(id / TWO32, e.fname, e.flags)
  {
    var n := |trace| - 1;
    if trace[n].id != id && Latest(trace, id) >= 0 {
      StoredPrefix(trace, n, Latest(trace, id));
    }
  }

  // ---- what is delivered and what is lost ----

  /** The records that the exits of stored calls produce when the ring has room, in order; each is
      made from the exit and from the enter probe of that same call. */
  function Deliveries(trace: seq<Probe>): seq<Record> {
    if trace == [] then []
    else
      var before, p := trace[..|trace| - 1], trace[|trace| - 1];
      if p.Exit? && InFlight(before, p.id) && p.room
      then
        var e := before[Latest(before, p.id)];
        Deliveries(before) + [Record(p.id / TWO32, e.fname, e.flags, p.ret, p.cgroup)]
      else Deliveries(before)
  }

  /** How many exits ended a stored call. */
  function Completed(trace: seq<Probe>): nat {
    if trace == [] then 0
    else
      var before, p := trace[..|trace| - 1], trace[|trace| - 1];
      Completed(before) + if p.Exit? && InFlight(before, p.id) then 1 else 0
  }

  /** One more probe, in terms of the history. */
  lemma StepByHistory(before: seq<Probe>, p: Probe)
    ensures var s, t := Run(before), Step(Run(before), p);
            if p.Exit? && InFlight(before, p.id)
            then var e := before[Latest(before, p.id)];
                 if p.room then t.lost == s.lost && t.events == s.events + [Record(p.id / TWO32, e.fname, e.flags, p.ret, p.cgroup)]
                 else t.events == s.events && t.lost == (s.lost + 1) % TWO64
            else t.events == s.events && t.lost == s.lost
  {
    hide InFlight, Run;
    MapExact(before);
  }

  /** After any probes the ring holds the records of the stored calls, with the enter data of the
      same thread and call, and delivered records and lost count add up to the completed calls. */
  lemma {:induction false} Conservation(trace: seq<Probe>)
    ensures Run(trace).events == Deliveries(trace)
    ensures |Deliveries(trace)| <= Completed(trace)
    ensures Run(trace).lost == (Completed(trace) - |Run(trace).events|) % TWO64
    ensures Completed(trace) < TWO64 ==> |Run(trace).events| + Run(trace).lost == Completed(trace)
  {
    hide InFlight, Step;
    if trace != [] {
      var before := trace[..|trace| - 1];
      Conservation(before);
      StepByHistory(before, trace[|trace| - 1]);
      WrapStep(Completed(before) - |Deliveries(before)|);
    }
  }

  lemma WrapStep(x: int)
    ensures (x % TWO64 + 1) % TWO64 == (x + 1) % TWO64
  {
  }

  // ---- threads that alternate ----

  /** Every exit follows an enter of the same thread, and every enter the exit of an earlier call. */
  predicate Alternates(trace: seq<Probe>) {
    forall x :: 0 <= x < |trace| ==>
      var i := Latest(trace[..x], trace[x].id);
      if trace[x].Exit? then i >= 0 && trace[i].Enter? else i >= 0 ==> trace[i].Exit?
  }

  /** When threads alternate, an exit finds no entry, and leaves nothing in the ring or the lost count, exactly
      when the map was full when its call began. */
  lemma MissedIff(trace: seq<Probe>, x: nat)
    requires Alternates(trace) && x < |trace| && trace[x].Exit?
    ensures var i := Latest(trace[..x], trace[x].id);
            i >= 0 && (!InFlight(trace[..x], trace[x].id) <==> |Run(trace[..i]).infotmp| == INFLIGHT_MAX)
  {
    var id := trace[x].id;
    var i := Latest(trace[..x], id);
    assert trace[..x][..i] == trace[..i];
    MapExact(trace[..i]);
    FreshEnter(trace, i);
  }

  /** The enter of an alternating thread finds no entry of its own. */
  lemma FreshEnter(trace: seq<Probe>, i: nat)
    requires Alternates(trace) && i < |trace| && trace[i].Enter?
    ensures !InFlight(trace[..i], trace[i].id)
  {
    var k := Latest(trace[..i], trace[i].id);
    if k >= 0 { assert trace[..i][k] == trace[k]; }
  }
}

/** The same probes as the kernel runs them, on several processors: each call to a map, the ring or the
    counter is a step of its own, and steps of different threads interleave. */
module OpenRecorderKernel {
  import opened OpenRecorder

  /** Where a thread is inside `exit_open`. */
  datatype ExitAt =
    | Found(ret: int)                        // has a pointer to the map entry, has not read it
    | Built(data: Record)
    | Refused(data: Record)                  // the ring was full, the counter is next
    | Ending(data: Record, delivered: bool)  // delivered or counted, the entry is to be deleted

  datatype Kernel = Kernel(infotmp: map<Id, Val>, events: seq<Record>, lost: int, exits: map<Id, ExitAt>)

  const BOOT := Kernel(map[], [], 0, map[])

  /** One operation of one thread. `stale` is what reading through a pointer to a freed entry would give. */
  datatype Op =
    | Update(id: Id, fname: int, flags: int)
    | Lookup(id: Id, ret: int)
    | Copy(id: Id, cgroup: int, stale: Val)
    | Output(id: Id, room: bool)
    | Count(id: Id)
    | Delete(id: Id)

  /** The thread stands where its program does this operation next. */
  predicate Due(s: Kernel, op: Op) {
    match op
    case Update(id, _, _) => id !in s.exits
    case Lookup(id, _) => id !in s.exits
    case Copy(id, _, _) => id in s.exits && s.exits[id].Found?
    case Output(id, _) => id in s.exits && s.exits[id].Built?
    case Count(id) => id in s.exits && s.exits[id].Refused?
    case Delete(id) => id in s.exits && s.exits[id].Ending?
  }

  /** An operation that is not due changes nothing, so every sequence of operations is an interleaving. */
  function Perform(s: Kernel, op: Op): Kernel {
    if !Due(s, op) then s
    else
      match op
      case Update(id, fname, flags) =>
        if CanStore(s.infotmp, id) then s.(infotmp := s.infotmp[id := Val(id / TWO32, fname, flags)]) else s
      case Lookup(id, ret) =>
        if id in s.infotmp then s.(exits := s.exits[id := Found(ret)]) else s
      case Copy(id, cgroup, stale) =>
        var v := if id in s.infotmp then s.infotmp[id] else stale;
        s.(exits := s.exits[id := Built(Record(v.pid, v.fname, v.flags, s.exits[id].ret, cgroup))])
      case Output(id, room) =>
        var data := s.exits[id].data;
        if room then s.(events := s.events + [data], exits := s.exits[id := Ending(data, true)])
        else s.(exits := s.exits[id := Refused(data)])
      case Count(id) =>
        s.(lost := (s.lost + 1) % TWO64, exits := s.exits[id := Ending(s.exits[id].data, false)])
      case Delete(id) =>
        s.(infotmp := s.infotmp - {id}, exits := s.exits - {id})
  }

  function Execute(ops: seq<Op>): Kernel {
    if ops == [] then BOOT else Perform(Execute(ops[..|ops| - 1]), ops[|ops| - 1])
  }

  // ---- the whole probes of an interleaving ----

  /** The probe that an operation makes take effect on the map: an update is an enter; a lookup that finds
      nothing, or the deletion at the end, is an exit. */
  function Effect(s: Kernel, op: Op): seq<Probe> {
    if !Due(s, op) then []
    else
      match op
      case Update(id, fname, flags) => [Enter(id, fname, flags)]
      case Lookup(id, ret) => if id in s.infotmp then [] else [Exit(id, ret, 0, false)]
      case Delete(id) => var e := s.exits[id]; [Exit(id, e.data.ret, e.data.cgroup, e.delivered)]
      case _ => []
  }

  function Probes(ops: seq<Op>): seq<Probe> {
    if ops == [] then [] else Probes(ops[..|ops| - 1]) + Effect(Execute(ops[..|ops| - 1]), ops[|ops| - 1])
  }

  /** The threads past the ring and the counter, whose record was delivered or was not. */
  function Ended(exits: map<Id, ExitAt>, delivered: bool): set<Id> {
    set id | id in exits && Past(exits[id], delivered)
  }

  predicate Past(e: ExitAt, delivered: bool) {
    e.Ending? && e.delivered == delivered
  }

  /** Those that delivered this record. */
  function Delivered(exits: map<Id, ExitAt>, r: Record): set<Id> {
    set id | id in exits && exits[id] == Ending(r, true)
  }

  /** The record of a thread's exit, made from its map entry. */
  predicate FromEntry(r: Record, v: Val) {
    r == Record(v.pid, v.fname, v.flags, r.ret, r.cgroup)
  }

  /** Between lookup and deletion the entry stays, and what was read from it is what it holds. */
  predicate Pinned(s: Kernel) {
    forall id :: id in s.exits ==> id in s.infotmp && (s.exits[id].Found? || FromEntry(s.exits[id].data, s.infotmp[id]))
  }

  /** Ring and counter hold what whole probes have put there and what unfinished exits have. */
  ghost predicate Tallies(s: Kernel, t: State) {
    && |s.events| == |t.events| + |Ended(s.exits, true)|
    && s.lost == (t.lost + |Ended(s.exits, false)|) % TWO64
    && (forall r :: multiset(s.events)[r] == multiset(t.events)[r] + |Delivered(s.exits, r)|)
  }

  /** The kernel state against the state after whole probes. */
  ghost predicate Refines(s: Kernel, t: State) {
    Pinned(s) && s.infotmp == t.infotmp && Tallies(s, t)
  }

  function After(t: State, ps: seq<Probe>): State
    requires |ps| <= 1
  {
    if ps == [] then t else Step(t, ps[0])
  }

  lemma PinnedStep(s: Kernel, op: Op)
    requires Pinned(s)
    ensures Pinned(Perform(s, op))
  {
  }

  lemma MapStep(s: Kernel, t: State, op: Op)
    requires Pinned(s) && s.infotmp == t.infotmp
    ensures Perform(s, op).infotmp == After(t, Effect(s, op)).infotmp
  {
  }

  /** Moving one thread to `e`, or out, counts that thread only. */
  lemma EndedMove(exits: map<Id, ExitAt>, id: Id, e: ExitAt, delivered: bool)
    requires !(id in exits && exits[id].Ending?)
    ensures |Ended(exits[id := e], delivered)| == |Ended(exits, delivered)| + if Past(e, delivered) then 1 else 0
  {
    assert id in exits ==> !Past(exits[id], delivered);
    hide Past;
    var before, after := Ended(exits, delivered), Ended(exits[id := e], delivered);
    if Past(e, delivered) { assert after == before + {id}; } else { assert after == before; }
  }

  lemma DeliveredMove(exits: map<Id, ExitAt>, id: Id, e: ExitAt, r: Record)
    requires !(id in exits && exits[id].Ending?)
    ensures |Delivered(exits[id := e], r)| == |Delivered(exits, r)| + if e == Ending(r, true) then 1 else 0
  {
    var before, after := Delivered(exits, r), Delivered(exits[id := e], r);
    if e == Ending(r, true) { assert after == before + {id}; } else { assert after == before; }
  }

  lemma EndedLeave(exits: map<Id, ExitAt>, id: Id, delivered: bool)
    requires id in exits
    ensures |Ended(exits, delivered)| == |Ended(exits - {id}, delivered)| + if Past(exits[id], delivered) then 1 else 0
  {
    hide Past;
    var before, after := Ended(exits, delivered), Ended(exits - {id}, delivered);
    assert after == before - {id};
    assert Past(exits[id], delivered) <==> id in before;
  }

  lemma DeliveredLeave(exits: map<Id, ExitAt>, id: Id, r: Record)
    requires id in exits && exits[id].Ending?
    ensures |Delivered(exits, r)| == |Delivered(exits - {id}, r)| + if exits[id] == Ending(r, true) then 1 else 0
  {
    var before, after := Delivered(exits, r), Delivered(exits - {id}, r);
    if exits[id] == Ending(r, true) { assert before == after + {id}; } else { assert before == after; }
  }

  lemma TallyMove(s: Kernel, t: State, id: Id, e: ExitAt)
    requires Tallies(s, t) && !(id in s.exits && s.exits[id].Ending?) && !e.Ending?
    ensures Tallies(s.(exits := s.exits[id := e]), t)
  {
    hide Ended, Delivered;
    EndedMove(s.exits, id, e, true);
    EndedMove(s.exits, id, e, false);
    forall r ensures |Delivered(s.exits[id := e], r)| == |Delivered(s.exits, r)| {
      DeliveredMove(s.exits, id, e, r);
    }
  }

  lemma TallyOutput(s: Kernel, t: State, id: Id, data: Record)
    requires Tallies(s, t) && !(id in s.exits && s.exits[id].Ending?)
    ensures Tallies(s.(events := s.events + [data], exits := s.exits[id := Ending(data, true)]), t)
  {
    hide Ended, Delivered;
    var e := Ending(data, true);
    EndedMove(s.exits, id, e, true);
    EndedMove(s.exits, id, e, false);
    forall r ensures multiset(s.events + [data])[r] == multiset(t.events)[r] + |Delivered(s.exits[id := e], r)| {
      DeliveredMove(s.exits, id, e, r);
    }
  }

  lemma TallyCount(s: Kernel, t: State, id: Id, data: Record)
    requires Tallies(s, t) && !(id in s.exits && s.exits[id].Ending?)
    ensures Tallies(s.(lost := (s.lost + 1) % TWO64, exits := s.exits[id := Ending(data, false)]), t)
  {
    hide Ended, Delivered;
    var e := Ending(data, false);
    EndedMove(s.exits, id, e, true);
    EndedMove(s.exits, id, e, false);
    WrapStep(t.lost + |Ended(s.exits, false)|);
    forall r ensures |Delivered(s.exits[id := e], r)| == |Delivered(s.exits, r)| {
      DeliveredMove(s.exits, id, e, r);
    }
  }

  /** An exit that ends hands over to the whole probe what it had put into ring or counter. */
  lemma TallyDelete(s: Kernel, t: State, id: Id, data: Record, delivered: bool)
    requires Tallies(s, t) && id in s.exits && s.exits[id] == Ending(data, delivered)
    requires id in t.infotmp && FromEntry(data, t.infotmp[id])
    ensures Tallies(s.(infotmp := s.infotmp - {id}, exits := s.exits - {id}), Step(t, Exit(id, data.ret, data.cgroup, delivered)))
  {
    hide Ended, Delivered;
    EndedLeave(s.exits, id, true);
    EndedLeave(s.exits, id, false);
    WrapSum(t.lost, |Ended(s.exits - {id}, false)|);
    var t' := Step(t, Exit(id, data.ret, data.cgroup, delivered));
    assert t'.events == if delivered then t.events + [data] else t.events;
    forall r ensures multiset(s.events)[r] == multiset(t'.events)[r] + |Delivered(s.exits - {id}, r)| {
      DeliveredLeave(s.exits, id, r);
    }
  }

  lemma WrapSum(x: int, n: nat)
    ensures (x + (n + 1)) % TWO64 == ((x + 1) % TWO64 + n) % TWO64
  {
  }

  /** One operation against the whole probe, if any, that it completes. */
  lemma RefinesStep(s: Kernel, t: State, op: Op)
    requires Refines(s, t)
    ensures Refines(Perform(s, op), After(t, Effect(s, op)))
  {
    PinnedStep(s, op);
    MapStep(s, t, op);
    if Due(s, op) {
      hide Tallies, Pinned, CanStore;
      match op {
        case Update(id, fname, flags) =>
        case Lookup(id, ret) => if id in s.infotmp { TallyMove(s, t, id, Found(ret)); }
        case Copy(id, cgroup, stale) => TallyMove(s, t, id, Perform(s, op).exits[id]);
        case Output(id, room) =>
          if room { TallyOutput(s, t, id, s.exits[id].data); } else { TallyMove(s, t, id, Refused(s.exits[id].data)); }
        case Count(id) => TallyCount(s, t, id, s.exits[id].data);
        case Delete(id) => TallyDelete(s, t, id, s.exits[id].data, s.exits[id].delivered);
      }
    }
  }

  /** Every interleaving of kernel operations does what some order of whole probes does, with the same map
      at every moment; ring and counter run ahead only by the exits that are still under way. A pointer
      into the map is never read after its entry was freed. */
  lemma {:induction false} InterleavingRefines(ops: seq<Op>)
    ensures Refines(Execute(ops), Run(Probes(ops)))
  {
    if ops == [] {
      assert Run([]) == INIT;
      assert Ended(map[], true) == {} && Ended(map[], false) == {};
      assert forall r :: Delivered(map[], r) == {};
    } else {
      hide Refines, Perform, Effect, Step;
      var n := |ops| - 1;
      var s := Execute(ops[..n]);
      InterleavingRefines(ops[..n]);
      RefinesStep(s, Run(Probes(ops[..n])), ops[n]);
      RunEffect(Probes(ops[..n]), Effect(s, ops[n]));
    }
  }

  lemma RunEffect(ps: seq<Probe>, effect: seq<Probe>)
    requires |effect| <= 1
    ensures Run(ps + effect) == After(Run(ps), effect)
  {
    hide Step;
    if effect == [] { assert ps + effect == ps; } else { assert (ps + effect)[..|ps|] == ps; }
  }

  /** Conservation in every interleaving: delivered records and the lost count add up to the completed calls
      and the exits past ring and counter, until the counter wraps. */
  lemma InterleavingConserves(ops: seq<Op>)
    ensures var s, ps := Execute(ops), Probes(ops);
            var past := |Ended(s.exits, true)| + |Ended(s.exits, false)|;
            Completed(ps) + past < TWO64 ==> |s.events| + s.lost == Completed(ps) + past
  {
    hide Execute, Run, Probes, Ended, Delivered, Deliveries, Completed, Pinned;
    InterleavingRefines(ops);
    Conservation(Probes(ops));
  }

  lemma NoneUnderWay(exits: map<Id, ExitAt>)
    requires exits == map[]
    ensures Ended(exits, true) == Ended(exits, false) == {} && forall r :: Delivered(exits, r) == {}
  {
  }

  /** When no exit is under way, map and counter are those of the whole probes, and the ring holds exactly
      their records, each made from an exit and from its own enter. */
  lemma InterleavingAtRest(ops: seq<Op>)
    requires Execute(ops).exits == map[]
    ensures var s, ps := Execute(ops), Probes(ops);
            s.infotmp == Run(ps).infotmp && s.lost == Run(ps).lost && multiset(s.events) == multiset(Deliveries(ps))
  {
    hide Execute, Run, Probes, Ended, Delivered, Deliveries, Completed, Pinned;
    InterleavingRefines(ops);
    Conservation(Probes(ops));
    NoneUnderWay(Execute(ops).exits);
  }

  /** In every interleaving the map holds exactly the threads between a stored enter and the end of its exit,
      with the data of that enter, and an exit under way belongs to such a thread. */
  lemma InterleavingMapExact(ops: seq<Op>)
    ensures var s, ps := Execute(ops), Probes(ops);
            && |s.infotmp| <= INFLIGHT_MAX
            && (forall id: Id :: id in s.infotmp <==> InFlight(ps, id))
            && (forall id: Id :: id in s.exits ==> InFlight(ps, id))
            && (forall id: Id :: InFlight(ps, id) ==>
                  var e := ps[Latest(ps, id)]; s.infotmp[id] == Val(id / TWO32, e.fname, e.flags))
  {
    hide Execute, Run, Probes, InFlight, Tallies;
    InterleavingRefines(ops);
    MapExact(Probes(ops));
  }

  lemma More(ops: seq<Op>, op: Op) returns (ops': seq<Op>)
    ensures ops' == ops + [op] && Execute(ops') == Perform(Execute(ops), op)
    ensures Run(Probes(ops')) == After(Run(Probes(ops)), Effect(Execute(ops), op))
  {
    hide Perform, Run;
    ops' := ops + [op];
    RunEffect(Probes(ops), Effect(Execute(ops), op));
  }

  /** A thread enters, exits and has its record delivered; the map entry is still there. */
  lemma DeliverOne(ops: seq<Op>, id: Id, flags: int) returns (ops': seq<Op>)
    requires id !in Execute(ops).exits && id !in Execute(ops).infotmp && |Execute(ops).infotmp| < INFLIGHT_MAX
    ensures var s, s', v, r := Execute(ops), Execute(ops'), Val(id / TWO32, 0, flags), Record(id / TWO32, 0, flags, 0, 0);
            && s' == s.(infotmp := s.infotmp[id := v], events := s.events + [r], exits := s.exits[id := Ending(r, true)])
            && Run(Probes(ops')) == Step(Run(Probes(ops)), Enter(id, 0, flags))
  {
    hide Execute, Probes, Run, Step;
    ops' := More(ops, Update(id, 0, flags));
    ops' := More(ops', Lookup(id, 0));
    ops' := More(ops', Copy(id, 0, Val(0, 0, 0)));
    ops' := More(ops', Output(id, true));
  }

  /** The deletion at the end of an exit. */
  lemma DeleteOne(ops: seq<Op>, id: Id, data: Record) returns (ops': seq<Op>)
    requires var s := Execute(ops); id in s.exits && s.exits[id] == Ending(data, true)
    requires var t := Run(Probes(ops)); id in t.infotmp && FromEntry(data, t.infotmp[id])
    ensures var s, t := Execute(ops), Run(Probes(ops));
            && Execute(ops') == s.(infotmp := s.infotmp - {id}, exits := s.exits - {id})
            && Run(Probes(ops')) == t.(infotmp := t.infotmp - {id}, events := t.events + [data])
  {
    hide Execute, Probes, Run;
    ops' := More(ops, Delete(id));
  }

  const FIRST := Record(0, 0, 1, 0, 0)
  const SECOND := Record(0, 0, 2, 0, 0)

  lemma DeliverTwo() returns (ops: seq<Op>)
    ensures Execute(ops).events == [FIRST, SECOND] && Run(Probes(ops)).events == []
    ensures Execute(ops).exits == map[1 := Ending(FIRST, true), 2 := Ending(SECOND, true)]
    ensures Run(Probes(ops)).infotmp == map[1 := Val(0, 0, 1), 2 := Val(0, 0, 2)]
  {
    assert Execute([]) == BOOT && Run(Probes([])) == INIT;
    hide Execute, Probes, Run;
    ops := DeliverOne([], 1, 1);
    assert Execute(ops).exits == map[1 := Ending(FIRST, true)] && Run(Probes(ops)).infotmp == map[1 := Val(0, 0, 1)];
    ops := DeliverOne(ops, 2, 2);
  }

  /** Why the ring is compared up to order: two threads can delete their entries in the other order than
      they delivered their records. */
  lemma RingOrderCanDiffer() returns (ops: seq<Op>)
    ensures Execute(ops).exits == map[] && Execute(ops).events != Run(Probes(ops)).events
  {
    hide Execute, Probes, Run;
    ops := DeliverTwo();
    ops := DeleteOne(ops, 2, SECOND);
    assert Execute(ops).exits == map[1 := Ending(FIRST, true)];
    ops := DeleteOne(ops, 1, FIRST);
    assert Execute(ops).exits == map[];
    assert Execute(ops).events[0] == FIRST && Run(Probes(ops)).events[0] == SECOND;
  }

  // ---- where the whole probes come from ----

  /** What a thread has done so far in `exit_open`, as far as it has come. */
  ghost predicate Did(done: seq<Op>, id: Id, e: ExitAt) {
    match e
    case Found(ret) => Lookup(id, ret) in done
    case Built(data) => Looked(done, id, data)
    case Refused(data) => Looked(done, id, data) && Output(id, false) in done
    case Ending(data, delivered) => Looked(done, id, data) && Output(id, delivered) in done
  }

  ghost predicate Looked(done: seq<Op>, id: Id, data: Record) {
    Lookup(id, data.ret) in done && exists stale :: Copy(id, data.cgroup, stale) in done
  }

  /** A whole probe with the arguments of the operations that it consists of. */
  ghost predicate Real(done: seq<Op>, p: Probe) {
    match p
    case Enter(id, fname, flags) => Update(id, fname, flags) in done
    case Exit(id, ret, cgroup, room) =>
      Lookup(id, ret) in done
      && ((cgroup == 0 && !room) || ((exists stale :: Copy(id, cgroup, stale) in done) && Output(id, room) in done))
  }

  lemma DidStep(s: Kernel, op: Op, done: seq<Op>, id: Id)
    requires id in s.exits ==> Did(done, id, s.exits[id])
    ensures id in Perform(s, op).exits ==> Did(done + [op], id, Perform(s, op).exits[id])
  {
    assert forall x :: x in done + [op] <==> x in done || x == op;
  }

  lemma EffectReal(s: Kernel, op: Op, done: seq<Op>, p: Probe)
    requires p in Effect(s, op) && (op.id in s.exits ==> Did(done, op.id, s.exits[op.id]))
    ensures Real(done + [op], p)
  {
    assert forall x :: x in done + [op] <==> x in done || x == op;
  }

  lemma RealLater(done: seq<Op>, op: Op, p: Probe)
    requires Real(done, p)
    ensures Real(done + [op], p)
  {
    assert forall x :: x in done + [op] <==> x in done || x == op;
  }

  lemma {:induction false} DidAlong(ops: seq<Op>, id: Id)
    ensures id in Execute(ops).exits ==> Did(ops, id, Execute(ops).exits[id])
  {
    if ops != [] {
      hide Perform, Did;
      var n := |ops| - 1;
      DidAlong(ops[..n], id);
      DidStep(Execute(ops[..n]), ops[n], ops[..n], id);
      assert ops == ops[..n] + [ops[n]];
    }
  }

  /** The whole probes have the arguments of the interleaved operations: an enter those of its update, an exit the result given
      at its lookup, the group read with the entry and the ring's answer; an exit that found nothing has only its result. */
  lemma {:induction false} ProbesAreReal(ops: seq<Op>)
    ensures forall p :: p in Probes(ops) ==> Real(ops, p)
  {
    if ops != [] {
      hide Effect, Execute, Real, Did;
      var n := |ops| - 1;
      ProbesAreReal(ops[..n]);
      DidAlong(ops[..n], ops[n].id);
      assert ops == ops[..n] + [ops[n]];
      forall p | p in Probes(ops) ensures Real(ops, p) {
        if p in Probes(ops[..n]) { RealLater(ops[..n], ops[n], p); } else { EffectReal(Execute(ops[..n]), ops[n], ops[..n], p); }
      }
    }
  }

  /** The operation that made a whole probe take effect. */
  lemma {:induction false} EffectAt(ops: seq<Op>, i: nat) returns (x: nat)
    requires i < |Probes(ops)|
    ensures x < |ops| && Probes(ops[..x]) == Probes(ops)[..i] && Effect(Execute(ops[..x]), ops[x]) == [Probes(ops)[i]]
  {
    hide Effect, Execute;
    var n := |ops| - 1;
    EffectSize(Execute(ops[..n]), ops[n]);
    if i < |Probes(ops[..n])| {
      x := EffectAt(ops[..n], i);
      assert ops[..n][..x] == ops[..x];
    } else {
      x := n;
    }
  }

  lemma EffectSize(s: Kernel, op: Op)
    ensures |Effect(s, op)| <= 1
  {
  }

  /** In every interleaving whose threads alternate, a lookup at the start of an exit finds nothing exactly when the
      map was full at the moment of the update that began the call. */
  lemma LookupMissesIff(ops: seq<Op>, id: Id) returns (x: nat)
    requires Alternates(Probes(ops) + [Exit(id, 0, 0, false)])
    ensures Latest(Probes(ops), id) >= 0
    ensures x < |ops| && ops[x].Update? && ops[x].id == id && Probes(ops[..x]) == Probes(ops)[..Latest(Probes(ops), id)]
    ensures id !in Execute(ops).infotmp <==> |Execute(ops[..x]).infotmp| == INFLIGHT_MAX
  {
    var ps := Probes(ops);
    var trace := ps + [Exit(id, 0, 0, false)];
    assert trace[..|ps|] == ps;
    MissedIff(trace, |ps|);
    var i := Latest(ps, id);
    assert trace[..i] == ps[..i] && trace[i] == ps[i];
    x := EffectAt(ops, i);
    InterleavingMapExact(ops);
    InterleavingRefines(ops[..x]);
  }
}
