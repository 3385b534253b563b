/** The lease semaphore as a value: what each operation does to the list of leases and to the
    expiry (api/types/semaphore.go). */
module SemaphoreSpec {

  /** Instants, in any unit; zero is Go's zero time. */
  type Time = int

  const ZERO_TIME: Time := 0

  datatype LeaseRef = LeaseRef(id: string, expires: Time, holder: string)

  datatype Lease = Lease(kind: string, name: string, id: string, expires: Time)

  datatype AcquireRequest = AcquireRequest(kind: string, name: string, maxLeases: int, expires: Time, holder: string)

  datatype Error = BadParameter | LimitExceeded | AlreadyExists | NotFound

  datatype Outcome = Granted(lease: Lease) | Done | Refused(error: Error)

  datatype Sem = Sem(kind: string, name: string, expiry: Time, leases: seq<LeaseRef>)

  datatype Op = Acquire(id: string, request: AcquireRequest) | KeepAlive(lease: Lease) | Cancel(lease: Lease) | RemoveExpired(now: Time)

  /** The first lease with this ID, or the length. */
  function IndexOf(leases: seq<LeaseRef>, id: string): (i: nat)
    ensures i <= |leases|
    ensures i < |leases| ==> leases[i].id == id
    ensures forall j :: 0 <= j < i ==> leases[j].id != id
  {
    if leases == [] || leases[0].id == id then 0 else 1 + IndexOf(leases[1..], id)
  }

  function Later(a: Time, b: Time): Time { if a > b then a else b }

  /** The leases that have not expired, in order. */
  function Live(leases: seq<LeaseRef>, now: Time): (r: seq<LeaseRef>)
    ensures |r| <= |leases|
  {
    if leases == [] then []
    else
      var last := leases[|leases| - 1];
      Live(leases[..|leases| - 1], now) + if last.expires > now then [last] else []
  }

  /** Expiry drops exactly the leases whose time has come. */
  lemma {:induction false} LiveMembers(leases: seq<LeaseRef>, now: Time)
    ensures forall l :: l in Live(leases, now) <==> l in leases && l.expires > now
  {
    if leases != [] {
      var n := |leases| - 1;
      LiveMembers(leases[..n], now);
      assert leases == leases[..n] + [leases[n]];
    }
  }

  function Configured(r: AcquireRequest): Sem {
    Sem(r.kind, r.name, r.expires, [])
  }

  function Apply(s: Sem, op: Op): (Sem, Outcome) {
    match op
    case Acquire(id, r) =>
      if r.kind != s.kind || r.name != s.name then (s, Refused(BadParameter))
      else if |s.leases| >= r.maxLeases then (s, Refused(LimitExceeded))
      else if IndexOf(s.leases, id) < |s.leases| then (s, Refused(AlreadyExists))
      else (s.(expiry := Later(r.expires, s.expiry), leases := s.leases + [LeaseRef(id, r.expires, r.holder)]),
            Granted(Lease(r.kind, r.name, id, r.expires)))
    case KeepAlive(l) =>
      var i := IndexOf(s.leases, l.id);
      if l.kind != s.kind || l.name != s.name then (s, Refused(BadParameter))
      else if i == |s.leases| then (s, Refused(NotFound))
      else (s.(expiry := Later(l.expires, s.expiry), leases := s.leases[i := s.leases[i].(expires := l.expires)]), Done)
    case Cancel(l) =>
      var i := IndexOf(s.leases, l.id);
      if l.kind != s.kind || l.name != s.name then (s, Refused(BadParameter))
      else if i == |s.leases| then (s, Refused(NotFound))
      else (s.(leases := s.leases[..i] + s.leases[i + 1..]), Done)
    case RemoveExpired(now) => (s.(leases := Live(s.leases, now)), Done)
  }

  predicate Contains(s: Sem, l: Lease) {
    l.kind == s.kind && l.name == s.name && exists ref :: ref in s.leases && ref.id == l.id
  }

  // ---- what each operation answers and does, on the fields alone ----

  predicate Holds(leases: seq<LeaseRef>, id: string) {
    exists i :: 0 <= i < |leases| && leases[i].id == id
  }

  /** When an acquire is granted, and which error is given otherwise; a place is free as long as fewer leases are
      held than the request allows. */
  lemma AcquireAnswer(s: Sem, id: string, r: AcquireRequest)
    ensures var outcome := Apply(s, Acquire(id, r)).1;
            && (outcome.Granted? <==>
                  r.kind == s.kind && r.name == s.name && |s.leases| < r.maxLeases && forall ref :: ref in s.leases ==> ref.id != id)
            && (outcome == Refused(BadParameter) <==> r.kind != s.kind || r.name != s.name)
            && (outcome == Refused(LimitExceeded) <==> r.kind == s.kind && r.name == s.name && |s.leases| >= r.maxLeases)
            && (outcome == Refused(AlreadyExists) <==>
                  r.kind == s.kind && r.name == s.name && |s.leases| < r.maxLeases && exists ref :: ref in s.leases && ref.id == id)
            && (outcome.Granted? || outcome.Refused?)
  {
    var i := IndexOf(s.leases, id);
    assert i < |s.leases| ==> s.leases[i] in s.leases;
  }

  /** The lease that is granted, and the state with it: one more reference at the end, with the request's expiry and holder. */
  lemma AcquireEffect(s: Sem, id: string, r: AcquireRequest)
    requires Apply(s, Acquire(id, r)).1.Granted?
    ensures var (t, outcome) := Apply(s, Acquire(id, r));
            && outcome.lease.kind == r.kind && outcome.lease.name == r.name && outcome.lease.id == id && outcome.lease.expires == r.expires
            && |t.leases| == |s.leases| + 1 && t.leases[..|s.leases|] == s.leases
            && t.leases[|s.leases|].id == id && t.leases[|s.leases|].expires == r.expires && t.leases[|s.leases|].holder == r.holder
            && t.expiry == (if r.expires > s.expiry then r.expires else s.expiry) && t.kind == s.kind && t.name == s.name
  {
  }

  /** A lease is kept alive exactly when it is contained: its reference gets the new expiry and keeps its holder,
      no other changes, and the semaphore lasts at least as long. */
  lemma KeepAliveMeans(s: Sem, l: Lease)
    ensures var (t, outcome) := Apply(s, KeepAlive(l));
            && (outcome == Done <==> l.kind == s.kind && l.name == s.name && Holds(s.leases, l.id))
            && (outcome == Refused(BadParameter) <==> l.kind != s.kind || l.name != s.name)
            && (outcome == Refused(NotFound) <==> l.kind == s.kind && l.name == s.name && !Holds(s.leases, l.id))
            && (outcome == Done ==>
                  && t.kind == s.kind && t.name == s.name && |t.leases| == |s.leases|
                  && t.expiry == (if l.expires > s.expiry then l.expires else s.expiry)
                  && exists i :: 0 <= i < |s.leases| && s.leases[i].id == l.id && (forall j :: 0 <= j < i ==> s.leases[j].id != l.id)
                       && t.leases[i].id == l.id && t.leases[i].expires == l.expires && t.leases[i].holder == s.leases[i].holder
                       && forall j :: 0 <= j < |s.leases| && j != i ==> t.leases[j] == s.leases[j])
  {
    hide Live;
    var i := IndexOf(s.leases, l.id);
    assert i < |s.leases| ==> s.leases[i].id == l.id;
  }

  /** A lease is cancelled exactly when it is contained, and then its first reference is cut out. */
  lemma CancelMeans(s: Sem, l: Lease)
    ensures var (t, outcome) := Apply(s, Cancel(l));
            && (outcome == Done <==> l.kind == s.kind && l.name == s.name && Holds(s.leases, l.id))
            && (outcome == Refused(BadParameter) <==> l.kind != s.kind || l.name != s.name)
            && (outcome == Refused(NotFound) <==> l.kind == s.kind && l.name == s.name && !Holds(s.leases, l.id))
            && (outcome == Done ==>
                  exists i :: 0 <= i < |s.leases| && s.leases[i].id == l.id && (forall j :: 0 <= j < i ==> s.leases[j].id != l.id)
                    && t == Sem(s.kind, s.name, s.expiry, s.leases[..i] + s.leases[i + 1..]))
  {
    hide Live;
    var i := IndexOf(s.leases, l.id);
    assert i < |s.leases| ==> s.leases[i].id == l.id;
  }

  /** Filtering goes lease by lease, in order. */
  lemma {:induction false} LiveConcat(a: seq<LeaseRef>, b: seq<LeaseRef>, now: Time)
    ensures Live(a + b, now) == Live(a, now) + Live(b, now)
    ensures |b| == 1 ==> Live(b, now) == if b[0].expires > now then b else []
    decreases |b|
  {
    var none: seq<LeaseRef> := [];
    assert Live(none, now) == none;
    if b == [] {
      assert a + b == a;
    } else {
      var n := |b| - 1;
      LiveConcat(a, b[..n], now);
      assert (a + b)[..|a + b| - 1] == a + b[..n];
      assert |b| == 1 ==> b[..n] == none && b == [b[0]];
    }
  }

  /** Removing expired leases keeps exactly those that expire later than now, and nothing else changes. */
  lemma RemoveExpiredMeans(s: Sem, now: Time)
    ensures Apply(s, RemoveExpired(now)) == (Sem(s.kind, s.name, s.expiry, Live(s.leases, now)), Done)
    ensures forall ref :: ref in Live(s.leases, now) <==> ref in s.leases && ref.expires > now
  {
    LiveMembers(s.leases, now);
  }

  // ---- every run ----

  function Exec(s: Sem, ops: seq<Op>): Sem {
    if ops == [] then s else Apply(Exec(s, ops[..|ops| - 1]), ops[|ops| - 1]).0
  }

  /** The largest `MaxLeases` of a successful acquire of the run, or zero. */
  function HighWater(s: Sem, ops: seq<Op>): nat {
    if ops == [] then 0
    else
      var before, op := ops[..|ops| - 1], ops[|ops| - 1];
      var high := HighWater(s, before);
      if op.Acquire? && Apply(Exec(s, before), op).1.Granted? && op.request.maxLeases > high then op.request.maxLeases else high
  }

  ghost predicate DistinctIds(leases: seq<LeaseRef>) {
    forall i, j :: 0 <= i < j < |leases| ==> leases[i].id != leases[j].id
  }

  ghost predicate Sound(s: Sem) {
    DistinctIds(s.leases) && forall l :: l in s.leases ==> l.expires <= s.expiry
  }

  lemma {:induction false} LiveDistinct(leases: seq<LeaseRef>, now: Time)
    requires DistinctIds(leases)
    ensures DistinctIds(Live(leases, now))
  {
    if leases != [] {
      var n := |leases| - 1;
      LiveDistinct(leases[..n], now);
      LiveMembers(leases[..n], now);
      var rest := Live(leases[..n], now);
      forall i | 0 <= i < |rest| ensures rest[i].id != leases[n].id {
        assert rest[i] in leases[..n];
      }
    }
  }

  lemma KeepAliveSound(s: Sem, l: Lease)
    requires Sound(s)
    ensures Sound(Apply(s, KeepAlive(l)).0)
  {
    var t := Apply(s, KeepAlive(l)).0;
    forall x | x in t.leases ensures x.expires <= t.expiry {
      var i :| 0 <= i < |t.leases| && t.leases[i] == x;
      if i != IndexOf(s.leases, l.id) { assert x in s.leases; }
    }
  }

  lemma RemoveExpiredSound(s: Sem, now: Time)
    requires Sound(s)
    ensures Sound(Apply(s, RemoveExpired(now)).0)
  {
    LiveDistinct(s.leases, now);
    LiveMembers(s.leases, now);
  }

  lemma AcquireSound(s: Sem, id: string, r: AcquireRequest)
    requires Sound(s)
    ensures Sound(Apply(s, Acquire(id, r)).0)
  {
    hide Live;
  }

  lemma CancelSound(s: Sem, l: Lease)
    requires Sound(s)
    ensures Sound(Apply(s, Cancel(l)).0)
  {
    hide Live;
  }

  lemma SoundStep(s: Sem, op: Op)
    requires Sound(s)
    ensures var (t, outcome) := Apply(s, op);
            Sound(t) && t.expiry >= s.expiry && t.kind == s.kind && t.name == s.name && (outcome.Refused? ==> t == s)
  {
    hide Sound, Live;
    match op {
      case RemoveExpired(now) => RemoveExpiredSound(s, now);
      case KeepAlive(l) => KeepAliveSound(s, l);
      case Cancel(l) => CancelSound(s, l);
      case Acquire(id, r) => AcquireSound(s, id, r);
    }
  }

  /** Only a granted acquire adds a lease, and within its own limit. */
  lemma CountStep(s: Sem, op: Op)
    ensures var (t, outcome) := Apply(s, op);
            if op.Acquire? && outcome.Granted? then |t.leases| <= op.request.maxLeases else |t.leases| <= |s.leases|
  {
  }

  /** Over every run from a configured semaphore: lease IDs are distinct, the semaphore does not
      expire before a held lease or earlier than it used to, and no more leases are held than some
      successful acquire allowed. */
  lemma {:induction false} RunSound(r: AcquireRequest, ops: seq<Op>)
    ensures var s := Exec(Configured(r), ops);
            Sound(s) && s.expiry >= r.expires && |s.leases| <= HighWater(Configured(r), ops) && s.kind == r.kind && s.name == r.name
    decreases |ops|
  {
    if ops != [] {
      hide Sound, Apply;
      var before := Exec(Configured(r), ops[..|ops| - 1]);
      RunSound(r, ops[..|ops| - 1]);
      SoundStep(before, ops[|ops| - 1]);
      CountStep(before, ops[|ops| - 1]);
    }
  }

  /** The leases held fit the limit of some acquire that the run granted. */
  lemma {:induction false} WithinSomeLimit(r: AcquireRequest, ops: seq<Op>)
    ensures var s := Exec(Configured(r), ops);
            s.leases != [] ==>
              exists i :: 0 <= i < |ops| && ops[i].Acquire? && Apply(Exec(Configured(r), ops[..i]), ops[i]).1.Granted?
                          && |s.leases| <= ops[i].request.maxLeases
    decreases |ops|
  {
    if ops != [] {
      hide Apply;
      var n := |ops| - 1;
      var before := Exec(Configured(r), ops[..n]);
      WithinSomeLimit(r, ops[..n]);
      CountStep(before, ops[n]);
      if !(ops[n].Acquire? && Apply(before, ops[n]).1.Granted?) && before.leases != [] {
        var i :| 0 <= i < n && ops[..n][i].Acquire? && Apply(Exec(Configured(r), ops[..n][..i]), ops[..n][i]).1.Granted?
                 && |before.leases| <= ops[..n][i].request.maxLeases;
        assert ops[..n][..i] == ops[..i];
      }
    }
  }

  // ---- what one operation means for the others ----

  lemma IndexOfLast(leases: seq<LeaseRef>, ref: LeaseRef)
    requires IndexOf(leases, ref.id) == |leases|
    ensures IndexOf(leases + [ref], ref.id) == |leases|
  {
    assert (leases + [ref])[|leases|].id == ref.id;
    assert forall j :: 0 <= j < |leases| ==> (leases + [ref])[j] == leases[j];
  }

  /** A granted lease is held, and cancelling it gives back the leases there were. */
  lemma AcquireThenCancel(s: Sem, id: string, r: AcquireRequest)
    requires Apply(s, Acquire(id, r)).1.Granted?
    ensures var (t, outcome) := Apply(s, Acquire(id, r));
            Contains(t, outcome.lease) && Apply(t, Cancel(outcome.lease)) == (s.(expiry := t.expiry), Done)
  {
    var ref := LeaseRef(id, r.expires, r.holder);
    var (t, outcome) := Apply(s, Acquire(id, r));
    IndexOfLast(s.leases, ref);
    assert t.leases[|s.leases|] == ref;
    assert t.leases[..|s.leases|] + t.leases[|s.leases| + 1..] == s.leases;
  }

  /** With distinct IDs, cancelling removes exactly the named lease: it is gone, and every other lease
      keeps its value and its place among the others. */
  lemma CancelRemovesOnly(s: Sem, l: Lease)
    requires Sound(s) && Apply(s, Cancel(l)).1 == Done
    ensures var t := Apply(s, Cancel(l)).0;
            var i := IndexOf(s.leases, l.id);
            && t == s.(leases := s.leases[..i] + s.leases[i + 1..])
            && !Contains(t, l) && |t.leases| == |s.leases| - 1
            && (forall x :: x in t.leases <==> x in s.leases && x.id != l.id)
            && multiset(s.leases) - multiset(t.leases) == multiset{s.leases[i]}
  {
    var i := IndexOf(s.leases, l.id);
    var t := Apply(s, Cancel(l)).0;
    assert t == s.(leases := s.leases[..i] + s.leases[i + 1..]) && s.leases[i].id == l.id;
    hide Apply, IndexOf;
    assert s.leases == s.leases[..i] + [s.leases[i]] + s.leases[i + 1..];
    CutMembers(s.leases, i);
  }

  lemma CutMembers(leases: seq<LeaseRef>, i: nat)
    requires i < |leases| && DistinctIds(leases)
    ensures forall x :: x in leases[..i] + leases[i + 1..] <==> x in leases && x.id != leases[i].id
  {
    forall x | x in leases && x.id != leases[i].id ensures x in leases[..i] + leases[i + 1..] {
      var j :| 0 <= j < |leases| && leases[j] == x;
      assert if j < i then leases[..i][j] == x else leases[i + 1..][j - i - 1] == x;
    }
  }

  lemma LiveSnoc(leases: seq<LeaseRef>, l: LeaseRef, now: Time)
    ensures Live(leases + [l], now) == Live(leases, now) + if l.expires > now then [l] else []
  {
    assert (leases + [l])[..|leases|] == leases;
  }

  /** Expiring at one instant and again at a later one is expiring once at the later one. */
  lemma {:induction false} ExpireTwice(leases: seq<LeaseRef>, t1: Time, t2: Time)
    requires t1 <= t2
    ensures Live(Live(leases, t1), t2) == Live(leases, t2)
  {
    if leases != [] {
      var n := |leases| - 1;
      ExpireTwice(leases[..n], t1, t2);
      if leases[n].expires > t1 {
        LiveSnoc(Live(leases[..n], t1), leases[n], t2);
      } else {
        assert Live(leases, t1) == Live(leases[..n], t1);
        assert Live(leases, t2) == Live(leases[..n], t2);
      }
    }
  }

  /** The operation neither cancels the lease `id` nor expires it at `until` or before. */
  predicate Spares(op: Op, id: string, until: Time) {
    match op
    case Acquire(_, _) => true
    case KeepAlive(l) => l.id == id ==> l.expires > until
    case Cancel(l) => l.id != id
    case RemoveExpired(now) => now <= until
  }

  predicate HeldUntil(s: Sem, id: string, until: Time) {
    exists ref :: ref in s.leases && ref.id == id && ref.expires > until
  }

  lemma SparesCancel(s: Sem, l: Lease, ref: LeaseRef)
    requires ref in s.leases && ref.id != l.id
    ensures ref in Apply(s, Cancel(l)).0.leases
  {
    var t := Apply(s, Cancel(l)).0;
    if t != s {
      var i, j := IndexOf(s.leases, l.id), IndexOf(s.leases, l.id) + 1;
      assert s.leases == s.leases[..i] + [s.leases[i]] + s.leases[j..];
    }
  }

  lemma SparesKeepAlive(s: Sem, l: Lease, ref: LeaseRef, until: Time)
    requires ref in s.leases && ref.expires > until && (l.id == ref.id ==> l.expires > until)
    ensures HeldUntil(Apply(s, KeepAlive(l)).0, ref.id, until)
  {
    var i :| 0 <= i < |s.leases| && s.leases[i] == ref;
    var t := Apply(s, KeepAlive(l)).0;
    assert t.leases[i].id == ref.id && t.leases[i].expires > until;
    assert t.leases[i] in t.leases;
  }

  lemma SparesStep(s: Sem, op: Op, id: string, until: Time)
    requires HeldUntil(s, id, until) && Spares(op, id, until)
    ensures HeldUntil(Apply(s, op).0, id, until)
  {
    hide Live, IndexOf;
    var ref :| ref in s.leases && ref.id == id && ref.expires > until;
    match op {
      case Acquire(_, _) => assert ref in Apply(s, op).0.leases;
      case KeepAlive(l) => SparesKeepAlive(s, l, ref, until);
      case Cancel(l) => SparesCancel(s, l, ref);
      case RemoveExpired(now) => LiveMembers(s.leases, now);
    }
  }

  /** No run loses a lease that it neither cancels nor lets expire, whatever it does to others. */
  lemma {:induction false} LeaseSurvives(s: Sem, ops: seq<Op>, id: string, until: Time)
    requires HeldUntil(s, id, until) && forall i :: 0 <= i < |ops| ==> Spares(ops[i], id, until)
    ensures HeldUntil(Exec(s, ops), id, until)
    decreases |ops|
  {
    if ops != [] {
      LeaseSurvives(s, ops[..|ops| - 1], id, until);
      SparesStep(Exec(s, ops[..|ops| - 1]), ops[|ops| - 1], id, until);
    }
  }
}

/** The semaphore object, whose lease slice lives in a backing array that is updated in place. */
module SemaphoreObject {
  import opened SemaphoreSpec

  /** append(leases[:i], leases[i+1:]...): the tail moves down one place in the same array. */
  method Cut(a: array<LeaseRef>, n: nat, i: nat)
    requires i < n <= a.Length
    modifies a
    ensures a[..n - 1] == old(a[..n])[..i] + old(a[..n])[i + 1..]
  {
    for j := i to n - 1
      invariant forall k :: 0 <= k < a.Length ==> a[k] == if i <= k < j then old(a[k + 1]) else old(a[k])
    {
      a[j] := a[j + 1];
    }
  }

  /** One more lease read: the survivors so far and what is written next to them. */
  lemma LiveNext(before: seq<LeaseRef>, i: nat, now: Time)
    requires i < |before|
    ensures Live(before[..i + 1], now) == Live(before[..i], now) + if before[i].expires > now then [before[i]] else []
  {
    hide Live;
    LiveSnoc(before[..i], before[i], now);
    assert before[..i + 1] == before[..i] + [before[i]];
  }

  /** Filtering without allocating: the survivors are written over the front of the array that is
      being read. */
  method KeepLive(a: array<LeaseRef>, n: nat, now: Time) returns (kept: nat)
    requires n <= a.Length
    modifies a
    ensures kept <= n && a[..kept] == Live(old(a[..n]), now)
  {
    ghost var before := a[..n];
    ghost var live: seq<LeaseRef> := [];
    assert live == Live(before[..0], now);
    hide Live;
    kept := 0;
    for i := 0 to n
      invariant kept == |live| <= i
      invariant live == Live(before[..i], now)
      invariant forall k :: 0 <= k < a.Length ==>
                  (k < kept ==> a[k] == live[k]) && (i <= k < n ==> a[k] == before[k])
    {
      LiveNext(before, i, now);
      if a[i].expires > now {
        live := live + [a[i]];
        a[kept] := a[i];
        kept := kept + 1;
      }
    }
    assert a[..kept] == live;
    assert before[..n] == before;
  }

  class SemaphoreV3 {
    const subKind: string
    const name: string
    var expiry: Time
    var buf: array<LeaseRef>
    var n: nat

    ghost predicate Valid()
      reads this
    {
      n <= buf.Length
    }

    ghost function View(): Sem
      requires Valid()
      reads this, buf
    {
      Sem(subKind, name, expiry, buf[..n])
    }

    constructor (kind: string, name: string, expires: Time)
      ensures Valid() && fresh(buf) && View() == Sem(kind, name, expires, [])
    {
      this.subKind, this.name, this.expiry := kind, name, expires;
      this.buf, this.n := new LeaseRef[0], 0;
    }

    /** The first lease with this ID, or the length. */
    method Find(id: string) returns (i: nat)
      requires Valid()
      ensures i == IndexOf(buf[..n], id)
    {
      i := 0;
      while i < n && buf[i].id != id
        invariant i <= n && forall j :: 0 <= j < i ==> buf[j].id != id
      {
        i := i + 1;
      }
      ghost var k := IndexOf(buf[..n], id);
      assert k < n ==> buf[..n][k] == buf[k];
      assert i < n ==> buf[..n][i] == buf[i];
    }

    method Contains(lease: Lease) returns (b: bool)
      requires Valid()
      ensures b <==> SemaphoreSpec.Contains(View(), lease)
      ensures b <==> lease.kind == subKind && lease.name == name && exists i :: 0 <= i < n && buf[i].id == lease.id
    {
      if lease.kind != subKind || lease.name != name {
        return false;
      }
      var i := Find(lease.id);
      assert forall ref :: ref in buf[..n] && ref.id == lease.id ==> i < n;
      assert i < n ==> buf[i] in buf[..n];
      b := i < n;
    }

    /** append: in place while there is room, into a larger array otherwise. */
    method Append(ref: LeaseRef)
      requires Valid()
      modifies this`buf, this`n, buf
      ensures Valid() && buf[..n] == old(buf[..n]) + [ref]
      ensures buf == old(buf) || fresh(buf)
    {
      if n == buf.Length {
        var bigger := new LeaseRef[2 * n + 1];
        forall i | 0 <= i < n { bigger[i] := buf[i]; }
        assert bigger[..n] == buf[..n];
        buf := bigger;
      }
      buf[n] := ref;
      n := n + 1;
    }

    method Acquire(leaseID: string, params: AcquireRequest) returns (r: Outcome)
      requires Valid()
      modifies this`buf, this`n, this`expiry, buf
      ensures Valid() && (buf == old(buf) || fresh(buf))
      ensures (View(), r) == Apply(old(View()), SemaphoreSpec.Acquire(leaseID, params))
    {
      if params.kind != subKind || params.name != name {
        return Refused(BadParameter);
      }
      if n >= params.maxLeases {
        return Refused(LimitExceeded);
      }
      var i := Find(leaseID);
      if i < n {
        return Refused(AlreadyExists);
      }
      if params.expires > expiry {
        expiry := params.expires;
      }
      Append(LeaseRef(leaseID, params.expires, params.holder));
      r := Granted(Lease(params.kind, params.name, leaseID, params.expires));
    }

    method KeepAlive(lease: Lease) returns (r: Outcome)
      requires Valid()
      modifies this`expiry, buf
      ensures Valid() && (View(), r) == Apply(old(View()), SemaphoreSpec.KeepAlive(lease))
    {
      if lease.kind != subKind || lease.name != name {
        return Refused(BadParameter);
      }
      var i := Find(lease.id);
      if i == n {
        return Refused(NotFound);
      }
      buf[i] := buf[i].(expires := lease.expires);
      if lease.expires > expiry {
        expiry := lease.expires;
      }
      r := Done;
    }

    method Cancel(lease: Lease) returns (r: Outcome)
      requires Valid()
      modifies this`n, buf
      ensures Valid() && (View(), r) == Apply(old(View()), SemaphoreSpec.Cancel(lease))
    {
      if lease.kind != subKind || lease.name != name {
        return Refused(BadParameter);
      }
      var i := Find(lease.id);
      if i == n {
        return Refused(NotFound);
      }
      Cut(buf, n, i);
      n := n - 1;
      r := Done;
    }

    method RemoveExpiredLeases(now: Time)
      requires Valid()
      modifies this`n, buf
      ensures Valid() && View() == Apply(old(View()), RemoveExpired(now)).0
    {
      var kept := KeepLive(buf, n, now);
      n := kept;
    }
  }

  /** `ConfigureSemaphore` with the checks of `CheckAndSetDefaults`. */
  method ConfigureSemaphore(r: AcquireRequest) returns (sem: SemaphoreV3?)
    ensures sem != null <==> r.name != "" && r.expires != 0 && r.kind != ""
    ensures sem != null ==> fresh(sem) && sem.Valid() && fresh(sem.buf) && sem.View() == Configured(r)
    ensures sem != null ==> sem.View() == Sem(r.kind, r.name, r.expires, [])
  {
    if r.name == "" || r.expires == ZERO_TIME || r.kind == "" {
      return null;
    }
    sem := new SemaphoreV3(r.kind, r.name, r.expires);
  }
}
