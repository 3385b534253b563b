/** What the planner goroutine of `connect` does with a configuration: the ordered list of
    errors it reports and dial attempts it starts (api/client/client.go). */
module ConnectPlan {

  type Error = string

  /** What `creds.TLSConfig()` answers. */
  datatype TlsOutcome = TlsFailed(err: Error) | TlsReady

  /** What `creds.SSHClientConfig()` answers; a "not implemented" error leaves no config. */
  datatype SshOutcome = SshFailed(err: Error) | SshAbsent | SshReady

  /** What `creds.Dialer(cfg)` answers; a "not implemented" error is not reported. */
  datatype DialerOutcome = DialerFailed(err: Error) | DialerAbsent | DialerReady

  datatype Credential = Credential(tls: TlsOutcome, ssh: SshOutcome, dialer: DialerOutcome)

  datatype Config = Config(credentials: seq<Credential>, hasDialer: bool, addrs: seq<string>)

  datatype Target = ConfigDialer | CredentialDialer | AuthAddr(addr: string) | ProxyAddr(addr: string) | TunnelAddr(addr: string)

  /** One action of the planner: send an error, or start a worker. */
  datatype Op = Report(err: Error) | Attempt(target: Target)

  function AddrOps(addrs: seq<string>, ssh: bool): (ops: seq<Op>)
    ensures ops == [] <==> addrs == []
  {
    if addrs == [] then []
    else
      OneAddr(addrs[0], ssh) + AddrOps(addrs[1..], ssh)
  }

  function OneAddr(addr: string, ssh: bool): (ops: seq<Op>)
    ensures ops != []
  {
    [Attempt(AuthAddr(addr))] + if ssh then [Attempt(ProxyAddr(addr)), Attempt(TunnelAddr(addr))] else []
  }

  function OwnDialer(c: Credential): seq<Op> {
    match c.dialer
    case DialerFailed(e) => [Report(e)]
    case DialerAbsent => []
    case DialerReady => [Attempt(CredentialDialer)]
  }

  function CredentialOps(cfg: Config, c: Credential): seq<Op> {
    if c.tls.TlsFailed? then [Report(c.tls.err)]
    else if c.ssh.SshFailed? then [Report(c.ssh.err)]
    else
      (if cfg.hasDialer then [Attempt(ConfigDialer)] else [])
      + OwnDialer(c)
      + AddrOps(cfg.addrs, c.ssh.SshReady?)
  }

  function PlanFrom(cfg: Config, creds: seq<Credential>): seq<Op> {
    if creds == [] then [] else CredentialOps(cfg, creds[0]) + PlanFrom(cfg, creds[1..])
  }

  function Plan(cfg: Config): seq<Op> {
    PlanFrom(cfg, cfg.credentials)
  }

  /** A credential that yields nothing at all, neither an error nor an attempt. */
  predicate Silent(cfg: Config, c: Credential) {
    && c.tls.TlsReady? && !c.ssh.SshFailed?
    && !cfg.hasDialer && cfg.addrs == [] && c.dialer.DialerAbsent?
  }

  lemma {:induction false} PlanFromEmpty(cfg: Config, creds: seq<Credential>)
    ensures PlanFrom(cfg, creds) == [] <==> forall c :: c in creds ==> Silent(cfg, c)
  {
    if creds != [] {
      PlanFromEmpty(cfg, creds[1..]);
      assert CredentialOps(cfg, creds[0]) == [] <==> Silent(cfg, creds[0]);
      assert forall c :: c in creds <==> c == creds[0] || c in creds[1..];
    }
  }

  /** The planner has nothing to do exactly when every credential is silent; so a validated
      configuration (some credential) that names a dialer or an address always yields work. */
  lemma PlanEmptyIff(cfg: Config)
    ensures Plan(cfg) == [] <==> forall c :: c in cfg.credentials ==> Silent(cfg, c)
    ensures cfg.credentials != [] && (cfg.hasDialer || cfg.addrs != []) ==> Plan(cfg) != []
  {
    PlanFromEmpty(cfg, cfg.credentials);
    if cfg.credentials != [] {
      assert cfg.credentials[0] in cfg.credentials;
    }
  }

  // ---- what the plan holds, and in what order ----

  /** The attempts for a list of addresses: each with TLS alone, or as auth server, proxy and tunnel. */
  lemma {:induction false} AddrOpsAt(addrs: seq<string>, ssh: bool)
    ensures |AddrOps(addrs, ssh)| == if ssh then 3 * |addrs| else |addrs|
    ensures ssh ==> forall i :: 0 <= i < |addrs| ==>
              AddrOps(addrs, ssh)[3 * i..3 * i + 3] == [Attempt(AuthAddr(addrs[i])), Attempt(ProxyAddr(addrs[i])), Attempt(TunnelAddr(addrs[i]))]
    ensures !ssh ==> forall i :: 0 <= i < |addrs| ==> AddrOps(addrs, ssh)[i] == Attempt(AuthAddr(addrs[i]))
  {
    if addrs != [] {
      var rest := AddrOps(addrs[1..], ssh);
      AddrOpsAt(addrs[1..], ssh);
      if ssh {
        forall i | 0 <= i < |addrs|
          ensures AddrOps(addrs, ssh)[3 * i..3 * i + 3] == [Attempt(AuthAddr(addrs[i])), Attempt(ProxyAddr(addrs[i])), Attempt(TunnelAddr(addrs[i]))]
        {
          if i > 0 {
            assert AddrOps(addrs, ssh)[3..] == rest;
            assert AddrOps(addrs, ssh)[3 * i..3 * i + 3] == rest[3 * (i - 1)..3 * (i - 1) + 3];
          }
        }
      }
    }
  }

  /** The attempts for address `i`, from position `m` on. */
  predicate AddressAt(ops: seq<Op>, m: nat, i: nat, addr: string, ssh: bool) {
    if ssh then m + 3 * i + 3 <= |ops|
                && ops[m + 3 * i..m + 3 * i + 3] == [Attempt(AuthAddr(addr)), Attempt(ProxyAddr(addr)), Attempt(TunnelAddr(addr))]
    else m + i < |ops| && ops[m + i] == Attempt(AuthAddr(addr))
  }

  lemma AddressesAfter(front: seq<Op>, addrs: seq<string>, ssh: bool)
    ensures forall i :: 0 <= i < |addrs| ==> AddressAt(front + AddrOps(addrs, ssh), |front|, i, addrs[i], ssh)
    ensures |front + AddrOps(addrs, ssh)| == |front| + if ssh then 3 * |addrs| else |addrs|
  {
    var ops := AddrOps(addrs, ssh);
    AddrOpsAt(addrs, ssh);
    hide AddrOps;
    forall i | 0 <= i < |addrs| ensures AddressAt(front + ops, |front|, i, addrs[i], ssh) {
      if ssh {
        assert (front + ops)[|front| + 3 * i..|front| + 3 * i + 3] == ops[3 * i..3 * i + 3];
      }
    }
  }

  lemma PlanIs(cfg: Config, c: Credential)
    requires cfg.credentials == [c]
    ensures Plan(cfg) == CredentialOps(cfg, c)
  {
    var none: seq<Credential> := [];
    assert cfg.credentials[1..] == none && PlanFrom(cfg, none) == [];
  }

  /** The actions for one credential, position by position: nothing but the error if its TLS or SSH settings fail;
      otherwise the configured dialer, the credential's own dialer or its error, and then every address. */
  lemma PlanOfOne(cfg: Config, c: Credential)
    requires cfg.credentials == [c]
    ensures c.tls.TlsFailed? ==> Plan(cfg) == [Report(c.tls.err)]
    ensures c.tls.TlsReady? && c.ssh.SshFailed? ==> Plan(cfg) == [Report(c.ssh.err)]
    ensures c.tls.TlsReady? && !c.ssh.SshFailed? ==>
              var n := if cfg.hasDialer then 1 else 0;
              var m := n + if c.dialer.DialerAbsent? then 0 else 1;
              && |Plan(cfg)| == m + (if c.ssh.SshReady? then 3 * |cfg.addrs| else |cfg.addrs|)
              && (cfg.hasDialer ==> Plan(cfg)[0] == Attempt(ConfigDialer))
              && (c.dialer.DialerReady? ==> Plan(cfg)[n] == Attempt(CredentialDialer))
              && (c.dialer.DialerFailed? ==> Plan(cfg)[n] == Report(c.dialer.err))
              && forall i :: 0 <= i < |cfg.addrs| ==> AddressAt(Plan(cfg), m, i, cfg.addrs[i], c.ssh.SshReady?)
  {
    PlanIs(cfg, c);
    hide Plan, AddrOps, AddressAt;
    if c.tls.TlsReady? && !c.ssh.SshFailed? {
      var ops := AddrOps(cfg.addrs, c.ssh.SshReady?);
      var front := (if cfg.hasDialer then [Attempt(ConfigDialer)] else [])
                   + OwnDialer(c);
      AddressesAfter(front, cfg.addrs, c.ssh.SshReady?);
    }
  }

  lemma {:induction false} PlanFromConcat(cfg: Config, a: seq<Credential>, b: seq<Credential>)
    ensures PlanFrom(cfg, a + b) == PlanFrom(cfg, a) + PlanFrom(cfg, b)
  {
    hide CredentialOps;
    if a == [] {
      assert a + b == b;
    } else {
      PlanFromConcat(cfg, a[1..], b);
      assert (a + b)[1..] == a[1..] + b;
    }
  }

  lemma {:induction false} PlanFromSame(cfg: Config, cfg': Config, creds: seq<Credential>)
    requires cfg.hasDialer == cfg'.hasDialer && cfg.addrs == cfg'.addrs
    ensures PlanFrom(cfg, creds) == PlanFrom(cfg', creds)
  {
    if creds != [] { PlanFromSame(cfg, cfg', creds[1..]); }
  }

  /** The plan takes the credentials one after the other. */
  lemma PlanConcat(cfg: Config, a: seq<Credential>, b: seq<Credential>)
    requires cfg.credentials == a + b
    ensures Plan(cfg) == Plan(cfg.(credentials := a)) + Plan(cfg.(credentials := b))
  {
    PlanFromConcat(cfg, a, b);
    PlanFromSame(cfg, cfg.(credentials := a), a);
    PlanFromSame(cfg, cfg.(credentials := b), b);
  }

  /** How often one credential makes the planner do `op`, on the fields of the configuration. */
  function Times(cfg: Config, c: Credential, op: Op): nat {
    var ready := c.tls.TlsReady? && !c.ssh.SshFailed?;
    match op
    case Report(e) =>
      if c.tls.TlsFailed? then (if c.tls.err == e then 1 else 0)
      else if c.ssh.SshFailed? then (if c.ssh.err == e then 1 else 0)
      else if c.dialer == DialerFailed(e) then 1 else 0
    case Attempt(target) =>
      match target
      case ConfigDialer => if ready && cfg.hasDialer then 1 else 0
      case CredentialDialer => if ready && c.dialer.DialerReady? then 1 else 0
      case AuthAddr(a) => if ready then multiset(cfg.addrs)[a] else 0
      case ProxyAddr(a) => if ready && c.ssh.SshReady? then multiset(cfg.addrs)[a] else 0
      case TunnelAddr(a) => if ready && c.ssh.SshReady? then multiset(cfg.addrs)[a] else 0
  }

  function TimesAll(cfg: Config, creds: seq<Credential>, op: Op): nat {
    if creds == [] then 0 else Times(cfg, creds[0], op) + TimesAll(cfg, creds[1..], op)
  }

  function AddrTimes(addrs: seq<string>, ssh: bool, op: Op): nat {
    match op
    case Attempt(AuthAddr(a)) => multiset(addrs)[a]
    case Attempt(ProxyAddr(a)) => if ssh then multiset(addrs)[a] else 0
    case Attempt(TunnelAddr(a)) => if ssh then multiset(addrs)[a] else 0
    case _ => 0
  }

  predicate ForAddr(addr: string, ssh: bool, op: Op) {
    op == Attempt(AuthAddr(addr)) || (ssh && (op == Attempt(ProxyAddr(addr)) || op == Attempt(TunnelAddr(addr))))
  }

  lemma AddrTimesStep(addrs: seq<string>, ssh: bool, op: Op)
    requires addrs != []
    ensures AddrTimes(addrs, ssh, op) == AddrTimes(addrs[1..], ssh, op) + if ForAddr(addrs[0], ssh, op) then 1 else 0
  {
    assert addrs == [addrs[0]] + addrs[1..];
  }

  lemma OneAddrCount(addr: string, ssh: bool, op: Op)
    ensures multiset(OneAddr(addr, ssh))[op] == if ForAddr(addr, ssh, op) then 1 else 0
  {
  }

  lemma CountConcat(a: seq<Op>, b: seq<Op>, op: Op)
    ensures multiset(a + b)[op] == multiset(a)[op] + multiset(b)[op]
  {
  }

  lemma {:induction false} AddrOpsCount(addrs: seq<string>, ssh: bool, op: Op)
    ensures multiset(AddrOps(addrs, ssh))[op] == AddrTimes(addrs, ssh, op)
  {
    hide AddrTimes, ForAddr, OneAddr;
    if addrs == [] {
      NoAddrTimes(ssh, op);
    } else {
      AddrOpsCount(addrs[1..], ssh, op);
      AddrTimesStep(addrs, ssh, op);
      OneAddrCount(addrs[0], ssh, op);
      CountConcat(OneAddr(addrs[0], ssh), AddrOps(addrs[1..], ssh), op);
    }
  }

  lemma NoAddrTimes(ssh: bool, op: Op)
    ensures AddrTimes([], ssh, op) == 0 && multiset(AddrOps([], ssh))[op] == 0
  {
  }

  lemma DialerCount(cfg: Config, c: Credential, op: Op)
    ensures multiset(if cfg.hasDialer then [Attempt(ConfigDialer)] else [])[op] == if op == Attempt(ConfigDialer) && cfg.hasDialer then 1 else 0
    ensures multiset(OwnDialer(c))[op]
         == if (op == Attempt(CredentialDialer) && c.dialer.DialerReady?) || (op.Report? && c.dialer == DialerFailed(op.err)) then 1 else 0
  {
  }

  lemma ReadyOpsCount(cfg: Config, c: Credential, op: Op)
    requires c.tls.TlsReady? && !c.ssh.SshFailed?
    ensures multiset(CredentialOps(cfg, c))[op] == Times(cfg, c, op)
  {
    hide AddrOps, OwnDialer;
    var first := if cfg.hasDialer then [Attempt(ConfigDialer)] else [];
    AddrOpsCount(cfg.addrs, c.ssh.SshReady?, op);
    DialerCount(cfg, c, op);
    CountConcat(first + OwnDialer(c), AddrOps(cfg.addrs, c.ssh.SshReady?), op);
    CountConcat(first, OwnDialer(c), op);
  }

  lemma CredentialOpsCount(cfg: Config, c: Credential, op: Op)
    ensures multiset(CredentialOps(cfg, c))[op] == Times(cfg, c, op)
  {
    hide AddrOps, OwnDialer;
    if c.tls.TlsReady? && !c.ssh.SshFailed? { ReadyOpsCount(cfg, c, op); }
  }

  lemma {:induction false} PlanFromCount(cfg: Config, creds: seq<Credential>, op: Op)
    ensures multiset(PlanFrom(cfg, creds))[op] == TimesAll(cfg, creds, op)
    ensures TimesAll(cfg, creds, op) > 0 <==> exists c :: c in creds && Times(cfg, c, op) > 0
  {
    hide CredentialOps, Times;
    if creds != [] {
      PlanFromCount(cfg, creds[1..], op);
      CredentialOpsCount(cfg, creds[0], op);
      assert forall c :: c in creds <==> c == creds[0] || c in creds[1..];
    }
  }

  /** How often the plan holds each action: for an address, once for every time it is configured and every credential
      that allows it. */
  lemma PlanCounts(cfg: Config, op: Op)
    ensures multiset(Plan(cfg))[op] == TimesAll(cfg, cfg.credentials, op)
    ensures op in Plan(cfg) <==> exists c :: c in cfg.credentials && Times(cfg, c, op) > 0
  {
    PlanFromCount(cfg, cfg.credentials, op);
  }

  /** Exactly which attempts and errors the plan holds, for every address and every error. */
  lemma PlanMembers(cfg: Config, a: string, e: Error)
    ensures Attempt(TunnelAddr(a)) in Plan(cfg) <==>
              a in cfg.addrs && exists c :: c in cfg.credentials && c.tls.TlsReady? && c.ssh.SshReady?
    ensures Attempt(ProxyAddr(a)) in Plan(cfg) <==>
              a in cfg.addrs && exists c :: c in cfg.credentials && c.tls.TlsReady? && c.ssh.SshReady?
    ensures Attempt(AuthAddr(a)) in Plan(cfg) <==>
              a in cfg.addrs && exists c :: c in cfg.credentials && c.tls.TlsReady? && !c.ssh.SshFailed?
    ensures Attempt(ConfigDialer) in Plan(cfg) <==>
              cfg.hasDialer && exists c :: c in cfg.credentials && c.tls.TlsReady? && !c.ssh.SshFailed?
    ensures Attempt(CredentialDialer) in Plan(cfg) <==>
              exists c :: c in cfg.credentials && c.tls.TlsReady? && !c.ssh.SshFailed? && c.dialer.DialerReady?
    ensures Report(e) in Plan(cfg) <==>
              exists c :: c in cfg.credentials &&
                (c.tls == TlsFailed(e) || (c.tls.TlsReady? && (c.ssh == SshFailed(e) || (!c.ssh.SshFailed? && c.dialer == DialerFailed(e)))))
  {
    hide Plan;
    assert multiset(cfg.addrs)[a] > 0 <==> a in cfg.addrs;
    PlanCounts(cfg, Attempt(TunnelAddr(a)));
    PlanCounts(cfg, Attempt(ProxyAddr(a)));
    PlanCounts(cfg, Attempt(AuthAddr(a)));
    PlanCounts(cfg, Attempt(ConfigDialer));
    PlanCounts(cfg, Attempt(CredentialDialer));
    PlanCounts(cfg, Report(e));
  }
}
