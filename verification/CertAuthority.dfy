/** The key sets of a certificate authority as values: lookup under the two storage schemas, and
    what stripping secrets means (api/types/authority.go). The SSH, TLS and JWT key pairs have the
    same shape; `public` is the certificate of a TLS pair. A nil slice is the empty one. */
module CertAuthoritySpec {
  type Blob = seq<int>

  datatype KeyType = RAW | PKCS11

  datatype Pair = Pair(keyType: KeyType, private: Blob, public: Blob)

  datatype KeySet = KeySet(ssh: seq<Pair>, tls: seq<Pair>, jwt: seq<Pair>)

  datatype CA = CA(checkingKeys: seq<Blob>, signingKeys: seq<Blob>, tlsPairs: seq<Pair>, jwtPairs: seq<Pair>,
                   active: KeySet, additional: KeySet)

  predicate Empty(ks: KeySet) {
    ks.ssh == [] && ks.tls == [] && ks.jwt == []
  }

  /** The old schema keeps active keys at index 0 and additional trusted keys at index 1. */
  function OldKeySet(ca: CA, index: nat): KeySet {
    if index > 1 then KeySet([], [], []) else KeySet(
      if index < |ca.checkingKeys|
      then [Pair(RAW, if index < |ca.signingKeys| then ca.signingKeys[index] else [], ca.checkingKeys[index])] else [],
      if index < |ca.tlsPairs| then [ca.tlsPairs[index]] else [],
      if index < |ca.jwtPairs| then [ca.jwtPairs[index]] else [])
  }

  function ActiveKeys(ca: CA): KeySet {
    if !Empty(ca.active) then ca.active else OldKeySet(ca, 0)
  }

  function AdditionalKeys(ca: CA): KeySet {
    if !Empty(ca.additional) then ca.additional else OldKeySet(ca, 1)
  }

  /** The three trusted lists: active keys first. */
  function Trusted(ca: CA): KeySet {
    var a, b := ActiveKeys(ca), AdditionalKeys(ca);
    KeySet(a.ssh + b.ssh, a.tls + b.tls, a.jwt + b.jwt)
  }

  // ---- where the keys are kept ----

  const NO_KEYS := KeySet([], [], [])

  /** The old schema: an authority with two keys of each type holds the active ones first and the additional trusted
      ones second, the SSH pairs split over two lists and always raw. */
  lemma OldLayout(a: Pair, b: Pair, ta: Pair, tb: Pair, ja: Pair, jb: Pair)
    requires a.keyType == b.keyType == RAW
    ensures var ca := CA([a.public, b.public], [a.private, b.private], [ta, tb], [ja, jb], NO_KEYS, NO_KEYS);
            && ActiveKeys(ca) == KeySet([a], [ta], [ja]) && AdditionalKeys(ca) == KeySet([b], [tb], [jb])
            && Trusted(ca) == KeySet([a, b], [ta, tb], [ja, jb])
  {
  }

  /** With one key of each type there are no additional ones. */
  lemma OldLayoutSingle(a: Pair, ta: Pair, ja: Pair)
    requires a.keyType == RAW
    ensures var ca := CA([a.public], [a.private], [ta], [ja], NO_KEYS, NO_KEYS);
            && ActiveKeys(ca) == KeySet([a], [ta], [ja]) && AdditionalKeys(ca) == NO_KEYS
            && Trusted(ca) == KeySet([a], [ta], [ja])
  {
  }

  /** A checking key without its signing key is a pair without its private part. */
  lemma OldLayoutPublic(p: Blob, q: Blob, s: Blob)
    ensures var ca := CA([p, q], [s], [], [], NO_KEYS, NO_KEYS);
            && ActiveKeys(ca) == KeySet([Pair(RAW, s, p)], [], []) && AdditionalKeys(ca) == KeySet([Pair(RAW, [], q)], [], [])
    ensures var ca := CA([p], [], [], [], NO_KEYS, NO_KEYS);
            ActiveKeys(ca) == KeySet([Pair(RAW, [], p)], [], []) && AdditionalKeys(ca) == NO_KEYS
  {
  }

  /** Any old lists: positions 0 and 1 count, each list by itself, and nothing after them. */
  lemma OldPositions(ca: CA)
    requires ca.active == NO_KEYS && ca.additional == NO_KEYS
    ensures ActiveKeys(ca).tls == (if ca.tlsPairs != [] then [ca.tlsPairs[0]] else [])
    ensures ActiveKeys(ca).jwt == (if ca.jwtPairs != [] then [ca.jwtPairs[0]] else [])
    ensures |ActiveKeys(ca).ssh| == (if ca.checkingKeys != [] then 1 else 0)
    ensures ca.checkingKeys != [] ==>
              ActiveKeys(ca).ssh[0] == Pair(RAW, if ca.signingKeys != [] then ca.signingKeys[0] else [], ca.checkingKeys[0])
    ensures AdditionalKeys(ca).tls == (if |ca.tlsPairs| > 1 then [ca.tlsPairs[1]] else [])
    ensures AdditionalKeys(ca).jwt == (if |ca.jwtPairs| > 1 then [ca.jwtPairs[1]] else [])
    ensures |AdditionalKeys(ca).ssh| == (if |ca.checkingKeys| > 1 then 1 else 0)
    ensures |ca.checkingKeys| > 1 ==>
              AdditionalKeys(ca).ssh[0] == Pair(RAW, if |ca.signingKeys| > 1 then ca.signingKeys[1] else [], ca.checkingKeys[1])
  {
  }

  lemma NoOldKeysBeyond(ca: CA, index: nat)
    ensures index > 1 ==> OldKeySet(ca, index) == NO_KEYS
  {
  }

  /** A key set of the new schema that holds any key wins over the old lists as a whole, each side by itself; and
      the trusted lists are the active keys followed by the additional ones. */
  lemma NewSchemaWins(ca: CA)
    ensures ca.active != NO_KEYS ==> ActiveKeys(ca) == ca.active
    ensures ca.additional != NO_KEYS ==> AdditionalKeys(ca) == ca.additional
    ensures ca.active == NO_KEYS ==> ActiveKeys(ca) == ActiveKeys(ca.(additional := NO_KEYS))
    ensures ca.additional == NO_KEYS ==> AdditionalKeys(ca) == AdditionalKeys(ca.(active := NO_KEYS))
    ensures Trusted(ca).ssh == ActiveKeys(ca).ssh + AdditionalKeys(ca).ssh
    ensures Trusted(ca).tls == ActiveKeys(ca).tls + AdditionalKeys(ca).tls
    ensures Trusted(ca).jwt == ActiveKeys(ca).jwt + AdditionalKeys(ca).jwt
  {
  }

  // ---- stripping secrets ----

  function StripAll(ps: seq<Pair>): seq<Pair> {
    seq(|ps|, i requires 0 <= i < |ps| => ps[i].(private := []))
  }

  function StripKeys(ks: KeySet): KeySet {
    KeySet(StripAll(ks.ssh), StripAll(ks.tls), StripAll(ks.jwt))
  }

  function StripCA(ca: CA): CA {
    ca.(signingKeys := [], tlsPairs := StripAll(ca.tlsPairs), jwtPairs := StripAll(ca.jwtPairs),
        active := StripKeys(ca.active), additional := StripKeys(ca.additional))
  }

  lemma StripOld(ca: CA, index: nat)
    ensures OldKeySet(StripCA(ca), index) == StripKeys(OldKeySet(ca, index))
  {
    var a, b := OldKeySet(StripCA(ca), index), StripKeys(OldKeySet(ca, index));
    assert a.ssh == b.ssh && a.tls == b.tls && a.jwt == b.jwt;
  }

  lemma StripEmpty(ks: KeySet)
    ensures Empty(StripKeys(ks)) <==> Empty(ks)
  {
    assert |StripAll(ks.ssh)| == |ks.ssh| && |StripAll(ks.tls)| == |ks.tls| && |StripAll(ks.jwt)| == |ks.jwt|;
  }

  lemma StripConcat(ps: seq<Pair>, qs: seq<Pair>)
    ensures StripAll(ps + qs) == StripAll(ps) + StripAll(qs)
  {
  }

  /** Looking keys up in the stripped authority gives the stripped keys, under both schemas. */
  lemma StripCommutes(ca: CA)
    ensures ActiveKeys(StripCA(ca)) == StripKeys(ActiveKeys(ca))
    ensures AdditionalKeys(StripCA(ca)) == StripKeys(AdditionalKeys(ca))
    ensures Trusted(StripCA(ca)) == StripKeys(Trusted(ca))
  {
    hide Empty, StripAll, OldKeySet;
    StripOld(ca, 0);
    StripOld(ca, 1);
    StripEmpty(ca.active);
    StripEmpty(ca.additional);
    var a, b := ActiveKeys(ca), AdditionalKeys(ca);
    StripConcat(a.ssh, b.ssh);
    StripConcat(a.tls, b.tls);
    StripConcat(a.jwt, b.jwt);
  }

  predicate NoPrivate(ps: seq<Pair>) {
    forall i :: 0 <= i < |ps| ==> ps[i].private == []
  }

  predicate SamePublic(ps: seq<Pair>, qs: seq<Pair>) {
    |ps| == |qs| && forall i :: 0 <= i < |ps| ==> ps[i].public == qs[i].public && ps[i].keyType == qs[i].keyType
  }

  /** What a reader of the stripped authority can see. */
  lemma StrippedLists(ca: CA)
    ensures var t, u := Trusted(StripCA(ca)), Trusted(ca);
            && NoPrivate(t.ssh) && NoPrivate(t.tls) && NoPrivate(t.jwt)
            && SamePublic(t.ssh, u.ssh) && SamePublic(t.tls, u.tls) && SamePublic(t.jwt, u.jwt)
    ensures StripCA(StripCA(ca)) == StripCA(ca)
  {
    StripCommutes(ca);
    assert forall ps :: StripAll(StripAll(ps)) == StripAll(ps);
  }

  /** Nothing secret is left anywhere, reachable by a getter or not, and all that is public stays. */
  lemma NothingSecretLeft(ca: CA)
    ensures var t := StripCA(ca);
            && t.signingKeys == [] && t.checkingKeys == ca.checkingKeys
            && NoPrivate(t.tlsPairs) && SamePublic(t.tlsPairs, ca.tlsPairs)
            && NoPrivate(t.jwtPairs) && SamePublic(t.jwtPairs, ca.jwtPairs)
            && NoPrivate(t.active.ssh + t.active.tls + t.active.jwt)
            && NoPrivate(t.additional.ssh + t.additional.tls + t.additional.jwt)
            && SamePublic(t.active.ssh, ca.active.ssh) && SamePublic(t.active.tls, ca.active.tls) && SamePublic(t.active.jwt, ca.active.jwt)
            && SamePublic(t.additional.ssh, ca.additional.ssh) && SamePublic(t.additional.tls, ca.additional.tls)
            && SamePublic(t.additional.jwt, ca.additional.jwt)
  {
  }

  // ---- writing keys back ----

  /** `CheckAndSetDefaults` of a key set: no pair without its public part. */
  predicate ValidPairs(ps: seq<Pair>) {
    forall i :: 0 <= i < |ps| ==> ps[i].public != []
  }

  predicate ValidKeys(ks: KeySet) {
    ValidPairs(ks.ssh) && ValidPairs(ks.tls) && ValidPairs(ks.jwt)
  }

  /** A key set is refused exactly when some pair of it has no public part. */
  lemma ValidKeysMeans(ks: KeySet)
    ensures ValidKeys(ks) <==> forall p :: p in ks.ssh || p in ks.tls || p in ks.jwt ==> p.public != []
  {
  }

  /** A setter refuses an invalid key set and leaves the authority as it was. */
  function SetActive(ca: CA, ks: KeySet): CA {
    if ValidKeys(ks) then ca.(active := ks) else ca
  }

  function SetAdditional(ca: CA, ks: KeySet): CA {
    if ValidKeys(ks) then ca.(additional := ks) else ca
  }

  /** Writing an authority's own keys back moves them to the new schema; no trusted key is lost, added
      or reordered, whether a side is empty or refused, and in either order. */
  lemma WriteBackKeepsTrust(ca: CA)
    ensures Trusted(SetAdditional(SetActive(ca, ActiveKeys(ca)), AdditionalKeys(ca))) == Trusted(ca)
    ensures SetActive(SetAdditional(ca, AdditionalKeys(ca)), ActiveKeys(ca)) == SetAdditional(SetActive(ca, ActiveKeys(ca)), AdditionalKeys(ca))
    ensures ValidKeys(ActiveKeys(ca)) ==> SetActive(ca, ActiveKeys(ca)).active == ActiveKeys(ca)
  {
    var moved := SetAdditional(SetActive(ca, ActiveKeys(ca)), AdditionalKeys(ca));
    assert OldKeySet(moved, 0) == OldKeySet(ca, 0) && OldKeySet(moved, 1) == OldKeySet(ca, 1);
  }
}

/** The authority object: key pairs are objects shared by reference, which cloning copies and
    stripping overwrites. The source holds the old TLS and JWT pairs by value, so there they share no
    pair with the new sets; here they may. */
module CertAuthorityObject {
  import opened CertAuthoritySpec

  class KeyPair {
    var keyType: KeyType
    var private: Blob
    var public: Blob

    constructor (keyType: KeyType, private: Blob, public: Blob)
      ensures View() == Pair(keyType, private, public)
    {
      this.keyType, this.private, this.public := keyType, private, public;
    }

    ghost function View(): Pair
      reads this
    {
      Pair(keyType, private, public)
    }
  }

  ghost function Views(ps: seq<KeyPair>): seq<Pair>
    reads ps
  {
    seq(|ps|, i requires 0 <= i < |ps| reads ps => ps[i].View())
  }

  /** Deep copy: new objects with the same contents. */
  method CloneAll(ps: seq<KeyPair>) returns (out: seq<KeyPair>)
    ensures Views(out) == Views(ps)
    ensures forall k :: k in out ==> fresh(k)
    ensures fresh(set k | k in out)
  {
    out := [];
    for i := 0 to |ps|
      invariant Views(out) == Views(ps)[..i]
      invariant forall k :: k in out ==> fresh(k)
    {
      var k := new KeyPair(ps[i].keyType, ps[i].private, ps[i].public);
      out := out + [k];
    }
  }

  /** Every pair has its public part. */
  method CheckAll(ps: seq<KeyPair>) returns (ok: bool)
    ensures ok <==> ValidPairs(Views(ps))
  {
    for i := 0 to |ps|
      invariant forall j :: 0 <= j < i ==> ps[j].public != []
    {
      if |ps[i].public| == 0 {
        assert Views(ps)[i].public == [];
        return false;
      }
    }
    return true;
  }

  /** Overwrite every private key. */
  method EraseAll(ps: seq<KeyPair>)
    modifies set k | k in ps
    ensures forall k :: k in ps ==> k.private == [] && k.public == old(k.public) && k.keyType == old(k.keyType)
  {
    for i := 0 to |ps|
      invariant forall k :: k in ps ==> k.public == old(k.public) && k.keyType == old(k.keyType)
      invariant forall j :: 0 <= j < i ==> ps[j].private == []
    {
      ps[i].private := [];
    }
  }

  twostate lemma ErasedViews(ps: seq<KeyPair>)
    requires forall k :: k in ps ==> k.private == [] && k.public == old(k.public) && k.keyType == old(k.keyType)
    ensures Views(ps) == StripAll(old(Views(ps)))
  {
  }

  twostate lemma StripsAlike(ps: seq<KeyPair>)
    requires forall k :: k in ps ==> k.public == old(k.public) && k.keyType == old(k.keyType)
    ensures StripAll(Views(ps)) == StripAll(old(Views(ps)))
  {
  }

  lemma ViewsConcat(ps: seq<KeyPair>, qs: seq<KeyPair>)
    ensures Views(ps + qs) == Views(ps) + Views(qs)
  {
  }

  datatype Keys = Keys(ssh: seq<KeyPair>, tls: seq<KeyPair>, jwt: seq<KeyPair>) {
    ghost function View(): KeySet
      reads ssh, tls, jwt
    {
      KeySet(Views(ssh), Views(tls), Views(jwt))
    }

    ghost predicate Holds(k: KeyPair) {
      k in ssh || k in tls || k in jwt
    }

    method Clone() returns (out: Keys)
      ensures out.View() == View()
      ensures forall k :: out.Holds(k) ==> fresh(k)
    {
      var ssh' := CloneAll(ssh);
      var tls' := CloneAll(tls);
      var jwt' := CloneAll(jwt);
      out := Keys(ssh', tls', jwt');
    }

    /** `CheckAndSetDefaults` of a key set. */
    method Check() returns (ok: bool)
      ensures ok <==> ValidKeys(View())
    {
      ok := CheckAll(ssh);
      if ok { ok := CheckAll(tls); }
      if ok { ok := CheckAll(jwt); }
    }

    method WithoutSecrets() returns (out: Keys)
      ensures out.View() == StripKeys(View())
      ensures forall k :: out.Holds(k) ==> fresh(k)
    {
      var ssh' := CloneStripped(ssh);
      var tls' := CloneStripped(tls);
      var jwt' := CloneStripped(jwt);
      out := Keys(ssh', tls', jwt');
    }
  }

  method CloneStripped(ps: seq<KeyPair>) returns (out: seq<KeyPair>)
    ensures Views(out) == StripAll(Views(ps))
    ensures forall k :: k in out ==> fresh(k)
  {
    out := CloneAll(ps);
    label cloned:
    EraseAll(out);
    ErasedViews@cloned(out);
  }

  /** The old-schema loops of `RemoveCASecrets`. Key pairs that the new-schema sets share with the old
      lists lose their private part too, which changes nothing about what stripping them gives. */
  method EraseOldPairs(tls: seq<KeyPair>, jwt: seq<KeyPair>, ghost a: Keys, ghost b: Keys)
    modifies (set k | k in tls), (set k | k in jwt)
    ensures Views(tls) == StripAll(old(Views(tls))) && Views(jwt) == StripAll(old(Views(jwt)))
    ensures StripKeys(a.View()) == StripKeys(old(a.View())) && StripKeys(b.View()) == StripKeys(old(b.View()))
  {
    hide Views, StripAll;
    EraseAll(tls);
    EraseAll(jwt);
    ErasedViews(tls);
    ErasedViews(jwt);
    KeysStripAlike(a);
    KeysStripAlike(b);
  }

  twostate lemma KeysStripAlike(ks: Keys)
    requires forall k: KeyPair :: old(allocated(k)) ==> k.public == old(k.public) && k.keyType == old(k.keyType)
    ensures StripKeys(ks.View()) == StripKeys(old(ks.View()))
  {
    StripsAlike(ks.ssh);
    StripsAlike(ks.tls);
    StripsAlike(ks.jwt);
  }

  /** The pair at an index, copied, if there is one. */
  method CloneAt(ps: seq<KeyPair>, index: nat) returns (out: seq<KeyPair>)
    ensures Views(out) == if index < |Views(ps)| then [Views(ps)[index]] else []
    ensures forall k :: k in out ==> fresh(k)
  {
    if index >= |ps| {
      return [];
    }
    out := CloneAll([ps[index]]);
  }

  /** The SSH pair that two old-schema lists hold at an index, the private part only if it is there. */
  method PairAt(checkingKeys: seq<Blob>, signingKeys: seq<Blob>, index: nat) returns (out: seq<KeyPair>)
    ensures Views(out) == if index < |checkingKeys|
                          then [Pair(RAW, if index < |signingKeys| then signingKeys[index] else [], checkingKeys[index])] else []
    ensures forall k :: k in out ==> fresh(k)
  {
    if index >= |checkingKeys| {
      return [];
    }
    var kp := new KeyPair(RAW, [], checkingKeys[index]);
    if index < |signingKeys| {
      kp.private := signingKeys[index];
    }
    out := [kp];
  }

  /** The key fields of the authority; its lists refer to shared key pair objects. */
  datatype Authority = Authority(checkingKeys: seq<Blob>, signingKeys: seq<Blob>, tlsPairs: seq<KeyPair>, jwtPairs: seq<KeyPair>,
                                 active: Keys, additional: Keys)
  {
    ghost function View(): CA
      reads tlsPairs, jwtPairs, active.ssh, active.tls, active.jwt, additional.ssh, additional.tls, additional.jwt
    {
      CA(checkingKeys, signingKeys, Views(tlsPairs), Views(jwtPairs), active.View(), additional.View())
    }

    ghost predicate Holds(k: KeyPair) {
      k in tlsPairs || k in jwtPairs || active.Holds(k) || additional.Holds(k)
    }

    /** `proto.Clone`: a deep copy. */
    method Clone() returns (ca: Authority)
      ensures ca.View() == View()
      ensures forall k :: ca.Holds(k) ==> fresh(k)
    {
      hide Views;
      var tls := CloneAll(tlsPairs);
      var jwt := CloneAll(jwtPairs);
      var a := active.Clone();
      var b := additional.Clone();
      ca := Authority(checkingKeys, signingKeys, tls, jwt, a, b);
    }

    /** Overwrites the old-schema pairs in place and replaces the new-schema sets by stripped copies. */
    method RemoveCASecrets() returns (ca: Authority)
      modifies (set k | k in tlsPairs), (set k | k in jwtPairs)
      ensures ca.View() == StripCA(old(View()))
      ensures ca.tlsPairs == tlsPairs && ca.jwtPairs == jwtPairs
      ensures forall k :: ca.active.Holds(k) || ca.additional.Holds(k) ==> fresh(k)
    {
      hide Views, StripKeys;
      EraseOldPairs(tlsPairs, jwtPairs, active, additional);
      var a := active.WithoutSecrets();
      var b := additional.WithoutSecrets();
      ca := this.(signingKeys := [], active := a, additional := b);
    }

    /** A stripped copy that shares nothing with the original, which stays as it was. */
    method WithoutSecrets() returns (ca: Authority)
      ensures forall k :: ca.Holds(k) ==> fresh(k)
      ensures ca.View() == StripCA(View()) && View() == old(View())
    {
      hide Views, StripCA;
      var copy := Clone();
      assert forall k :: k in copy.tlsPairs || k in copy.jwtPairs ==> copy.Holds(k);
      ca := copy.RemoveCASecrets();
    }

    /** The old-schema keys, copied out: nothing of the authority is shared. */
    method GetOldKeySet(index: nat) returns (ks: Keys)
      ensures ks.View() == OldKeySet(View(), index)
      ensures forall k :: ks.Holds(k) ==> fresh(k)
    {
      if index > 1 {
        return Keys([], [], []);
      }
      hide Views;
      var ssh := PairAt(checkingKeys, signingKeys, index);
      var tls := CloneAt(tlsPairs, index);
      var jwt := CloneAt(jwtPairs, index);
      ks := Keys(ssh, tls, jwt);
    }

    method GetActiveKeys() returns (ks: Keys)
      ensures ks.View() == ActiveKeys(View())
      ensures ks == active || forall k :: ks.Holds(k) ==> fresh(k)
    {
      if |active.ssh| > 0 || |active.tls| > 0 || |active.jwt| > 0 {
        return active;
      }
      ks := GetOldKeySet(0);
    }

    method GetAdditionalTrustedKeys() returns (ks: Keys)
      ensures ks.View() == AdditionalKeys(View())
      ensures ks == additional || forall k :: ks.Holds(k) ==> fresh(k)
    {
      if |additional.ssh| > 0 || |additional.tls| > 0 || |additional.jwt| > 0 {
        return additional;
      }
      ks := GetOldKeySet(1);
    }

    method SetActiveKeys(ks: Keys) returns (ca: Authority, ok: bool)
      ensures ok <==> ValidKeys(ks.View())
      ensures ca == if ok then this.(active := ks) else this
      ensures ca.View() == SetActive(View(), ks.View())
    {
      ok := ks.Check();
      ca := if ok then this.(active := ks) else this;
    }

    method SetAdditionalTrustedKeys(ks: Keys) returns (ca: Authority, ok: bool)
      ensures ok <==> ValidKeys(ks.View())
      ensures ca == if ok then this.(additional := ks) else this
      ensures ca.View() == SetAdditional(View(), ks.View())
    {
      ok := ks.Check();
      ca := if ok then this.(additional := ks) else this;
    }

    method GetBoth() returns (a: Keys, b: Keys)
      ensures a.View() == ActiveKeys(View()) && b.View() == AdditionalKeys(View())
    {
      hide Views, OldKeySet, ActiveKeys, AdditionalKeys;
      a := GetActiveKeys();
      b := GetAdditionalTrustedKeys();
    }

    method SetBoth(a: Keys, b: Keys) returns (ca: Authority)
      ensures ca.View() == SetAdditional(SetActive(View(), a.View()), b.View())
    {
      hide Views, ValidKeys;
      var ok: bool;
      ca, ok := SetActiveKeys(a);
      ca, ok := ca.SetAdditionalTrustedKeys(b);
    }

    /** Reading an authority's own keys and setting them: a move to the new schema that no reader of the
        trusted lists notices, though a side may be refused and the sets then share pairs. */
    method WriteBack() returns (ca: Authority)
      ensures Trusted(ca.View()) == Trusted(View())
      ensures ValidKeys(ActiveKeys(View())) ==> ca.active.View() == ActiveKeys(View())
      ensures ValidKeys(AdditionalKeys(View())) ==> ca.additional.View() == AdditionalKeys(View())
    {
      hide Views, Trusted, ValidKeys, OldKeySet, ActiveKeys, AdditionalKeys;
      ghost var v := View();
      WriteBackKeepsTrust(v);
      var a, b := GetBoth();
      ca := SetBoth(a, b);
    }

    method GetTrustedSSHKeyPairs() returns (kps: seq<KeyPair>)
      ensures Views(kps) == Trusted(View()).ssh && forall k :: k in kps ==> fresh(k)
    {
      var a, b := GetBoth();
      kps := CloneBoth(a.ssh, b.ssh);
    }

    method GetTrustedTLSKeyPairs() returns (kps: seq<KeyPair>)
      ensures Views(kps) == Trusted(View()).tls && forall k :: k in kps ==> fresh(k)
    {
      var a, b := GetBoth();
      kps := CloneBoth(a.tls, b.tls);
    }

    method GetTrustedJWTKeyPairs() returns (kps: seq<KeyPair>)
      ensures Views(kps) == Trusted(View()).jwt && forall k :: k in kps ==> fresh(k)
    {
      var a, b := GetBoth();
      kps := CloneBoth(a.jwt, b.jwt);
    }
  }

  /** Copies of one list and then of another. */
  method CloneBoth(ps: seq<KeyPair>, qs: seq<KeyPair>) returns (out: seq<KeyPair>)
    ensures Views(out) == Views(ps) + Views(qs)
    ensures forall k :: k in out ==> fresh(k)
  {
    var a := CloneAll(ps);
    var b := CloneAll(qs);
    ViewsConcat(a, b);
    out := a + b;
  }
}

/** The automatic rotation schedule, in the 64-bit nanosecond durations of package time. Instants
    are unbounded; zero is the zero time. */
module RotationSchedule {
  import opened Options

  const MIN64 := -0x8000_0000_0000_0000
  const MAX64 := 0x7fff_ffff_ffff_ffff

  type Duration = d: int | MIN64 <= d <= MAX64

  datatype Schedule = Schedule(updateClients: int, updateServers: int, standby: int)

  /** Two's-complement wrap-around. */
  function Wrap(x: int): Duration {
    var m := x % 0x1_0000_0000_0000_0000;
    if m > MAX64 then m - 0x1_0000_0000_0000_0000 else m
  }

  /** Division that truncates toward zero. */
  function Third(d: int): int {
    if d >= 0 then d / 3 else -((0 - d) / 3)
  }

  lemma WrapDouble(grace: Duration)
    requires grace > 0
    ensures Wrap(grace * 2) == if grace * 2 <= MAX64 then grace * 2 else grace * 2 - 0x1_0000_0000_0000_0000
  {
  }

  function GenerateSchedule(now: int, grace: Duration): Option<Schedule> {
    if grace <= 0 then None
    else Some(Schedule(now + Third(grace), now + Third(Wrap(grace * 2)), now + grace))
  }

  /** `CheckAndSetDefaults` of a schedule. */
  predicate Passes(s: Schedule, now: int) {
    s.updateServers != 0 && s.standby != 0 && s.standby >= s.updateServers && s.updateServers >= now && s.standby >= now
  }

  /** The validator wants both checked phases set, in order and not in the past; it does not look at the client phase. */
  lemma ValidatorMeans(s: Schedule, now: int)
    ensures s.updateServers == 0 || s.standby == 0 || s.standby < s.updateServers || s.updateServers < now ==> !Passes(s, now)
    ensures s.updateServers != 0 && s.standby != 0 && now <= s.updateServers <= s.standby ==> Passes(s, now)
  {
  }

  predicate Ordered(s: Schedule, now: int) {
    now <= s.updateClients <= s.updateServers <= s.standby
  }

  /** There is a schedule exactly for a positive period. The client phase comes a third of the period after now, the
      server phase two thirds, both rounded down, as long as the double of the period fits in 64 bits; otherwise
      a third of the negative wrapped product, rounded toward zero. */
  lemma ScheduleMeans(now: int, grace: Duration)
    ensures GenerateSchedule(now, grace).None? <==> grace <= 0
    ensures grace > 0 ==>
              var s := GenerateSchedule(now, grace).value;
              && 3 * (s.updateClients - now) <= grace < 3 * (s.updateClients - now) + 3
              && s.standby == now + grace
              && (2 * grace < 0x8000_0000_0000_0000 ==> 3 * (s.updateServers - now) <= 2 * grace < 3 * (s.updateServers - now) + 3)
              && (2 * grace >= 0x8000_0000_0000_0000 ==>
                    3 * (s.updateServers - now) - 3 < 2 * grace - 0x1_0000_0000_0000_0000 <= 3 * (s.updateServers - now))
  {
    if grace > 0 { WrapDouble(grace); }
    hide Wrap;
  }

  /** A positive grace period gives phases in order exactly when twice the period fits in 64 bits;
      a longer one makes the product wrap and puts the server phase before the client phase. */
  lemma ScheduleOrderedIff(now: int, grace: Duration)
    requires grace > 0
    ensures var s := GenerateSchedule(now, grace).value;
            (Ordered(s, now) <==> grace * 2 <= MAX64) && s.standby == now + grace
  {
    WrapDouble(grace);
    hide Wrap;
  }

  /** The generated schedule passes the validator at the same time exactly when twice the period fits, or
      the period is the largest of all and the product wraps to -2, and neither checked phase falls on
      the zero time; in particular for every start after the zero time. */
  lemma SchedulePassesIff(now: int, grace: Duration)
    requires grace > 0
    ensures var s := GenerateSchedule(now, grace).value;
            && (Passes(s, now) <==> (grace * 2 <= MAX64 && now != -(grace * 2 / 3) && now != -grace)
                                    || (grace == MAX64 && now != 0 && now != -grace))
            && (now > 0 && grace * 2 <= MAX64 ==> Passes(s, now))
  {
    WrapDouble(grace);
    hide Wrap;
  }
}
