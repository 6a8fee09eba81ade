/** Outbound delivery: the relay and policy tables, the admin operations that change
    them, and the engine that resolves a domain to direct or relay. */
module Delivery {
  import opened Text

  datatype TLSMode = StartTLS | ImplicitTLS | NoTLS | OtherTLS

  datatype Mode = Direct | ViaRelay | Inherit | OtherMode

  datatype Scope = GlobalScope | DomainScope | MailboxScope

  /** The providers with a preset, and any other string. */
  datatype Provider = Ses | Postmark | Mailgun | Smtp2go | Resend | Custom | UnknownProvider

  datatype Relay = Relay(
    id: int, name: string, provider: Provider, host: string, port: int,
    username: string, encryptedPassword: string, tlsMode: TLSMode, enabled: bool)

  datatype Policy = Policy(id: int, scope: Scope, scopeId: int, mode: Mode, relayId: Option<int>, enabled: bool)

  datatype Error =
    | InvalidRelay | InvalidPassword | PasswordRequired | NameTaken | NotFound | RelayInUse
    | InvalidMode | GlobalCannotInherit | RelayRequired | RelayMissing | RelayDisabled
    | DirectUnavailable | GlobalPolicyMissing

  /** The two tables and their AUTOINCREMENT counters. Relays are keyed by id. */
  datatype Tables = Tables(relays: map<int, Relay>, policies: seq<Policy>, nextRelay: int, nextPolicy: int)

  /** The database as the first migration leaves it. */
  const SEED := Tables(map[], [Policy(1, GlobalScope, 0, Direct, None, true)], 1, 2)

  // ---- validation ----

  /** No control character. */
  predicate Clean(s: string) {
    forall i :: 0 <= i < |s| ==> !IsControl(s[i])
  }

  predicate BareHost(host: string) {
    host != "" && Clean(host) && ' ' !in host && '/' !in host && ':' !in host
  }

  /** `ValidateRelay` accepts. */
  predicate ValidRelay(r: Relay) {
    && TrimSpace(r.name) != "" && Clean(r.name)
    && r.provider != UnknownProvider
    && BareHost(TrimSpace(r.host))
    && Clean(r.username)
    && 1 <= r.port <= 65535
    && (r.tlsMode == StartTLS || r.tlsMode == ImplicitTLS)
  }

  // ---- queries ----

  function PolicyIndex(policies: seq<Policy>, scope: Scope, scopeId: int): (i: nat)
    ensures i <= |policies|
    ensures i < |policies| ==> policies[i].scope == scope && policies[i].scopeId == scopeId
    ensures forall j :: 0 <= j < i ==> !(policies[j].scope == scope && policies[j].scopeId == scopeId)
  {
    if policies == [] || (policies[0].scope == scope && policies[0].scopeId == scopeId) then 0
    else
      var k := PolicyIndex(policies[1..], scope, scopeId);
      assert forall j :: 1 <= j < 1 + k ==> policies[j] == policies[1..][j - 1];
      1 + k
  }

  function PolicyFor(t: Tables, scope: Scope, scopeId: int): Option<Policy> {
    var i := PolicyIndex(t.policies, scope, scopeId);
    if i < |t.policies| then Some(t.policies[i]) else None
  }

  predicate NameUsedByOther(t: Tables, name: string, id: int) {
    exists k :: k in t.relays && k != id && t.relays[k].name == name
  }

  predicate UsedByEnabledPolicy(t: Tables, relayId: int) {
    exists i :: 0 <= i < |t.policies| && t.policies[i].relayId == Some(relayId) && t.policies[i].enabled
  }

  // ---- admin operations ----

  datatype Op =
    | SaveRelay(relay: Relay, password: string, sealed: string)
    | DeleteRelay(relayId: int)
    | SetPolicy(scope: Scope, scopeId: int, mode: Mode, choice: Option<int>, directOpen: bool)
    | DeletePolicy(policyId: int)

  function Normalize(r: Relay, password: string, sealed: string): (n: Relay)
    ensures n.id == r.id && n.username == r.username
  {
    r.(name := TrimSpace(r.name), host := TrimSpace(r.host),
       encryptedPassword := if password != "" then sealed else "")
  }

  /** The row a normalized relay becomes: a new one for id 0, else the existing one,
      whose password stays when none is given. */
  function Place(t: Tables, r: Relay): Result<Relay, Error> {
    var id := if r.id == 0 then t.nextRelay else r.id;
    if r.id == 0 && r.encryptedPassword == "" && r.username != "" then Err(PasswordRequired)
    else if r.id != 0 && r.id !in t.relays then Err(NotFound)
    else if NameUsedByOther(t, r.name, id) then Err(NameTaken)
    else if r.id != 0 && r.encryptedPassword == "" then
      Ok(r.(encryptedPassword := t.relays[r.id].encryptedPassword))
    else Ok(r.(id := id))
  }

  /** The relay that `SaveRelay` is about to store, or why it refuses. */
  function RelayToStore(t: Tables, r: Relay, password: string, sealed: string): Result<Relay, Error> {
    var normal := Normalize(r, password, sealed);
    if !ValidRelay(normal) then Err(InvalidRelay)
    else if !Clean(password) then Err(InvalidPassword)
    else Place(t, normal)
  }

  function WithRelay(t: Tables, saved: Relay, isNew: bool): Tables {
    t.(relays := t.relays[saved.id := saved], nextRelay := if isNew then t.nextRelay + 1 else t.nextRelay)
  }

  function SetRelayNull(policies: seq<Policy>, relayId: int): (r: seq<Policy>)
    ensures |r| == |policies|
    ensures forall i :: 0 <= i < |r| ==>
      r[i] == if policies[i].relayId == Some(relayId) then policies[i].(relayId := None) else policies[i]
  {
    seq(|policies|, i requires 0 <= i < |policies| =>
      if policies[i].relayId == Some(relayId) then policies[i].(relayId := None) else policies[i])
  }

  /** Why `SetPolicy` refuses, if it does. */
  function PolicyError(t: Tables, scope: Scope, mode: Mode, choice: Option<int>, directOpen: bool): Option<Error> {
    if mode == Direct && !directOpen then Some(DirectUnavailable)
    else if mode == OtherMode then Some(InvalidMode)
    else if scope == GlobalScope && mode == Inherit then Some(GlobalCannotInherit)
    else if mode != ViaRelay then None
    else if choice.None? then Some(RelayRequired)
    else if choice.value !in t.relays then Some(RelayMissing)
    else if !t.relays[choice.value].enabled then Some(RelayDisabled)
    else None
  }

  function UpsertPolicy(t: Tables, scope: Scope, scopeId: int, mode: Mode, relayId: Option<int>): Tables {
    var i := PolicyIndex(t.policies, scope, scopeId);
    if i < |t.policies| then
      t.(policies := t.policies[i := t.policies[i].(mode := mode, relayId := relayId, enabled := true)])
    else
      t.(policies := t.policies + [Policy(t.nextPolicy, scope, scopeId, mode, relayId, true)],
         nextPolicy := t.nextPolicy + 1)
  }

  /** All rows but the non-global one with this id. */
  function WithoutPolicy(policies: seq<Policy>, id: int): (r: seq<Policy>)
    ensures forall p :: p in r <==> p in policies && !(p.id == id && p.scope != GlobalScope)
  {
    if policies == [] then [] else
      var rest := WithoutPolicy(policies[1..], id);
      assert policies == [policies[0]] + policies[1..];
      if policies[0].id == id && policies[0].scope != GlobalScope then rest else [policies[0]] + rest
  }

  function Apply(t: Tables, op: Op): (r: (Tables, Option<Error>))
    ensures r.1.Some? ==> r.0 == t
  {
    match op
    case SaveRelay(relay, password, sealed) =>
      (match RelayToStore(t, relay, password, sealed)
       case Err(e) => (t, Some(e))
       case Ok(saved) => (WithRelay(t, saved, relay.id == 0), None))
    case DeleteRelay(id) =>
      if id !in t.relays then (t, Some(NotFound))
      else if UsedByEnabledPolicy(t, id) then (t, Some(RelayInUse))
      else (t.(relays := t.relays - {id}, policies := SetRelayNull(t.policies, id)), None)
    case SetPolicy(scope, scopeId, mode, choice, directOpen) =>
      var e := PolicyError(t, scope, mode, choice, directOpen);
      if e.Some? then (t, e)
      else (UpsertPolicy(t, scope, scopeId, mode, if mode == ViaRelay then choice else None), None)
    case DeletePolicy(id) =>
      var left := WithoutPolicy(t.policies, id);
      if left == t.policies then (t, Some(NotFound)) else (t.(policies := left), None)
  }

  function Run(t: Tables, ops: seq<Op>): Tables
    decreases |ops|
  {
    if ops == [] then t else Run(Apply(t, ops[0]).0, ops[1..])
  }

  // ---- the invariant ----

  ghost predicate RelaysOk(t: Tables) {
    && (forall id :: id in t.relays ==> 1 <= id < t.nextRelay && t.relays[id].id == id)
    && (forall a, b :: a in t.relays && b in t.relays && t.relays[a].name == t.relays[b].name ==> a == b)
  }

  ghost predicate PolicyOk(t: Tables, p: Policy) {
    && p.id < t.nextPolicy
    && p.enabled
    && p.mode != OtherMode
    && (p.scope == GlobalScope ==> p.mode != Inherit)
    && (p.mode == ViaRelay <==> p.relayId.Some?)
    && (p.relayId.Some? ==> p.relayId.value in t.relays)
  }

  ghost predicate PoliciesDistinct(policies: seq<Policy>) {
    forall i, j :: 0 <= i < j < |policies| ==>
      policies[i].id != policies[j].id
      && (policies[i].scope, policies[i].scopeId) != (policies[j].scope, policies[j].scopeId)
  }

  /** One policy per scope; a global policy, never `inherit`; relay policies and only
      those name a relay, and it exists. */
  ghost predicate Inv(t: Tables) {
    && RelaysOk(t)
    && 1 <= t.nextRelay
    && (forall p :: p in t.policies ==> PolicyOk(t, p))
    && PoliciesDistinct(t.policies)
    && PolicyFor(t, GlobalScope, 0).Some?
  }

  lemma PlacedRelay(t: Tables, r: Relay)
    requires Place(t, r).Ok?
    ensures var saved := Place(t, r).value;
            && !NameUsedByOther(t, saved.name, saved.id)
            && saved.id == (if r.id == 0 then t.nextRelay else r.id)
            && (r.id != 0 ==> r.id in t.relays)
            && saved == r.(id := saved.id, encryptedPassword := saved.encryptedPassword)
  {
  }

  lemma StoreRelayKeepsInv(t: Tables, t': Tables, saved: Relay)
    requires Inv(t) && !NameUsedByOther(t, saved.name, saved.id)
    requires t' == t.(relays := t.relays[saved.id := saved], nextRelay := t'.nextRelay)
    requires 1 <= t.nextRelay <= t'.nextRelay && 1 <= saved.id < t'.nextRelay
    ensures Inv(t')
  {
    forall p | p in t'.policies
      ensures PolicyOk(t', p)
    {
      assert PolicyOk(t, p);
    }
  }

  lemma SaveRelayKeepsInv(t: Tables, relay: Relay, password: string, sealed: string)
    requires Inv(t)
    ensures Inv(Apply(t, SaveRelay(relay, password, sealed)).0)
  {
    var saved := RelayToStore(t, relay, password, sealed);
    if saved.Ok? {
      PlacedRelay(t, Normalize(relay, password, sealed));
      StoreRelayKeepsInv(t, Apply(t, SaveRelay(relay, password, sealed)).0, saved.value);
    }
  }

  lemma DeleteRelayKeepsInv(t: Tables, id: int)
    requires Inv(t)
    ensures Inv(Apply(t, DeleteRelay(id)).0)
  {
    var t' := Apply(t, DeleteRelay(id)).0;
    if t' != t {
      forall i | 0 <= i < |t.policies|
        ensures t'.policies[i] == t.policies[i] && PolicyOk(t', t'.policies[i])
      {
        assert PolicyOk(t, t.policies[i]);
      }
      assert t'.policies == t.policies;
    }
  }

  lemma PutPolicyKeepsInv(t: Tables, t': Tables, i: nat)
    requires Inv(t) && i < |t'.policies| && t'.relays == t.relays && t'.nextRelay == t.nextRelay
    requires PoliciesDistinct(t'.policies) && PolicyOk(t', t'.policies[i]) && t.nextPolicy <= t'.nextPolicy
    requires forall k :: 0 <= k < |t'.policies| && k != i ==> t'.policies[k] in t.policies
    requires PolicyFor(t', GlobalScope, 0).Some?
    ensures Inv(t')
  {
    forall p | p in t'.policies
      ensures PolicyOk(t', p)
    {
      var k :| 0 <= k < |t'.policies| && t'.policies[k] == p;
      if k != i {
        assert PolicyOk(t, p);
      }
    }
  }

  lemma UpsertPolicyKeepsInv(t: Tables, scope: Scope, scopeId: int, mode: Mode, relayId: Option<int>)
    requires Inv(t)
    requires mode != OtherMode && (scope == GlobalScope ==> mode != Inherit)
    requires (mode == ViaRelay <==> relayId.Some?) && (relayId.Some? ==> relayId.value in t.relays)
    ensures Inv(UpsertPolicy(t, scope, scopeId, mode, relayId))
  {
    var t' := UpsertPolicy(t, scope, scopeId, mode, relayId);
    var i := PolicyIndex(t.policies, scope, scopeId);
    var g := PolicyIndex(t.policies, GlobalScope, 0);
    assert t'.policies[g].scope == GlobalScope && t'.policies[g].scopeId == 0;
    forall k | 0 <= k < |t.policies|
      ensures t.policies[k].id < t.nextPolicy
    {
      assert PolicyOk(t, t.policies[k]);
    }
    PutPolicyKeepsInv(t, t', i);
  }

  lemma {:induction false} WithoutPolicyDistinct(policies: seq<Policy>, id: int)
    requires PoliciesDistinct(policies)
    ensures PoliciesDistinct(WithoutPolicy(policies, id))
  {
    if policies != [] {
      WithoutPolicyDistinct(policies[1..], id);
      var rest := WithoutPolicy(policies[1..], id);
      forall j | 0 <= j < |rest|
        ensures policies[0].id != rest[j].id
        ensures (policies[0].scope, policies[0].scopeId) != (rest[j].scope, rest[j].scopeId)
      {
        assert rest[j] in policies[1..];
      }
    }
  }

  lemma DeletePolicyKeepsInv(t: Tables, id: int)
    requires Inv(t)
    ensures Inv(Apply(t, DeletePolicy(id)).0)
  {
    var t' := Apply(t, DeletePolicy(id)).0;
    WithoutPolicyDistinct(t.policies, id);
    var g := PolicyFor(t, GlobalScope, 0).value;
    assert g in t'.policies;
    forall p | p in t'.policies
      ensures PolicyOk(t', p)
    {
      assert PolicyOk(t, p);
    }
  }

  lemma ApplyKeepsInv(t: Tables, op: Op)
    requires Inv(t)
    ensures Inv(Apply(t, op).0)
  {
    match op
    case SaveRelay(relay, password, sealed) =>
      SaveRelayKeepsInv(t, relay, password, sealed);
    case DeleteRelay(id) =>
      DeleteRelayKeepsInv(t, id);
    case SetPolicy(scope, scopeId, mode, choice, directOpen) =>
      if PolicyError(t, scope, mode, choice, directOpen).None? {
        UpsertPolicyKeepsInv(t, scope, scopeId, mode, if mode == ViaRelay then choice else None);
      }
    case DeletePolicy(id) =>
      DeletePolicyKeepsInv(t, id);
  }

  lemma {:induction false} RunKeepsInv(t: Tables, ops: seq<Op>)
    requires Inv(t)
    ensures Inv(Run(t, ops))
    decreases |ops|
  {
    if ops != [] {
      ApplyKeepsInv(t, ops[0]);
      RunKeepsInv(Apply(t, ops[0]).0, ops[1..]);
    }
  }

  /** Every database the admin operations can reach from a fresh one is consistent. */
  lemma ReachableInv(ops: seq<Op>)
    ensures Inv(Run(SEED, ops))
  {
    assert PolicyOk(SEED, SEED.policies[0]);
    RunKeepsInv(SEED, ops);
  }

  // ---- what validation leaves in the relay table ----

  /** `open` decrypts under the instance secret. Nothing in the row can break out of a map line. */
  predicate Usable(r: Relay, open: string -> Option<string>) {
    && BareHost(r.host)
    && Clean(r.username)
    && 1 <= r.port <= 65535
    && (r.tlsMode == StartTLS || r.tlsMode == ImplicitTLS)
    && (r.encryptedPassword != "" ==>
          open(r.encryptedPassword).Some? && Clean(open(r.encryptedPassword).value))
  }

  ghost predicate AllUsable(t: Tables, open: string -> Option<string>) {
    forall id :: id in t.relays ==> Usable(t.relays[id], open)
  }

  /** Decryption undoes the encryption each save performed. */
  predicate Sealed(op: Op, open: string -> Option<string>) {
    op.SaveRelay? && op.password != "" ==> op.sealed != "" && open(op.sealed) == Some(op.password)
  }

  lemma NormalizedUsable(r: Relay, password: string, sealed: string, open: string -> Option<string>)
    requires ValidRelay(Normalize(r, password, sealed)) && Clean(password)
    requires Sealed(SaveRelay(r, password, sealed), open)
    ensures Usable(Normalize(r, password, sealed), open)
  {
    TrimSpaceTrims(r.host);
    TrimSpaceFixes(TrimSpace(r.host));
  }

  lemma PlacedUsable(t: Tables, r: Relay, open: string -> Option<string>)
    requires AllUsable(t, open) && Usable(r, open)
    ensures Place(t, r).Ok? ==> Usable(Place(t, r).value, open)
  {
  }

  lemma ApplyKeepsUsable(t: Tables, op: Op, open: string -> Option<string>)
    requires AllUsable(t, open) && Sealed(op, open)
    ensures AllUsable(Apply(t, op).0, open)
  {
    if op.SaveRelay? && RelayToStore(t, op.relay, op.password, op.sealed).Ok? {
      NormalizedUsable(op.relay, op.password, op.sealed, open);
      PlacedUsable(t, Normalize(op.relay, op.password, op.sealed), open);
    }
  }

  lemma {:induction false} RunKeepsUsable(t: Tables, ops: seq<Op>, open: string -> Option<string>)
    requires AllUsable(t, open)
    requires forall i :: 0 <= i < |ops| ==> Sealed(ops[i], open)
    ensures AllUsable(Run(t, ops), open)
    decreases |ops|
  {
    if ops != [] {
      ApplyKeepsUsable(t, ops[0], open);
      RunKeepsUsable(Apply(t, ops[0]).0, ops[1..], open);
    }
  }

  // ---- the engine ----

  datatype Source = FromDomain | FromGlobal

  datatype Resolved = Resolved(mode: Mode, relay: Option<Relay>, source: Source)

  function Materialize(t: Tables, p: Policy, source: Source): Result<Resolved, Error> {
    if p.mode != ViaRelay then Ok(Resolved(p.mode, None, source))
    else if p.relayId.None? then Err(RelayRequired)
    else if p.relayId.value !in t.relays then Err(RelayMissing)
    else if !t.relays[p.relayId.value].enabled then Err(RelayDisabled)
    else Ok(Resolved(ViaRelay, Some(t.relays[p.relayId.value]), source))
  }

  function ResolveGlobal(t: Tables): Result<Resolved, Error> {
    match PolicyFor(t, GlobalScope, 0)
    case None => Err(GlobalPolicyMissing)
    case Some(p) =>
      if p.mode == Inherit then Ok(Resolved(Direct, None, FromGlobal)) else Materialize(t, p, FromGlobal)
  }

  function ResolveForDomain(t: Tables, domainId: int): Result<Resolved, Error> {
    var p := PolicyFor(t, DomainScope, domainId);
    if p.Some? && p.value.enabled && p.value.mode != Inherit then Materialize(t, p.value, FromDomain)
    else ResolveGlobal(t)
  }

  /** The policy row that decides for a domain. */
  function Governing(t: Tables, domainId: int): Policy
    requires PolicyFor(t, GlobalScope, 0).Some?
  {
    var p := PolicyFor(t, DomainScope, domainId);
    if p.Some? && p.value.mode != Inherit then p.value else PolicyFor(t, GlobalScope, 0).value
  }

  /** The relay a relay policy of a consistent database names. */
  ghost function ChosenRelay(t: Tables, p: Policy): Relay
    requires PolicyOk(t, p) && p.mode == ViaRelay
  {
    t.relays[p.relayId.value]
  }

  lemma GoverningOk(t: Tables, domainId: int)
    requires Inv(t)
    ensures PolicyOk(t, Governing(t, domainId))
  {
    var p := PolicyFor(t, DomainScope, domainId);
    var g := PolicyFor(t, GlobalScope, 0).value;
    assert g in t.policies && (p.Some? ==> p.value in t.policies);
  }

  /** In a consistent database resolution fails exactly when the governing policy names a
      disabled relay; it never falls back from relay to direct. */
  lemma ResolveExactly(t: Tables, domainId: int)
    requires Inv(t)
    ensures var g, r := Governing(t, domainId), ResolveForDomain(t, domainId);
            && PolicyOk(t, g)
            && (r.Err? <==> g.mode == ViaRelay && !ChosenRelay(t, g).enabled)
            && (r.Err? ==> r.error == RelayDisabled)
            && (r.Ok? ==> r.value.mode == g.mode && (g.mode == Direct || g.mode == ViaRelay))
            && (r.Ok? && g.mode == ViaRelay ==> r.value.relay == Some(ChosenRelay(t, g)))
  {
    GoverningOk(t, domainId);
    var p := PolicyFor(t, DomainScope, domainId);
    assert p.Some? ==> p.value in t.policies && PolicyOk(t, p.value);
  }

  /** Some direct resolution always comes from a direct policy, over every run. */
  lemma NeverSilentlyDirect(ops: seq<Op>, domainId: int)
    ensures var t := Run(SEED, ops);
            PolicyFor(t, GlobalScope, 0).Some?
            && (ResolveForDomain(t, domainId).Ok? && ResolveForDomain(t, domainId).value.mode == Direct
                ==> Governing(t, domainId).mode == Direct)
  {
    ReachableInv(ops);
    ResolveExactly(Run(SEED, ops), domainId);
  }

  // ---- what the operations do ----

  /** What validation accepts is a name, a known provider, and a relay that is usable. */
  lemma AcceptedIsUsable(r: Relay, open: string -> Option<string>)
    ensures ValidRelay(r) <==>
            && TrimSpace(r.name) != "" && Clean(r.name) && r.provider in {Ses, Postmark, Mailgun, Smtp2go, Resend, Custom}
            && Usable(r.(host := TrimSpace(r.host), encryptedPassword := ""), open)
  {
  }

  /** A relay is saved exactly if it is valid, its password is clean, there is one if it has a user
      name and is new, it exists if it is not, and no other relay has its name. */
  lemma SavedExactly(t: Tables, r: Relay, password: string, sealed: string)
    requires password != "" ==> sealed != ""
    ensures var id := if r.id == 0 then t.nextRelay else r.id;
            Apply(t, SaveRelay(r, password, sealed)).1 == None <==>
            && ValidRelay(r.(name := TrimSpace(r.name), host := TrimSpace(r.host))) && Clean(password)
            && (if r.id == 0 then r.username == "" || password != "" else r.id in t.relays)
            && (forall k :: k in t.relays && k != id ==> t.relays[k].name != TrimSpace(r.name))
  {
  }

  /** It is stored as it was entered, name and host trimmed; an edit without a password keeps the
      one there was. Nothing else changes. */
  lemma SavedRelay(t: Tables, r: Relay, password: string, sealed: string)
    requires password != "" ==> sealed != ""
    ensures var (t', e) := Apply(t, SaveRelay(r, password, sealed));
            var id := if r.id == 0 then t.nextRelay else r.id;
            e == None ==>
              && id in t'.relays
              && t'.relays[id].encryptedPassword ==
                 (if password != "" then sealed else if id in t.relays && r.id != 0 then t.relays[id].encryptedPassword else "")
              && t'.relays[id] == Relay(id, TrimSpace(r.name), r.provider, TrimSpace(r.host), r.port, r.username,
                                        t'.relays[id].encryptedPassword, r.tlsMode, r.enabled)
              && t'.relays - {id} == t.relays - {id}
              && t'.policies == t.policies
  {
    var (t', e) := Apply(t, SaveRelay(r, password, sealed));
    var id := if r.id == 0 then t.nextRelay else r.id;
    if e == None {
      assert t'.relays == t.relays[id := t'.relays[id]];
    }
  }

  /** A relay is deleted exactly if it exists and no enabled policy names it; in a consistent
      database the policies stay. */
  lemma DeletedExactly(t: Tables, id: int)
    ensures var (t', e) := Apply(t, DeleteRelay(id));
            && (e == None <==> id in t.relays && forall p :: p in t.policies && p.enabled ==> p.relayId != Some(id))
            && (e == None ==> t'.relays == t.relays - {id})
            && (e == None && Inv(t) ==> t'.policies == t.policies)
  {
    var (t', e) := Apply(t, DeleteRelay(id));
    assert forall i :: 0 <= i < |t.policies| ==> t.policies[i] in t.policies;
    if e == None && Inv(t) {
      forall i | 0 <= i < |t.policies|
        ensures t'.policies[i] == t.policies[i]
      {
        assert PolicyOk(t, t.policies[i]);
      }
    }
  }

  lemma SameIndex(a: seq<Policy>, b: seq<Policy>, scope: Scope, scopeId: int)
    requires |a| <= |b|
    requires forall i :: 0 <= i < |a| ==> a[i].scope == b[i].scope && a[i].scopeId == b[i].scopeId
    requires forall i :: |a| <= i < |b| ==> !(b[i].scope == scope && b[i].scopeId == scopeId)
    ensures PolicyIndex(a, scope, scopeId) == PolicyIndex(b, scope, scopeId)
         || (PolicyIndex(a, scope, scopeId) == |a| && PolicyIndex(b, scope, scopeId) == |b|)
  {
    var i, j := PolicyIndex(a, scope, scopeId), PolicyIndex(b, scope, scopeId);
    assert i < |a| ==> b[i].scope == scope;
    assert j < |b| ==> b[j].scope == scope;
  }

  /** A policy is set exactly if its mode is one there is and open to its scope, direct delivery is
      possible where that is asked for, and a relay policy names an enabled relay. */
  lemma SetExactly(t: Tables, scope: Scope, scopeId: int, mode: Mode, choice: Option<int>, directOpen: bool)
    ensures Apply(t, SetPolicy(scope, scopeId, mode, choice, directOpen)).1 == None <==>
            && (mode == Direct || mode == ViaRelay || mode == Inherit)
            && (mode == Direct ==> directOpen)
            && (scope == GlobalScope ==> mode != Inherit)
            && (mode == ViaRelay ==> choice.Some? && choice.value in t.relays && t.relays[choice.value].enabled)
  {
  }

  lemma UpsertOwn(t: Tables, scope: Scope, scopeId: int, mode: Mode, relayId: Option<int>)
    ensures PolicyFor(UpsertPolicy(t, scope, scopeId, mode, relayId), scope, scopeId) ==
            Some(Policy(if PolicyFor(t, scope, scopeId).Some? then PolicyFor(t, scope, scopeId).value.id else t.nextPolicy,
                        scope, scopeId, mode, relayId, true))
  {
    var t' := UpsertPolicy(t, scope, scopeId, mode, relayId);
    var i := PolicyIndex(t.policies, scope, scopeId);
    assert t'.policies[i].scope == scope && t'.policies[i].scopeId == scopeId;
    assert forall j :: 0 <= j < i ==> t'.policies[j] == t.policies[j];
    assert PolicyIndex(t'.policies, scope, scopeId) == i;
  }

  lemma UpsertOthers(t: Tables, scope: Scope, scopeId: int, mode: Mode, relayId: Option<int>, other: Scope, otherId: int)
    requires (other, otherId) != (scope, scopeId)
    ensures PolicyFor(UpsertPolicy(t, scope, scopeId, mode, relayId), other, otherId) == PolicyFor(t, other, otherId)
  {
    SameIndex(t.policies, UpsertPolicy(t, scope, scopeId, mode, relayId).policies, other, otherId);
  }

  /** Then it is the policy of its scope, under the id of the one before if there was one; the other
      scopes keep theirs. */
  lemma PolicySet(t: Tables, scope: Scope, scopeId: int, mode: Mode, choice: Option<int>, directOpen: bool, other: Scope, otherId: int)
    ensures var (t', e) := Apply(t, SetPolicy(scope, scopeId, mode, choice, directOpen));
            e == None ==>
              && t'.relays == t.relays
              && PolicyFor(t', scope, scopeId) ==
                 Some(Policy(if PolicyFor(t, scope, scopeId).Some? then PolicyFor(t, scope, scopeId).value.id else t.nextPolicy,
                             scope, scopeId, mode, if mode == ViaRelay then choice else None, true))
              && ((other, otherId) != (scope, scopeId) ==> PolicyFor(t', other, otherId) == PolicyFor(t, other, otherId))
  {
    var relayId := if mode == ViaRelay then choice else None;
    UpsertOwn(t, scope, scopeId, mode, relayId);
    if (other, otherId) != (scope, scopeId) {
      UpsertOthers(t, scope, scopeId, mode, relayId, other, otherId);
    }
  }

  lemma PolicyIs(t: Tables, p: Policy)
    requires PoliciesDistinct(t.policies) && p in t.policies
    ensures PolicyFor(t, p.scope, p.scopeId) == Some(p)
  {
    var k :| 0 <= k < |t.policies| && t.policies[k] == p;
    var i := PolicyIndex(t.policies, p.scope, p.scopeId);
    assert i <= k;
  }

  /** Deleting takes the policy with the id away from its scope, unless that is the global one; the
      other scopes keep theirs. */
  lemma PolicyDeleted(t: Tables, id: int, scope: Scope, scopeId: int)
    requires Inv(t)
    ensures var (t', e) := Apply(t, DeletePolicy(id));
            var was := PolicyFor(t, scope, scopeId);
            && t'.relays == t.relays
            && PolicyFor(t', scope, scopeId) == (if was.Some? && was.value.id == id && scope != GlobalScope then None else was)
            && (e == None <==> exists p :: p in t.policies && p.id == id && p.scope != GlobalScope)
  {
    var (t', e) := Apply(t, DeletePolicy(id));
    var was, left := PolicyFor(t, scope, scopeId), PolicyFor(t', scope, scopeId);
    WithoutPolicyDistinct(t.policies, id);
    if was.Some? && !(was.value.id == id && scope != GlobalScope) {
      PolicyIs(t', was.value);
    }
    if left.Some? {
      assert left.value in t'.policies;
      PolicyIs(t, left.value);
    }
    if !(exists p :: p in t.policies && p.id == id && p.scope != GlobalScope) {
      NothingWithout(t.policies, id);
    }
  }

  lemma {:induction false} NothingWithout(policies: seq<Policy>, id: int)
    requires forall p :: p in policies ==> !(p.id == id && p.scope != GlobalScope)
    ensures WithoutPolicy(policies, id) == policies
  {
    if policies != [] {
      NothingWithout(policies[1..], id);
      assert policies[0] in policies;
    }
  }

  // ---- the store, updated in place ----

  class Store {
    var relays: map<int, Relay>
    var policies: seq<Policy>
    var nextRelay: int
    var nextPolicy: int

    function Contents(): Tables
      reads this
    {
      Tables(relays, policies, nextRelay, nextPolicy)
    }

    constructor ()
      ensures Contents() == SEED
    {
      relays, policies := map[], [Policy(1, GlobalScope, 0, Direct, None, true)];
      nextRelay, nextPolicy := 1, 2;
    }

    /** `Store.CreateRelay` or `Store.UpdateRelay`, with the checks `Core.SaveRelay` makes before each. */
    method PutRelay(relay: Relay) returns (saved: Result<Relay, Error>)
      modifies this
      ensures saved == Place(old(Contents()), relay)
      ensures Contents() ==
        if saved.Ok? then WithRelay(old(Contents()), saved.value, relay.id == 0) else old(Contents())
    {
      var row := relay;
      if relay.id == 0 {
        if relay.encryptedPassword == "" && relay.username != "" {
          return Err(PasswordRequired);
        }
        row := relay.(id := nextRelay);
      } else {
        if relay.id !in relays {
          return Err(NotFound);
        }
        if relay.encryptedPassword == "" {
          row := relay.(encryptedPassword := relays[relay.id].encryptedPassword);
        }
      }
      if NameUsedByOther(Contents(), row.name, row.id) {
        return Err(NameTaken);
      }
      if relay.id == 0 {
        nextRelay := nextRelay + 1;
      }
      relays := relays[row.id := row];
      return Ok(row);
    }

    method SaveRelay(r: Relay, password: string, sealed: string) returns (saved: Result<Relay, Error>)
      modifies this
      ensures Contents() == Apply(old(Contents()), Op.SaveRelay(r, password, sealed)).0
      ensures saved == RelayToStore(old(Contents()), r, password, sealed)
    {
      var relay := Normalize(r, password, sealed);
      if !ValidRelay(relay) {
        return Err(InvalidRelay);
      }
      if !Clean(password) {
        return Err(InvalidPassword);
      }
      saved := PutRelay(relay);
    }

    method DeleteRelay(id: int) returns (e: Option<Error>)
      modifies this
      ensures (Contents(), e) == Apply(old(Contents()), Op.DeleteRelay(id))
    {
      if id !in relays {
        return Some(NotFound);
      }
      var inUse := 0;
      for i := 0 to |policies|
        invariant inUse > 0 <==> exists k :: 0 <= k < i && policies[k].relayId == Some(id) && policies[k].enabled
      {
        if policies[i].relayId == Some(id) && policies[i].enabled {
          inUse := inUse + 1;
        }
      }
      if inUse > 0 {
        return Some(RelayInUse);
      }
      relays := relays - {id};
      policies := SetRelayNull(policies, id);
      return None;
    }

    /** `Core.UpsertPolicy`, `Engine.SetPolicy` and `Store.UpsertPolicy` in turn. */
    method SetPolicy(scope: Scope, scopeId: int, mode: Mode, choice: Option<int>, directOpen: bool)
      returns (e: Option<Error>)
      modifies this
      ensures (Contents(), e) == Apply(old(Contents()), Op.SetPolicy(scope, scopeId, mode, choice, directOpen))
    {
      if mode == Direct && !directOpen {
        return Some(DirectUnavailable);
      }
      if mode == OtherMode {
        return Some(InvalidMode);
      }
      if scope == GlobalScope && mode == Inherit {
        return Some(GlobalCannotInherit);
      }
      var relayId := choice;
      if mode == ViaRelay {
        if relayId.None? {
          return Some(RelayRequired);
        }
        if relayId.value !in relays {
          return Some(RelayMissing);
        }
        if !relays[relayId.value].enabled {
          return Some(RelayDisabled);
        }
      } else {
        relayId := None;
      }
      var i := PolicyIndex(policies, scope, scopeId);
      if i < |policies| {
        policies := policies[i := policies[i].(mode := mode, relayId := relayId, enabled := true)];
      } else {
        policies := policies + [Policy(nextPolicy, scope, scopeId, mode, relayId, true)];
        nextPolicy := nextPolicy + 1;
      }
      return None;
    }

    method DeletePolicy(id: int) returns (e: Option<Error>)
      modifies this
      ensures (Contents(), e) == Apply(old(Contents()), Op.DeletePolicy(id))
    {
      var left := WithoutPolicy(policies, id);
      if left == policies {
        return Some(NotFound);
      }
      policies := left;
      return None;
    }
  }
}
