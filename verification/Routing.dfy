/** The routing compiler: delivery policies become Postfix tables, and the tables, printed
    and read back, mean what the policies mean. */
module Routing {
  import opened Text
  import opened Delivery
  import opened PostfixMaps
  import opened Nexthops

  datatype Domain = Domain(id: int, name: string)

  type Opener = string -> Option<string>

  // ---- what each relay contributes ----

  function Nexthop(r: Relay): string {
    "[" + r.host + "]:" + FormatInt(r.port)
  }

  function RelayTransport(r: Relay): string {
    if r.tlsMode == ImplicitTLS then "relaytls:" + Nexthop(r) else "smtp:" + Nexthop(r)
  }

  /** The login in the form `user:password`, "" for a relay without one, or nothing when
      the stored password does not decrypt. */
  function Credentials(r: Relay, open: Opener): Option<string> {
    if r.username == "" && r.encryptedPassword == "" then Some("")
    else match open(r.encryptedPassword)
      case Some(password) => Some(r.username + ":" + password)
      case None => None
  }

  function UseOf(r: Relay, open: Opener): Use {
    Use(Nexthop(r), Credentials(r, open), r.tlsMode == StartTLS)
  }

  function UsesOf(relays: seq<Relay>, open: Opener): (u: seq<Use>)
    ensures |u| == |relays|
    ensures forall i :: 0 <= i < |u| ==> u[i] == UseOf(relays[i], open)
  {
    seq(|relays|, i requires 0 <= i < |relays| => UseOf(relays[i], open))
  }

  // ---- the tables for a database ----

  predicate DomainResolves(t: Tables, d: Domain) {
    ResolveForDomain(t, d.id).Ok?
  }

  predicate Resolves(t: Tables, domains: seq<Domain>) {
    ResolveGlobal(t).Ok? && forall i :: 0 <= i < |domains| ==> DomainResolves(t, domains[i])
  }

  function RelayIn(r: Resolved): seq<Relay> {
    if r.mode == Direct || r.relay.None? then [] else [r.relay.value]
  }

  function TransportOf(r: Resolved): string {
    if r.mode == Direct || r.relay.None? then "smtp:" else RelayTransport(r.relay.value)
  }

  function DefaultTransport(r: Resolved): string {
    if r.mode == Direct then "smtp" else TransportOf(r)
  }

  function Override(t: Tables, d: Domain): seq<Resolved> {
    match ResolveForDomain(t, d.id)
    case Ok(r) => if r.source == FromDomain then [r] else []
    case Err(_) => []
  }

  /** The relays of the domains with a policy of their own, in the order of the list. */
  function DomainRelays(t: Tables, domains: seq<Domain>): seq<Relay> {
    if domains == [] then [] else
      var n := |domains| - 1;
      var own := Override(t, domains[n]);
      DomainRelays(t, domains[..n]) + (if own == [] then [] else RelayIn(own[0]))
  }

  function SenderKey(domain: string): string {
    "@" + domain
  }

  /** A domain without a policy of its own has no entry: it takes the default transport. */
  function SenderEntry(t: Tables, d: Domain): seq<Entry> {
    var own := Override(t, d);
    if own == [] then [] else [(SenderKey(d.name), TransportOf(own[0]))]
  }

  function SenderEntries(t: Tables, domains: seq<Domain>): seq<Entry> {
    if domains == [] then [] else
      SenderEntries(t, domains[..|domains| - 1]) + SenderEntry(t, domains[|domains| - 1])
  }

  function UsedRelays(t: Tables, domains: seq<Domain>): seq<Relay>
    requires ResolveGlobal(t).Ok?
  {
    RelayIn(ResolveGlobal(t).value) + DomainRelays(t, domains)
  }

  /** The login and TLS tables for these domains, unless the loop fails. */
  function Tabled(t: Tables, domains: seq<Domain>, open: Opener): Option<Emitted>
    requires ResolveGlobal(t).Ok?
  {
    EmitAll(UsesOf(UsedRelays(t, domains), open))
  }

  datatype Data = Data(defaultTransport: string, senderTransports: seq<Entry>, emitted: Emitted)

  function Compile(t: Tables, domains: seq<Domain>, open: Opener): Option<Data> {
    if !Resolves(t, domains) then None
    else match Tabled(t, domains, open)
      case None => None
      case Some(e) => Some(Data(DefaultTransport(ResolveGlobal(t).value), SenderEntries(t, domains), e))
  }

  // ---- the builder, appending in place ----

  lemma EmitAllAppend(used: seq<Use>, u: Use)
    ensures EmitAll(used + [u]) == match EmitAll(used) { case None => None case Some(e) => Emit(e, u) }
  {
    assert (used + [u])[..|used|] == used;
  }

  lemma {:induction false} EmitAllPrefix(a: seq<Use>, b: seq<Use>)
    requires EmitAll(a).None?
    ensures EmitAll(a + b).None?
    decreases |b|
  {
    if b == [] {
      assert a + b == a;
    } else {
      EmitAllPrefix(a, b[..|b| - 1]);
      assert (a + b)[..|a + b| - 1] == a + b[..|b| - 1];
    }
  }

  lemma UsesOfAppend(relays: seq<Relay>, more: seq<Relay>, open: Opener)
    ensures UsesOf(relays + more, open) == UsesOf(relays, open) + UsesOf(more, open)
  {
  }

  lemma ResolvesMore(t: Tables, domains: seq<Domain>, d: Domain)
    requires Resolves(t, domains) && DomainResolves(t, d)
    ensures Resolves(t, domains + [d])
  {
  }

  /** What one more domain adds. */
  lemma OneMoreDomain(t: Tables, domains: seq<Domain>, d: Domain)
    requires ResolveGlobal(t).Ok?
    ensures var own := Override(t, d);
            && UsedRelays(t, domains + [d]) == UsedRelays(t, domains) + (if own == [] then [] else RelayIn(own[0]))
            && SenderEntries(t, domains + [d]) == SenderEntries(t, domains) + SenderEntry(t, d)
  {
    assert (domains + [d])[..|domains|] == domains;
  }

  lemma FailureStays(t: Tables, domains: seq<Domain>, open: Opener)
    requires domains != [] && ResolveGlobal(t).Ok? && Tabled(t, domains[..|domains| - 1], open).None?
    ensures Tabled(t, domains, open).None?
  {
    var n := |domains| - 1;
    var own := Override(t, domains[n]);
    var before, more := UsedRelays(t, domains[..n]), if own == [] then [] else RelayIn(own[0]);
    assert UsedRelays(t, domains) == before + more;
    UsesOfAppend(before, more, open);
    EmitAllPrefix(UsesOf(before, open), UsesOf(more, open));
  }

  predicate FailedBy(t: Tables, domains: seq<Domain>, i: nat, open: Opener)
    requires ResolveGlobal(t).Ok? && i <= |domains|
  {
    Tabled(t, domains[..i], open).None?
  }

  lemma FailureGoesOn(t: Tables, domains: seq<Domain>, i: nat, open: Opener)
    requires i < |domains| && ResolveGlobal(t).Ok? && FailedBy(t, domains, i, open)
    ensures FailedBy(t, domains, i + 1, open)
  {
    assert domains[..i + 1][..i] == domains[..i];
    FailureStays(t, domains[..i + 1], open);
  }

  /** Once the loop has failed no later domain repairs it. */
  lemma {:induction false} FailureIsFinal(t: Tables, domains: seq<Domain>, i: nat, open: Opener)
    requires i <= |domains| && ResolveGlobal(t).Ok? && FailedBy(t, domains, i, open)
    ensures Tabled(t, domains, open).None?
    decreases |domains| - i
  {
    if i == |domains| {
      assert domains[..i] == domains;
    } else {
      FailureGoesOn(t, domains, i, open);
      FailureIsFinal(t, domains, i + 1, open);
    }
  }

  lemma NotCompiled(t: Tables, domains: seq<Domain>, i: nat, open: Opener)
    requires i < |domains| && ResolveGlobal(t).Ok?
    requires !DomainResolves(t, domains[i]) || FailedBy(t, domains, i + 1, open)
    ensures Compile(t, domains, open).None?
  {
    if DomainResolves(t, domains[i]) {
      FailureIsFinal(t, domains, i + 1, open);
    }
  }

  class Builder {
    const tables: Tables
    const open: Opener
    var defaultTransport: string
    var senderTransports: seq<Entry>
    var sasl: seq<Entry>
    var tls: seq<Entry>
    var seen: map<string, string>

    constructor (tables: Tables, open: Opener)
      ensures this.tables == tables && this.open == open
      ensures Tables() == Emitted(map[], [], []) && senderTransports == []
    {
      this.tables, this.open := tables, open;
      defaultTransport, senderTransports, sasl, tls, seen := "", [], [], [], map[];
    }

    ghost function Tables(): Emitted
      reads this
    {
      Emitted(seen, sasl, tls)
    }

    method TransportFor(r: Resolved) returns (transport: Option<string>)
      requires r.mode != Direct ==> r.relay.Some?
      modifies this`sasl, this`tls, this`seen
      ensures r.mode == Direct ==> transport == Some("smtp:") && Tables() == old(Tables())
      ensures r.mode != Direct ==>
        match Emit(old(Tables()), UseOf(r.relay.value, open))
        case Some(e) => transport == Some(RelayTransport(r.relay.value)) && Tables() == e
        case None => transport == None
    {
      if r.mode == Direct {
        return Some("smtp:");
      }
      var relay := r.relay.value;
      var nexthop := Nexthop(relay);
      var text := "smtp:" + nexthop;
      if relay.tlsMode == ImplicitTLS {
        text := "relaytls:" + nexthop;
      }
      var creds := Credentials(relay, open);
      if creds.None? {
        return None;
      }
      if nexthop in seen {
        if seen[nexthop] != creds.value {
          return None;
        }
      } else {
        seen := seen[nexthop := creds.value];
        if creds.value != "" {
          sasl := sasl + [(nexthop, creds.value)];
        }
        if relay.tlsMode == StartTLS {
          tls := tls + [(nexthop, "encrypt")];
        }
      }
      return Some(text);
    }

    /** One resolved scope goes through `TransportFor`. */
    method Route(r: Resolved, ghost before: seq<Relay>) returns (transport: Option<string>)
      requires r.mode != Direct ==> r.relay.Some?
      requires EmitAll(UsesOf(before, open)) == Some(Tables())
      modifies this`sasl, this`tls, this`seen
      ensures transport.Some? <==> EmitAll(UsesOf(before + RelayIn(r), open)).Some?
      ensures transport.Some? ==>
        transport.value == TransportOf(r) && EmitAll(UsesOf(before + RelayIn(r), open)) == Some(Tables())
    {
      ghost var used := UsesOf(before, open);
      UsesOfAppend(before, RelayIn(r), open);
      if r.mode != Direct {
        assert UsesOf(RelayIn(r), open) == [UseOf(r.relay.value, open)];
        EmitAllAppend(used, UseOf(r.relay.value, open));
      } else {
        assert before + RelayIn(r) == before;
      }
      transport := TransportFor(r);
    }

    /** The fields hold the tables for these domains. */
    ghost predicate Holds(domains: seq<Domain>)
      reads this
    {
      && Resolves(tables, domains)
      && defaultTransport == DefaultTransport(ResolveGlobal(tables).value)
      && senderTransports == SenderEntries(tables, domains)
      && Tabled(tables, domains, open) == Some(Tables())
    }

    method RouteDomain(d: Domain, ghost done: seq<Domain>, ghost more: seq<Domain>) returns (ok: bool)
      requires Inv(tables) && Holds(done) && more == done + [d]
      modifies this
      ensures ok ==> Holds(more)
      ensures !ok ==> !DomainResolves(tables, d) || Tabled(tables, more, open).None?
    {
      OneMoreDomain(tables, done, d);
      var resolved := ResolveForDomain(tables, d.id);
      if resolved.Err? {
        return false;
      }
      ResolvesMore(tables, done, d);
      DomainShape(tables, d.id);
      if resolved.value.source != FromDomain {
        assert UsedRelays(tables, done + [d]) == UsedRelays(tables, done);
        assert SenderEntries(tables, done + [d]) == SenderEntries(tables, done);
        return true;
      }
      var transport := Route(resolved.value, UsedRelays(tables, done));
      if transport.None? {
        return false;
      }
      senderTransports := senderTransports + [(SenderKey(d.name), transport.value)];
      return true;
    }

    /** One pass of the loop over the domains. */
    method RouteNext(domains: seq<Domain>, i: nat) returns (ok: bool)
      requires i < |domains|
      requires Inv(tables) && Holds(domains[..i])
      modifies this
      ensures ok ==> Holds(domains[..i + 1])
      ensures !ok ==> Compile(tables, domains, open).None?
    {
      ok := RouteDomain(domains[i], domains[..i], domains[..i + 1]);
      if !ok {
        NotCompiled(tables, domains, i, open);
      }
    }

    method RouteGlobal() returns (ok: bool)
      requires Inv(tables)
      requires Tables() == Emitted(map[], [], []) && senderTransports == []
      modifies this
      ensures ok ==> Holds([])
      ensures !ok ==> forall domains :: Compile(tables, domains, open).None?
    {
      GlobalShape(tables);
      var global := ResolveGlobal(tables);
      if global.Err? {
        return false;
      }
      assert UsesOf([], open) == [];
      assert UsedRelays(tables, []) == [] + RelayIn(global.value);
      if global.value.mode == Direct {
        defaultTransport := "smtp";
        assert UsedRelays(tables, []) == [];
        return true;
      }
      var transport := Route(global.value, []);
      if transport.None? {
        forall domains: seq<Domain>
          ensures Compile(tables, domains, open).None?
        {
          assert domains[..0] == [];
          FailureIsFinal(tables, domains, 0, open);
        }
        return false;
      }
      defaultTransport := transport.value;
      return true;
    }

    lemma HeldIsCompiled(domains: seq<Domain>)
      requires Holds(domains)
      ensures Compile(tables, domains, open) == Some(Data(defaultTransport, senderTransports, Tables()))
    {
    }

    method BuildRouting(domains: seq<Domain>) returns (ok: bool)
      requires Inv(tables)
      requires Tables() == Emitted(map[], [], []) && senderTransports == []
      modifies this
      ensures ok <==> Compile(tables, domains, open).Some?
      ensures ok ==> Compile(tables, domains, open) == Some(Data(defaultTransport, senderTransports, Tables()))
    {
      ok := RouteGlobal();
      var i := 0;
      assert domains[..0] == [];
      while ok && i < |domains|
        invariant 0 <= i <= |domains|
        invariant ok ==> Holds(domains[..i])
        invariant !ok ==> Compile(tables, domains, open).None?
        decreases |domains| - i, ok
      {
        ok := RouteNext(domains, i);
        if ok {
          i := i + 1;
        }
      }
      if ok {
        assert domains[..i] == domains;
        HeldIsCompiled(domains);
      }
    }
  }

  /** Resolution in a consistent database yields direct, or relay with its relay. */
  predicate Settled(t: Tables, r: Resolved) {
    (r.mode == Direct && r.relay.None?)
    || (r.mode == ViaRelay && r.relay.Some? && r.relay.value.id in t.relays && t.relays[r.relay.value.id] == r.relay.value)
  }

  lemma GlobalShape(t: Tables)
    requires Inv(t)
    ensures ResolveGlobal(t).Ok? ==> Settled(t, ResolveGlobal(t).value) && ResolveGlobal(t).value.source == FromGlobal
  {
    var g := PolicyFor(t, GlobalScope, 0).value;
    assert g in t.policies && PolicyOk(t, g);
    assert g.relayId.Some? ==> t.relays[g.relayId.value].id == g.relayId.value;
  }

  lemma DomainShape(t: Tables, domainId: int)
    requires Inv(t)
    ensures ResolveForDomain(t, domainId).Ok? ==> Settled(t, ResolveForDomain(t, domainId).value)
    ensures ResolveForDomain(t, domainId).Ok? && ResolveForDomain(t, domainId).value.source == FromGlobal ==>
              ResolveForDomain(t, domainId) == ResolveGlobal(t)
  {
    GlobalShape(t);
    var p := PolicyFor(t, DomainScope, domainId);
    assert p.Some? ==> p.value in t.policies && PolicyOk(t, p.value);
    assert p.Some? && p.value.relayId.Some? ==> t.relays[p.value.relayId.value].id == p.value.relayId.value;
  }
}
