/** What Postfix does with the generated tables, and that it is what the policies say. */
module RoutingMeaning {
  import opened Text
  import opened Delivery
  import opened PostfixMaps
  import opened Nexthops
  import opened Routing
  import opened Names
  import Mail = SenderIdentity

  // ---- reading a transport ----

  datatype Route = DirectRoute | RelayRoute(wrapped: bool, host: string, port: int)

  /** The delivery decision in the terms Postfix can act on. */
  function Meaning(r: Resolved): Route {
    if r.mode == Direct || r.relay.None? then DirectRoute
    else RelayRoute(r.relay.value.tlsMode == ImplicitTLS, r.relay.value.host, r.relay.value.port)
  }

  /** `[host]:port`. */
  function DecodeNexthop(wrapped: bool, s: string): Option<Route> {
    var i := IndexOf(s, ':');
    if i == |s| || i < 2 || s[0] != '[' || s[i - 1] != ']' then None
    else match Atoi(s[i + 1..])
      case Some(port) => Some(RelayRoute(wrapped, s[1..i - 1], port))
      case None => None
  }

  const SMTP: string := "smtp:"
  const RELAYTLS: string := "relaytls:"

  function DecodeTransport(s: string): Option<Route> {
    if s == "smtp" || s == SMTP then Some(DirectRoute)
    else if SMTP <= s then DecodeNexthop(false, s[5..])
    else if RELAYTLS <= s then DecodeNexthop(true, s[9..])
    else None
  }

  lemma Bracketed(host: string, digits: string)
    requires ':' !in host
    ensures var s := "[" + host + "]:" + digits;
            && IndexOf(s, ':') == |host| + 2 && s[0] == '[' && s[|host| + 1] == ']'
            && s[1..|host| + 1] == host && s[|host| + 3..] == digits
  {
    var head := "[" + host + "]";
    var s := "[" + host + "]:" + digits;
    assert s == head + [':'] + digits;
    assert ':' !in head;
    IndexOfAppend(head, ':', digits);
  }

  lemma DecodeRelayNexthop(wrapped: bool, r: Relay)
    requires BareHost(r.host) && 1 <= r.port <= 65535
    ensures DecodeNexthop(wrapped, Nexthop(r)) == Some(RelayRoute(wrapped, r.host, r.port))
  {
    Bracketed(r.host, FormatInt(r.port));
    AtoiFormatInt(r.port);
  }

  lemma DecodeSmtp(n: string)
    requires n != ""
    ensures DecodeTransport(SMTP + n) == DecodeNexthop(false, n)
  {
    var s := SMTP + n;
    assert s[5..] == n && |s| > 5;
  }

  lemma DecodeRelayTls(n: string)
    ensures DecodeTransport(RELAYTLS + n) == DecodeNexthop(true, n)
  {
    var s := RELAYTLS + n;
    assert s[9..] == n && s[0] == 'r';
  }

  lemma DecodeRelayTransport(r: Relay)
    requires BareHost(r.host) && 1 <= r.port <= 65535
    ensures DecodeTransport(RelayTransport(r)) ==
            Some(RelayRoute(r.tlsMode == ImplicitTLS, r.host, r.port))
  {
    DecodeRelayNexthop(r.tlsMode == ImplicitTLS, r);
    if r.tlsMode == ImplicitTLS {
      DecodeRelayTls(Nexthop(r));
    } else {
      DecodeSmtp(Nexthop(r));
    }
  }

  /** Relays share a nexthop exactly when they share host and port. */
  lemma NexthopInjective(a: Relay, b: Relay)
    requires BareHost(a.host) && 1 <= a.port <= 65535 && BareHost(b.host) && 1 <= b.port <= 65535
    ensures Nexthop(a) == Nexthop(b) <==> a.host == b.host && a.port == b.port
  {
    DecodeRelayNexthop(false, a);
    DecodeRelayNexthop(false, b);
  }

  // ---- the sender table ----

  /** Hosted domains: valid names, no two alike. */
  ghost predicate Hosted(domains: seq<Domain>) {
    (forall i :: 0 <= i < |domains| ==> DottedName(domains[i].name)) && DistinctNames(domains)
  }

  ghost predicate DistinctNames(domains: seq<Domain>) {
    forall i, j :: 0 <= i < j < |domains| ==> domains[i].name != domains[j].name
  }

  lemma SenderKeyInjective(a: string, b: string)
    ensures SenderKey(a) == SenderKey(b) <==> a == b
  {
    assert SenderKey(a)[1..] == a && SenderKey(b)[1..] == b;
  }

  lemma LookupForeign(t: Tables, d: Domain, name: string)
    requires d.name != name
    ensures Lookup(SenderEntry(t, d), SenderKey(name)) == None
  {
    SenderKeyInjective(d.name, name);
  }

  lemma LookupLast(t: Tables, domains: seq<Domain>, key: string)
    requires domains != []
    ensures var n := |domains| - 1;
            Lookup(SenderEntries(t, domains), key) ==
            if Lookup(SenderEntries(t, domains[..n]), key).Some? then Lookup(SenderEntries(t, domains[..n]), key)
            else Lookup(SenderEntry(t, domains[n]), key)
  {
    var n := |domains| - 1;
    LookupAppend(SenderEntries(t, domains[..n]), SenderEntry(t, domains[n]), key);
  }

  predicate Lacks(t: Tables, d: Domain, key: string) {
    Lookup(SenderEntry(t, d), key) == None
  }

  lemma {:induction false} LookupNowhere(t: Tables, domains: seq<Domain>, key: string)
    requires forall i :: 0 <= i < |domains| ==> Lacks(t, domains[i], key)
    ensures Lookup(SenderEntries(t, domains), key) == None
    decreases |domains|
  {
    if domains != [] {
      LookupNowhere(t, domains[..|domains| - 1], key);
      LookupLast(t, domains, key);
    }
  }

  predicate OthersLack(t: Tables, domains: seq<Domain>, k: nat, key: string) {
    forall i :: 0 <= i < |domains| && i != k ==> Lacks(t, domains[i], key)
  }

  lemma OthersLackFirst(t: Tables, domains: seq<Domain>, k: nat, key: string)
    requires k < |domains| && OthersLack(t, domains, k, key)
    ensures var n := |domains| - 1;
            if k < n then OthersLack(t, domains[..n], k, key) && Lacks(t, domains[n], key)
            else forall i :: 0 <= i < n ==> Lacks(t, domains[..n][i], key)
  {
  }

  lemma {:induction false} LookupOnly(t: Tables, domains: seq<Domain>, k: nat, key: string)
    requires k < |domains| && OthersLack(t, domains, k, key)
    ensures Lookup(SenderEntries(t, domains), key) == Lookup(SenderEntry(t, domains[k]), key)
    decreases |domains|
  {
    var n := |domains| - 1;
    OthersLackFirst(t, domains, k, key);
    LookupLast(t, domains, key);
    if k < n {
      LookupOnly(t, domains[..n], k, key);
    } else {
      LookupNowhere(t, domains[..n], key);
    }
  }

  lemma LookupSender(t: Tables, domains: seq<Domain>, k: nat)
    requires DistinctNames(domains) && k < |domains|
    ensures Lookup(SenderEntries(t, domains), SenderKey(domains[k].name)) ==
            Lookup(SenderEntry(t, domains[k]), SenderKey(domains[k].name))
  {
    forall i | 0 <= i < |domains| && i != k
      ensures Lacks(t, domains[i], SenderKey(domains[k].name))
    {
      LookupForeign(t, domains[i], domains[k].name);
    }
    LookupOnly(t, domains, k, SenderKey(domains[k].name));
  }

  lemma NexthopPlain(r: Relay)
    requires BareHost(r.host) && 1 <= r.port <= 65535
    ensures NoSpaces(Nexthop(r)) && Nexthop(r)[0] == '[' && |Nexthop(r)| > 1
    ensures !IsSpace(Nexthop(r)[|Nexthop(r)| - 1])
  {
    FormatIntPlain(r.port);
    assert forall i :: 0 <= i < |r.host| ==> !IsControl(r.host[i]) && r.host[i] != ' ';
  }

  lemma TransportPlain(r: Relay)
    requires BareHost(r.host) && 1 <= r.port <= 65535
    ensures NoSpaces(RelayTransport(r)) && RelayTransport(r) != "" && Trimmed(RelayTransport(r))
  {
    NexthopPlain(r);
  }

  lemma NoSpacesOneLine(s: string)
    requires NoSpaces(s)
    ensures '\n' !in s
  {
  }

  lemma SenderKeyLower(name: string)
    requires DottedName(name)
    ensures ToLower(SenderKey(name)) == SenderKey(name)
  {
    DottedNameChars(name);
    LowerCharsAreLower(SenderKey(name));
  }

  lemma SenderEntryPlain(t: Tables, d: Domain, open: Opener)
    requires Inv(t) && AllUsable(t, open) && DottedName(d.name)
    ensures forall r :: r in Override(t, d) ==>
              Printable((SenderKey(d.name), TransportOf(r))) && Trimmed(TransportOf(r))
              && DecodeTransport(TransportOf(r)) == Some(Meaning(r))
  {
    DomainShape(t, d.id);
    DottedNameChars(d.name);
    var own := Override(t, d);
    if own != [] && own[0].mode != Direct {
      var relay := own[0].relay.value;
      assert Usable(relay, open);
      TransportPlain(relay);
      NoSpacesOneLine(RelayTransport(relay));
      DecodeRelayTransport(relay);
    }
  }

  lemma {:induction false} SenderEntriesPlain(t: Tables, domains: seq<Domain>, open: Opener)
    requires Inv(t) && AllUsable(t, open)
    requires forall i :: 0 <= i < |domains| ==> DottedName(domains[i].name)
    ensures forall e :: e in SenderEntries(t, domains) ==> Printable(e)
    ensures LowerKeys(SenderEntries(t, domains))
    decreases |domains|
  {
    if domains != [] {
      var n := |domains| - 1;
      SenderEntriesPlain(t, domains[..n], open);
      SenderEntryPlain(t, domains[n], open);
      SenderKeyLower(domains[n].name);
    }
  }

  // ---- the theorems ----

  /** The transport Postfix picks for a sender domain from the printed table. */
  function Picked(d: Data, domain: string): string {
    match Query(ParseMap(MapText(d.senderTransports)), SenderKey(domain))
    case Some(transport) => transport
    case None => d.defaultTransport
  }

  lemma DefaultMeans(t: Tables, open: Opener)
    requires Inv(t) && AllUsable(t, open) && ResolveGlobal(t).Ok?
    ensures DecodeTransport(DefaultTransport(ResolveGlobal(t).value)) == Some(Meaning(ResolveGlobal(t).value))
  {
    GlobalShape(t);
    var r := ResolveGlobal(t).value;
    if r.mode != Direct {
      assert Usable(r.relay.value, open);
      DecodeRelayTransport(r.relay.value);
    }
  }

  /** Direct by default is the plain transport, the one the main configuration is written with. */
  lemma DirectByDefault(t: Tables, domains: seq<Domain>, open: Opener)
    requires Compile(t, domains, open).Some?
    ensures ResolveGlobal(t).Ok?
    ensures ResolveGlobal(t).value.mode == Direct ==> Compile(t, domains, open).value.defaultTransport == "smtp"
  {
  }

  /** The same on the tables themselves. */
  lemma EntriesMean(t: Tables, domains: seq<Domain>, open: Opener, k: nat)
    requires Inv(t) && AllUsable(t, open) && Hosted(domains) && k < |domains| && DomainResolves(t, domains[k])
    ensures var found := Query(ParseMap(MapText(SenderEntries(t, domains))), SenderKey(domains[k].name));
            match found
            case Some(transport) => DecodeTransport(transport) == Some(Meaning(ResolveForDomain(t, domains[k].id).value))
            case None => ResolveForDomain(t, domains[k].id) == ResolveGlobal(t)
  {
    var d := domains[k];
    SenderEntriesPlain(t, domains, open);
    SenderKeyLower(d.name);
    LookupPrintedLower(SenderEntries(t, domains), SenderKey(d.name));
    LookupSender(t, domains, k);
    var own := Override(t, d);
    if own == [] {
      DomainShape(t, d.id);
    } else {
      SenderEntryPlain(t, d, open);
      assert own[0] in own;
      TrimSpaceFixes(TransportOf(own[0]));
    }
  }

  lemma PickedMeans(t: Tables, domains: seq<Domain>, open: Opener, k: nat)
    requires Inv(t) && AllUsable(t, open) && Hosted(domains) && k < |domains|
    ensures Compile(t, domains, open).Some? ==>
              && DomainResolves(t, domains[k])
              && DecodeTransport(Picked(Compile(t, domains, open).value, domains[k].name)) ==
                 Some(Meaning(ResolveForDomain(t, domains[k].id).value))
  {
    if Compile(t, domains, open).Some? {
      assert DomainResolves(t, domains[k]);
      EntriesMean(t, domains, open, k);
      DefaultMeans(t, open);
    }
  }

  lemma DirectMeans(t: Tables, domainId: int)
    requires Inv(t) && ResolveForDomain(t, domainId).Ok?
    ensures Meaning(ResolveForDomain(t, domainId).value) == DirectRoute <==> Governing(t, domainId).mode == Direct
  {
    ResolveExactly(t, domainId);
    DomainShape(t, domainId);
  }

  lemma ReachableUsable(ops: seq<Op>, open: Opener)
    requires forall i :: 0 <= i < |ops| ==> Sealed(ops[i], open)
    ensures Inv(Run(SEED, ops)) && AllUsable(Run(SEED, ops), open)
  {
    ReachableInv(ops);
    RunKeepsUsable(SEED, ops, open);
  }

  /** If the build succeeds, the route Postfix picks for the k-th domain is the one its policies
      resolve to, and direct exactly under a direct policy. */
  predicate PicksRight(t: Tables, domains: seq<Domain>, open: Opener, k: nat)
    requires k < |domains|
  {
    Compile(t, domains, open).Some? ==>
      && DomainResolves(t, domains[k]) && PolicyFor(t, GlobalScope, 0).Some?
      && var route := DecodeTransport(Picked(Compile(t, domains, open).value, domains[k].name));
         && route == Some(Meaning(ResolveForDomain(t, domains[k].id).value))
         && (route == Some(DirectRoute) <==> Governing(t, domains[k].id).mode == Direct)
  }

  lemma HostedPicksRight(t: Tables, domains: seq<Domain>, open: Opener, k: nat)
    requires Inv(t) && AllUsable(t, open) && Hosted(domains) && k < |domains|
    ensures PicksRight(t, domains, open, k)
  {
    if Compile(t, domains, open).Some? {
      PickedMeans(t, domains, open, k);
      DirectMeans(t, domains[k].id);
    }
  }

  /** Over any valid list of domains: whenever the build succeeds, Postfix reads from the printed
      table, for every one of them, exactly the route the policies resolve to; it is direct only
      under a direct policy. */
  lemma HostedMean(ops: seq<Op>, t: Tables, domains: seq<Domain>, open: Opener, k: nat)
    requires (forall i :: 0 <= i < |ops| ==> Sealed(ops[i], open)) && t == Run(SEED, ops)
    requires Hosted(domains) && k < |domains|
    ensures PicksRight(t, domains, open, k)
  {
    ReachableUsable(ops, open);
    HostedPicksRight(t, domains, open, k);
  }

  /** A listing of the domain table, in any order. */
  ghost predicate Lists(domains: seq<Domain>, table: map<int, string>) {
    && (forall i :: 0 <= i < |domains| ==> domains[i].id in table && table[domains[i].id] == domains[i].name)
    && (forall i, j :: 0 <= i < j < |domains| ==> domains[i].id != domains[j].id)
  }

  /** The domains of every reachable database are valid and distinct. */
  lemma ReachableHosted(mail: seq<Mail.Op>, domains: seq<Domain>)
    requires Lists(domains, Mail.Run(Mail.EMPTY, mail).domains)
    ensures Hosted(domains)
  {
    Mail.RunKeepsInv(Mail.EMPTY, mail);
  }

  /** Whatever the administrators did to domains, relays and policies, whenever the build succeeds,
      Postfix reads from the printed table, for every domain there is, exactly the route the
      policies resolve to; it is direct only under a direct policy. */
  lemma CompilationPreservesMeaning(
    mail: seq<Mail.Op>, ops: seq<Op>, t: Tables, domains: seq<Domain>, open: Opener, k: nat)
    requires Lists(domains, Mail.Run(Mail.EMPTY, mail).domains)
    requires (forall i :: 0 <= i < |ops| ==> Sealed(ops[i], open)) && t == Run(SEED, ops)
    requires k < |domains|
    ensures PicksRight(t, domains, open, k)
  {
    ReachableHosted(mail, domains);
    HostedMean(ops, t, domains, open, k);
  }

  /** The build succeeds exactly when no governing policy names a disabled relay, every
      login in use decrypts, and no two relays on one host and port have different joined logins. */
  lemma BuildSucceedsExactly(t: Tables, domains: seq<Domain>, open: Opener)
    requires Inv(t)
    ensures Compile(t, domains, open).Some? <==>
            Resolves(t, domains)
            && AllOpen(UsesOf(UsedRelays(t, domains), open)) && NoClash(UsesOf(UsedRelays(t, domains), open))
  {
    if Resolves(t, domains) {
      EmitAllSucceeds(UsesOf(UsedRelays(t, domains), open));
    }
  }
}
