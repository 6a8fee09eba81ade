/** Databases with two relays: one for all mail, the other for the first domain's. */
module TwoRelays {
  import opened Text
  import opened Delivery
  import opened PostfixMaps
  import opened Nexthops
  import opened Routing
  import opened RoutingMeaning
  import opened RelayTables
  import opened Logins
  import opened Names
  import Mail = SenderIdentity

  // ---- how such a database comes about ----

  /** A relay as it is stored after being entered with its password. */
  predicate Enterable(r: Relay, open: Opener) {
    && ValidRelay(r) && BareHost(r.host) && TrimSpace(r.name) == r.name && TrimSpace(r.host) == r.host
    && r.enabled && r.encryptedPassword != ""
    && open(r.encryptedPassword).Some? && open(r.encryptedPassword).value != "" && Clean(open(r.encryptedPassword).value)
  }

  predicate Pair(a: Relay, b: Relay, open: Opener) {
    a.id == 1 && b.id == 2 && a.name != b.name && Enterable(a, open) && Enterable(b, open) && open("") == None
  }

  function Two(a: Relay, b: Relay): Tables {
    Tables(map[1 := a, 2 := b],
           [Policy(1, GlobalScope, 0, ViaRelay, Some(1), true), Policy(2, DomainScope, 1, ViaRelay, Some(2), true)], 3, 3)
  }

  function Entered(r: Relay, open: Opener): Op
    requires Enterable(r, open)
  {
    SaveRelay(r.(id := 0, encryptedPassword := ""), open(r.encryptedPassword).value, r.encryptedPassword)
  }

  function ByRelay(scope: Scope, scopeId: int, relayId: int): Op {
    SetPolicy(scope, scopeId, ViaRelay, Some(relayId), false)
  }

  /** What leads to `Two(a, b)`. */
  function Entering(a: Relay, b: Relay, open: Opener): seq<Op>
    requires Pair(a, b, open)
  {
    [Entered(a, open)] + ([Entered(b, open)] + ([ByRelay(GlobalScope, 0, 1)] + ([ByRelay(DomainScope, 1, 2)] + [])))
  }

  lemma EnteredIsStored(t: Tables, r: Relay, open: Opener)
    requires Enterable(r, open) && r.id == t.nextRelay && !NameUsedByOther(t, r.name, r.id)
    ensures Apply(t, Entered(r, open)).0 == t.(relays := t.relays[r.id := r], nextRelay := t.nextRelay + 1)
  {
    assert Delivery.Normalize(Entered(r, open).relay, open(r.encryptedPassword).value, r.encryptedPassword) == r.(id := 0);
  }

  lemma RunFirst(t: Tables, op: Op, ops: seq<Op>)
    ensures Run(t, [op] + ops) == Run(Apply(t, op).0, ops)
  {
    assert ([op] + ops)[1..] == ops;
  }

  lemma GlobalByFirst(a: Relay, b: Relay, t: Tables)
    requires t == Two(a, b).(policies := SEED.policies, nextPolicy := 2) && a.enabled
    ensures Apply(t, ByRelay(GlobalScope, 0, 1)).0 == t.(policies := [Two(a, b).policies[0]])
  {
    assert t.policies[0 := Two(a, b).policies[0]] == [Two(a, b).policies[0]];
  }

  lemma DomainBySecond(a: Relay, b: Relay, t: Tables)
    requires t == Two(a, b).(policies := [Two(a, b).policies[0]], nextPolicy := 2) && b.enabled
    ensures Apply(t, ByRelay(DomainScope, 1, 2)).0 == Two(a, b)
  {
    assert t.policies[1..] == [];
    assert t.policies + [Two(a, b).policies[1]] == Two(a, b).policies;
  }

  lemma TwoReachable(a: Relay, b: Relay, open: Opener)
    requires Pair(a, b, open)
    ensures Run(SEED, Entering(a, b, open)) == Two(a, b)
    ensures forall i :: 0 <= i < |Entering(a, b, open)| ==> Sealed(Entering(a, b, open)[i], open)
  {
    var t1 := SEED.(relays := map[1 := a], nextRelay := 2);
    var t2 := t1.(relays := map[1 := a, 2 := b], nextRelay := 3);
    var t3 := t2.(policies := [Two(a, b).policies[0]]);
    var last := [ByRelay(DomainScope, 1, 2)] + [];
    EnteredIsStored(SEED, a, open);
    EnteredIsStored(t1, b, open);
    GlobalByFirst(a, b, t2);
    DomainBySecond(a, b, t3);
    RunFirst(t3, ByRelay(DomainScope, 1, 2), []);
    RunFirst(t2, ByRelay(GlobalScope, 0, 1), last);
    RunFirst(t1, Entered(b, open), [ByRelay(GlobalScope, 0, 1)] + last);
    RunFirst(SEED, Entered(a, open), [Entered(b, open)] + ([ByRelay(GlobalScope, 0, 1)] + last));
  }

  // ---- what it compiles to ----

  lemma TwoOk(a: Relay, b: Relay, open: Opener)
    requires Pair(a, b, open)
    ensures Inv(Two(a, b)) && AllUsable(Two(a, b), open)
    ensures forall r :: r in [a, b] ==> Usable(r, open)
  {
    TwoReachable(a, b, open);
    ReachableUsable(Entering(a, b, open), open);
    assert Two(a, b).relays[1] == a && Two(a, b).relays[2] == b;
  }

  lemma TwoPolicies(a: Relay, b: Relay)
    ensures PolicyFor(Two(a, b), GlobalScope, 0) == Some(Two(a, b).policies[0])
    ensures PolicyFor(Two(a, b), DomainScope, 1) == Some(Two(a, b).policies[1])
  {
    assert Two(a, b).policies[1..][0] == Two(a, b).policies[1];
  }

  lemma TwoRelaysUsed(a: Relay, b: Relay, d: Domain)
    requires a.enabled && b.enabled && d.id == 1
    ensures Resolves(Two(a, b), [d]) && UsedRelays(Two(a, b), [d]) == [a, b]
    ensures ResolveForDomain(Two(a, b), 1) == Ok(Resolved(ViaRelay, Some(b), FromDomain))
  {
    TwoPolicies(a, b);
    assert [d][..0] == [];
    assert DomainRelays(Two(a, b), [d]) == [b];
  }

  lemma PairCoexists(a: Relay, b: Relay, open: Opener)
    ensures AllCoexist([a, b], open) <==> Coexist(a, b, open)
  {
    assert [a, b][0] == a && [a, b][1] == b;
    assert Coexist(a, b, open) <==> Coexist(b, a, open);
  }

  lemma PairDecrypts(a: Relay, b: Relay, open: Opener)
    requires Pair(a, b, open)
    ensures AllDecrypt([a, b], open)
  {
  }

  /** The build succeeds exactly if the relays are on different nexthops, or have one login, or
      logins that overlap. */
  lemma TwoCompile(a: Relay, b: Relay, open: Opener, d: Domain)
    requires Pair(a, b, open) && d.id == 1
    ensures Compile(Two(a, b), [d], open).Some? <==> Coexist(a, b, open)
  {
    TwoRelaysUsed(a, b, d);
    TwoOk(a, b, open);
    BuildTakesLogins(Two(a, b), [d], open);
    PairDecrypts(a, b, open);
    PairCoexists(a, b, open);
  }

  lemma OneDomain(name: string)
    requires ValidDomainName(name) && Names.Normalize(name) == name
    ensures Lists([Domain(1, name)], Mail.Run(Mail.EMPTY, [Mail.CreateDomain(name)]).domains)
  {
    var ops := [Mail.CreateDomain(name)];
    assert ops[1..] == [];
    assert Mail.Run(Mail.EMPTY, ops) == Mail.Apply(Mail.EMPTY, ops[0]);
  }

  /** Whatever the two relays, mail from the first domain goes to the second, on its host and port and
      with its TLS flavour. */
  lemma TwoMean(a: Relay, b: Relay, open: Opener, name: string)
    requires Pair(a, b, open) && Coexist(a, b, open)
    requires ValidDomainName(name) && Names.Normalize(name) == name
    ensures var data := Compile(Two(a, b), [Domain(1, name)], open);
            data.Some?
            && DecodeTransport(Picked(data.value, name)) == Some(RelayRoute(b.tlsMode == ImplicitTLS, b.host, b.port))
  {
    TwoReachable(a, b, open);
    TwoCompile(a, b, open, Domain(1, name));
    TwoRelaysUsed(a, b, Domain(1, name));
    OneDomain(name);
    CompilationPreservesMeaning([Mail.CreateDomain(name)], Entering(a, b, open), Two(a, b), [Domain(1, name)], open, 0);
  }

  lemma TablesOf(a: Relay, b: Relay, open: Opener, d: Domain)
    requires a.enabled && b.enabled && d.id == 1
    ensures Compile(Two(a, b), [d], open).Some? ==>
              EmitAll(UsesOf([a, b], open)) == Some(Compile(Two(a, b), [d], open).value.emitted)
  {
    TwoRelaysUsed(a, b, d);
  }

  // ---- what can go wrong ----

  const OPENS: Opener := (sealed: string) =>
    if sealed == "s" then Some("p ") else if sealed == "t" then Some("p") else if sealed == "v" then Some("q")
    else if sealed == "x" then Some("b:c") else if sealed == "y" then Some("c") else None

  const SMARTHOST := Relay(1, "a", Custom, "h", 25, "u", "s", ImplicitTLS, true)
  const SUBMISSION := Relay(2, "b", Custom, "h", 25, "u", "s", StartTLS, true)

  lemma SharedPair()
    ensures Pair(SMARTHOST, SUBMISSION, OPENS)
  {
    assert SMARTHOST.name[0] != SUBMISSION.name[0];
    assert TrimSpace("a") == "a" && TrimSpace("b") == "b" && TrimSpace("h") == "h";
  }

  lemma BlankNotRead(a: Relay, b: Relay, open: Opener, sasl: seq<Entry>)
    requires LoginTable(sasl, [a, b], open) && !PlainLogin(b, open)
    ensures !ReadsOwn(sasl, b, open)
  {
    if ReadsOwn(sasl, b, open) {
      OwnIsPlain(sasl, [a, b], open, b);
    }
  }

  lemma SecondNotEncrypted(a: Relay, b: Relay, open: Opener, tls: seq<Entry>)
    requires PolicyTable(tls, [a, b], open) && Nexthop(a) == Nexthop(b) && a.tlsMode != StartTLS
    ensures Read(tls, b) != Some("encrypt")
  {
    EncryptionRead(tls, [a, b], open, b);
    var used := UsesOf([a, b], open);
    assert used[0].nexthop == Nexthop(a);
    assert FirstOn(used, Nexthop(b)) == 0;
    assert !Leads([a, b], open, 1);
  }

  /** The tables of such a database. */
  lemma TwoTables(a: Relay, b: Relay, open: Opener, d: Domain)
    requires Pair(a, b, open) && d.id == 1
    ensures Compile(Two(a, b), [d], open).Some? ==>
              var e := Compile(Two(a, b), [d], open).value.emitted;
              LoginTable(e.sasl, [a, b], open) && PolicyTable(e.tls, [a, b], open)
  {
    TablesOf(a, b, open, d);
    TwoOk(a, b, open);
    EmittedLogins([a, b], open);
    EmittedPolicies([a, b], open);
  }

  /** Four admin calls lead to two relays on one host and port. The build goes through, yet Postfix
      logs in to the second with a password short of its last blank, and does not insist on TLS though
      it is a STARTTLS relay. */
  lemma SharedNexthopLoses(d: Domain)
    requires d.id == 1
    ensures Pair(SMARTHOST, SUBMISSION, OPENS)
    ensures var t := Run(SEED, Entering(SMARTHOST, SUBMISSION, OPENS));
            var data := Compile(t, [d], OPENS);
            && data.Some? && SUBMISSION in UsedRelays(t, [d])
            && !ReadsOwn(data.value.emitted.sasl, SUBMISSION, OPENS)
            && Read(data.value.emitted.tls, SUBMISSION) != Some("encrypt")
  {
    SharedPair();
    TwoReachable(SMARTHOST, SUBMISSION, OPENS);
    TwoRelaysUsed(SMARTHOST, SUBMISSION, d);
    TwoCompile(SMARTHOST, SUBMISSION, OPENS, d);
    TwoTables(SMARTHOST, SUBMISSION, OPENS, d);
    var e := Compile(Two(SMARTHOST, SUBMISSION), [d], OPENS).value.emitted;
    BlankNotRead(SMARTHOST, SUBMISSION, OPENS, e.sasl);
    SecondNotEncrypted(SMARTHOST, SUBMISSION, OPENS, e.tls);
  }

  const UPPER := Relay(1, "a", Custom, "H", 25, "u", "t", StartTLS, true)
  const LOWER := Relay(2, "b", Custom, "h", 25, "u", "v", StartTLS, true)

  lemma CasePair()
    ensures Pair(UPPER, LOWER, OPENS) && SameKey(UPPER, LOWER)
  {
    assert UPPER.name[0] != LOWER.name[0];
    assert TrimSpace("a") == "a" && TrimSpace("b") == "b" && TrimSpace("h") == "h" && TrimSpace("H") == "H";
  }

  lemma CaseLogins()
    ensures LoginOf(UPPER, OPENS) == Some(Login("u", "p")) && LoginOf(LOWER, OPENS) == Some(Login("u", "q"))
    ensures LoginOf(UPPER, OPENS) != LoginOf(LOWER, OPENS)
    ensures PlainLogin(UPPER, OPENS) && PlainLogin(LOWER, OPENS)
  {
    assert "p"[0] != "q"[0];
  }

  lemma CaseNexthops()
    ensures Nexthop(UPPER) != Nexthop(LOWER)
  {
    assert UPPER.host[0] != LOWER.host[0];
    NexthopInjective(UPPER, LOWER);
  }

  /** Two relays whose hosts differ in case only, with different passwords and neither a blank nor a
      colon in the logins. The build goes through, yet Postfix reads one login for both. */
  lemma CaseVariantsClash(d: Domain)
    requires d.id == 1
    ensures Pair(UPPER, LOWER, OPENS)
    ensures var t := Run(SEED, Entering(UPPER, LOWER, OPENS));
            var data := Compile(t, [d], OPENS);
            && data.Some? && UsedRelays(t, [d]) == [UPPER, LOWER]
            && LoginRead(data.value.emitted.sasl, UPPER) == LoginRead(data.value.emitted.sasl, LOWER)
            && !(ReadsOwn(data.value.emitted.sasl, UPPER, OPENS) && ReadsOwn(data.value.emitted.sasl, LOWER, OPENS))
  {
    CasePair();
    CaseLogins();
    CaseNexthops();
    TwoReachable(UPPER, LOWER, OPENS);
    TwoRelaysUsed(UPPER, LOWER, d);
    TwoCompile(UPPER, LOWER, OPENS, d);
    SameKeyReadsSame(Compile(Two(UPPER, LOWER), [d], OPENS).value.emitted.sasl, UPPER, LOWER);
  }

  lemma OverlapAsRead(a: Login, b: Login)
    requires Plain(a) && (Shifted(a, b) || Shifted(b, a))
    ensures AsRead(a) == AsRead(b) == a
  {
    JoinedAlike(a, b);
    PlainIsRead(a);
  }

  /** What Postfix reads for the second of two relays whose logins overlap, the first being plain. */
  lemma OverlapReadsFirst(a: Relay, b: Relay, open: Opener, sasl: seq<Entry>)
    requires LoginTable(sasl, [a, b], open) && PlainLogin(a, open) && Overlap(a, b, open)
    ensures LoginRead(sasl, b) == LoginOf(a, open)
  {
    LoginReadFrom(sasl, [a, b], open, b);
    OverlapAsRead(LoginOf(a, open).value, LoginOf(b, open).value);
  }

  const SHORT_USER := Relay(1, "a", Custom, "h", 25, "a", "x", StartTLS, true)
  const COLON_USER := Relay(2, "b", Custom, "h", 25, "a:b", "y", StartTLS, true)

  lemma ColonPair()
    ensures Pair(SHORT_USER, COLON_USER, OPENS)
  {
    assert SHORT_USER.name[0] != COLON_USER.name[0];
    assert TrimSpace("a") == "a" && TrimSpace("b") == "b" && TrimSpace("h") == "h";
  }

  lemma ColonLogins()
    ensures LoginOf(SHORT_USER, OPENS) == Some(Login("a", "b:c")) && LoginOf(COLON_USER, OPENS) == Some(Login("a:b", "c"))
    ensures PlainLogin(SHORT_USER, OPENS) && Overlap(SHORT_USER, COLON_USER, OPENS)
  {
    assert "a:b"[..2] == "a" + ":" && "a:b"[2..] == "b" && "b:c" == "b" + ":" + "c";
  }

  /** Two relays on one host and port with different logins, one user name with a colon. The build
      goes through, and Postfix logs in to the second with the first one's user name and password. */
  lemma ColonUserClashes(d: Domain)
    requires d.id == 1
    ensures Pair(SHORT_USER, COLON_USER, OPENS)
    ensures var t := Run(SEED, Entering(SHORT_USER, COLON_USER, OPENS));
            var data := Compile(t, [d], OPENS);
            && data.Some? && UsedRelays(t, [d]) == [SHORT_USER, COLON_USER]
            && LoginOf(SHORT_USER, OPENS) != LoginOf(COLON_USER, OPENS)
            && LoginRead(data.value.emitted.sasl, COLON_USER) == LoginOf(SHORT_USER, OPENS)
  {
    ColonPair();
    ColonLogins();
    TwoReachable(SHORT_USER, COLON_USER, OPENS);
    TwoRelaysUsed(SHORT_USER, COLON_USER, d);
    TwoCompile(SHORT_USER, COLON_USER, OPENS, d);
    TwoTables(SHORT_USER, COLON_USER, OPENS, d);
    OverlapHasColon(SHORT_USER, COLON_USER, OPENS);
    OverlapReadsFirst(SHORT_USER, COLON_USER, OPENS, Compile(Two(SHORT_USER, COLON_USER), [d], OPENS).value.emitted.sasl);
  }
}
