/** What Postfix reads for each relay in use from the printed `sasl_passwd` and `tls_policy`. It
    folds the case of keys, which the compiler does not. */
module RelayTables {
  import opened Text
  import opened Delivery
  import opened PostfixMaps
  import opened Nexthops
  import opened Logins
  import opened Routing
  import opened RoutingMeaning
  import opened Names

  // ---- the relays in use ----

  lemma {:induction false} DomainRelaysStored(t: Tables, domains: seq<Domain>)
    requires Inv(t)
    ensures forall r :: r in DomainRelays(t, domains) ==> r.id in t.relays && t.relays[r.id] == r
    decreases |domains|
  {
    if domains != [] {
      var n := |domains| - 1;
      DomainRelaysStored(t, domains[..n]);
      DomainShape(t, domains[n].id);
    }
  }

  lemma UsedRelaysStored(t: Tables, domains: seq<Domain>)
    requires Inv(t) && ResolveGlobal(t).Ok?
    ensures forall r :: r in UsedRelays(t, domains) ==> r.id in t.relays && t.relays[r.id] == r
  {
    GlobalShape(t);
    DomainRelaysStored(t, domains);
  }

  lemma UsedRelaysUsable(t: Tables, domains: seq<Domain>, open: Opener)
    requires Inv(t) && AllUsable(t, open) && ResolveGlobal(t).Ok?
    ensures forall r :: r in UsedRelays(t, domains) ==> Usable(r, open)
  {
    UsedRelaysStored(t, domains);
  }

  lemma UseHasRelay(relays: seq<Relay>, open: Opener, u: Use)
    requires u in UsesOf(relays, open)
    ensures exists k :: 0 <= k < |relays| && u == UseOf(relays[k], open)
  {
    var k :| 0 <= k < |relays| && UsesOf(relays, open)[k] == u;
  }

  // ---- reading a printed table ----

  predicate Addressed(r: Relay) {
    BareHost(r.host) && 1 <= r.port <= 65535
  }

  /** Relays that Postfix cannot tell apart: it folds the case of the nexthop. */
  predicate SameKey(a: Relay, b: Relay) {
    ToLower(a.host) == ToLower(b.host) && a.port == b.port
  }

  lemma NexthopFolds(r: Relay)
    requires Addressed(r)
    ensures ToLower(Nexthop(r)) == Nexthop(r.(host := ToLower(r.host))) && BareHost(ToLower(r.host))
  {
    var low := r.(host := ToLower(r.host));
    FormatIntPlain(r.port);
    assert forall i :: 0 <= i < |r.host| ==> low.host[i] == LowerChar(r.host[i]);
    ToLowerConcat("[" + r.host + "]:", FormatInt(r.port));
    ToLowerConcat("[" + r.host, "]:");
    ToLowerConcat("[", r.host);
    LowerCharsAreLower(FormatInt(r.port));
  }

  /** Two relays share a key exactly when they share the port, and the host up to case. */
  lemma KeysFold(a: Relay, b: Relay)
    requires Addressed(a) && Addressed(b)
    ensures ToLower(Nexthop(a)) == ToLower(Nexthop(b)) <==> SameKey(a, b)
  {
    NexthopFolds(a);
    NexthopFolds(b);
    NexthopInjective(a.(host := ToLower(a.host)), b.(host := ToLower(b.host)));
  }

  /** What Postfix reads for a relay from a printed table. */
  function Read(table: seq<Entry>, r: Relay): Option<string> {
    Query(ParseMap(MapText(table)), Nexthop(r))
  }

  lemma SameKeyReadsSame(table: seq<Entry>, a: Relay, b: Relay)
    requires Addressed(a) && Addressed(b) && SameKey(a, b)
    ensures Read(table, a) == Read(table, b)
  {
    KeysFold(a, b);
  }

  ghost predicate AllPrintable(entries: seq<Entry>) {
    forall i :: 0 <= i < |entries| ==> Printable(entries[i])
  }

  // ---- logins ----

  /** Decrypting nothing fails: it is too short for a nonce. */
  predicate Cipher(open: Opener) {
    open("") == None
  }

  predicate HasLogin(r: Relay, open: Opener) {
    Credentials(r, open).Some? && Credentials(r, open).value != ""
  }

  /** The two parts of a relay's login, unless it has none or its password does not decrypt. */
  function LoginOf(r: Relay, open: Opener): Option<Login> {
    if HasLogin(r, open) then Some(Login(r.username, open(r.encryptedPassword).value)) else None
  }

  /** A relay has no login exactly if both fields are empty, or the password does not decrypt. */
  lemma LoginAbsent(r: Relay, open: Opener)
    ensures LoginOf(r, open) == None <==>
            (r.username == "" && r.encryptedPassword == "") || open(r.encryptedPassword) == None
    ensures LoginOf(r, open).Some? ==> LoginOf(r, open) == Some(Login(r.username, open(r.encryptedPassword).value))
  {
  }

  /** Their joined logins coincide though they are different. */
  predicate Overlap(a: Relay, b: Relay, open: Opener) {
    var la, lb := LoginOf(a, open), LoginOf(b, open);
    la.Some? && lb.Some? && (Shifted(la.value, lb.value) || Shifted(lb.value, la.value))
  }

  lemma CredentialsAgree(a: Relay, b: Relay, open: Opener)
    requires Credentials(a, open).Some? && Credentials(b, open).Some?
    ensures Credentials(a, open) == Credentials(b, open) <==> LoginOf(a, open) == LoginOf(b, open) || Overlap(a, b, open)
  {
    if LoginOf(a, open).Some? && LoginOf(b, open).Some? {
      JoinedAlike(LoginOf(a, open).value, LoginOf(b, open).value);
    }
  }

  /** Two relays that one build takes: on different nexthops, or with one login, or overlapping. */
  predicate Coexist(a: Relay, b: Relay, open: Opener) {
    Nexthop(a) == Nexthop(b) ==> LoginOf(a, open) == LoginOf(b, open) || Overlap(a, b, open)
  }

  lemma CoexistAt(relays: seq<Relay>, open: Opener, i: nat, j: nat)
    requires i < |relays| && j < |relays|
    requires Credentials(relays[i], open).Some? && Credentials(relays[j], open).Some?
    ensures var used := UsesOf(relays, open);
            Coexist(relays[i], relays[j], open) <==>
            (used[i].nexthop == used[j].nexthop ==> used[i].creds == used[j].creds)
  {
    CredentialsAgree(relays[i], relays[j], open);
  }

  predicate AllCoexist(relays: seq<Relay>, open: Opener) {
    forall i, j :: 0 <= i < |relays| && 0 <= j < |relays| ==> Coexist(relays[i], relays[j], open)
  }

  predicate AllDecrypt(relays: seq<Relay>, open: Opener) {
    forall r :: r in relays ==> Credentials(r, open).Some?
  }

  lemma AllOpenIsDecrypt(relays: seq<Relay>, open: Opener)
    ensures AllOpen(UsesOf(relays, open)) <==> AllDecrypt(relays, open)
  {
    var used := UsesOf(relays, open);
    forall i | 0 <= i < |relays|
      ensures relays[i] in relays && used[i].creds == Credentials(relays[i], open)
    {
    }
  }

  lemma NoClashIsCoexist(relays: seq<Relay>, open: Opener)
    requires AllDecrypt(relays, open)
    ensures NoClash(UsesOf(relays, open)) <==> AllCoexist(relays, open)
  {
    forall i, j | 0 <= i < |relays| && 0 <= j < |relays|
      ensures var used := UsesOf(relays, open);
              Coexist(relays[i], relays[j], open) <==>
              (used[i].nexthop == used[j].nexthop ==> used[i].creds == used[j].creds)
    {
      assert relays[i] in relays && relays[j] in relays;
      CoexistAt(relays, open, i, j);
    }
  }

  /** The build succeeds exactly if every policy resolves, every login in use decrypts, and of the
      relays in use any two on one host and port have one login, or logins that overlap. */
  lemma BuildTakesLogins(t: Tables, domains: seq<Domain>, open: Opener)
    requires Inv(t)
    ensures Compile(t, domains, open).Some? <==>
            && Resolves(t, domains)
            && AllDecrypt(UsedRelays(t, domains), open)
            && AllCoexist(UsedRelays(t, domains), open)
  {
    BuildSucceedsExactly(t, domains, open);
    if Resolves(t, domains) {
      AllOpenIsDecrypt(UsedRelays(t, domains), open);
      if AllDecrypt(UsedRelays(t, domains), open) {
        NoClashIsCoexist(UsedRelays(t, domains), open);
      }
    }
  }

  /** An overlap takes a colon in a user name. */
  lemma OverlapHasColon(a: Relay, b: Relay, open: Opener)
    requires Overlap(a, b, open)
    ensures LoginOf(a, open) != LoginOf(b, open) && (':' in a.username || ':' in b.username)
  {
    var la, lb := LoginOf(a, open).value, LoginOf(b, open).value;
    if Shifted(la, lb) {
      ShiftedIsAlike(la, lb);
    } else {
      ShiftedIsAlike(lb, la);
    }
  }

  function LoginEntry(r: Relay, open: Opener): Entry
    requires HasLogin(r, open)
  {
    (Nexthop(r), Credentials(r, open).value)
  }

  /** The table has the logins of the relays, and no others. */
  ghost predicate LoginTable(sasl: seq<Entry>, relays: seq<Relay>, open: Opener) {
    && AllPrintable(sasl)
    && (forall r :: r in relays ==> Addressed(r) && Credentials(r, open).Some?)
    && (forall r :: r in relays && HasLogin(r, open) ==> LoginEntry(r, open) in sasl)
    && (forall e :: e in sasl ==> exists r :: r in relays && HasLogin(r, open) && e == LoginEntry(r, open))
  }

  lemma LoginPrintable(r: Relay, open: Opener)
    requires Usable(r, open) && Cipher(open) && HasLogin(r, open)
    ensures Printable(LoginEntry(r, open))
  {
    NexthopPlain(r);
    var password := open(r.encryptedPassword).value;
    assert forall i :: 0 <= i < |r.username| ==> !IsControl(r.username[i]);
    assert forall i :: 0 <= i < |password| ==> !IsControl(password[i]);
  }

  lemma {:induction false} FoundIsEntry(entries: seq<Entry>, key: string)
    requires Lookup(entries, key).Some?
    ensures (key, Lookup(entries, key).value) in entries
  {
    if entries[0].0 != key {
      FoundIsEntry(entries[1..], key);
    }
  }

  lemma EntryIsLogin(relays: seq<Relay>, open: Opener, e: Entry)
    requires EmitAll(UsesOf(relays, open)).Some? && e in EmitAll(UsesOf(relays, open)).value.sasl
    ensures exists r :: r in relays && HasLogin(r, open) && e == LoginEntry(r, open)
  {
    var used := UsesOf(relays, open);
    SaslFromUses(used);
    var u :| u in used && u.creds.Some? && u.creds.value != "" && e == (u.nexthop, u.creds.value);
    UseHasRelay(relays, open, u);
    var k :| 0 <= k < |relays| && u == UseOf(relays[k], open);
    assert relays[k] in relays && HasLogin(relays[k], open) && e == LoginEntry(relays[k], open);
  }

  lemma LoginIsEntry(relays: seq<Relay>, open: Opener, r: Relay)
    requires EmitAll(UsesOf(relays, open)).Some? && r in relays
    ensures Credentials(r, open).Some?
    ensures HasLogin(r, open) ==> LoginEntry(r, open) in EmitAll(UsesOf(relays, open)).value.sasl
  {
    var used := UsesOf(relays, open);
    var k :| 0 <= k < |relays| && relays[k] == r;
    assert used[k] == UseOf(r, open);
    DedupSound(used, k);
    if HasLogin(r, open) {
      FoundIsEntry(EmitAll(used).value.sasl, Nexthop(r));
    }
  }

  /** The dedup loop drops no login and makes none up. */
  lemma EmittedLogins(relays: seq<Relay>, open: Opener)
    requires Cipher(open) && forall r :: r in relays ==> Usable(r, open)
    ensures EmitAll(UsesOf(relays, open)).Some? ==> LoginTable(EmitAll(UsesOf(relays, open)).value.sasl, relays, open)
  {
    if EmitAll(UsesOf(relays, open)).Some? {
      var sasl := EmitAll(UsesOf(relays, open)).value.sasl;
      forall r | r in relays
        ensures Credentials(r, open).Some? && (HasLogin(r, open) ==> LoginEntry(r, open) in sasl)
      {
        LoginIsEntry(relays, open, r);
      }
      forall e | e in sasl
        ensures Printable(e) && exists r :: r in relays && HasLogin(r, open) && e == LoginEntry(r, open)
      {
        EntryIsLogin(relays, open, e);
        var r :| r in relays && HasLogin(r, open) && e == LoginEntry(r, open);
        LoginPrintable(r, open);
      }
    }
  }

  /** What Postfix logs in to a relay with. */
  function LoginRead(table: seq<Entry>, r: Relay): Option<Login> {
    match Read(table, r)
    case None => None
    case Some(text) => Some(SplitLogin(text))
  }

  /** The relay gets its own user name and password, and none if it has none. */
  predicate ReadsOwn(table: seq<Entry>, r: Relay, open: Opener) {
    LoginRead(table, r) == LoginOf(r, open)
  }

  predicate PlainLogin(r: Relay, open: Opener) {
    var login := LoginOf(r, open);
    login.Some? ==> Plain(login.value)
  }

  lemma CredentialsJoin(r: Relay, open: Opener)
    ensures LoginOf(r, open).Some? <==> HasLogin(r, open)
    ensures LoginOf(r, open).Some? ==> Credentials(r, open) == Some(Joined(LoginOf(r, open).value))
  {
  }

  lemma TextRead(sasl: seq<Entry>, relays: seq<Relay>, open: Opener, r: Relay)
    requires LoginTable(sasl, relays, open) && r in relays
    ensures match Read(sasl, r)
            case None => !HasLogin(r, open)
            case Some(text) =>
              exists x :: x in relays && SameKey(x, r) && HasLogin(x, open) && text == TrimSpace(Credentials(x, open).value)
  {
    PrintedMember(sasl, Nexthop(r));
    if Read(sasl, r).Some? {
      var e :| e in sasl && ToLower(e.0) == ToLower(Nexthop(r)) && Read(sasl, r).value == TrimSpace(e.1);
      var x :| x in relays && HasLogin(x, open) && e == LoginEntry(x, open);
      KeysFold(x, r);
    }
  }

  /** A login that Postfix reads is that of a relay in use it cannot tell from this one; for a relay
      with a login it reads one. */
  lemma LoginReadFrom(sasl: seq<Entry>, relays: seq<Relay>, open: Opener, r: Relay)
    requires LoginTable(sasl, relays, open) && r in relays
    ensures match LoginRead(sasl, r)
            case None => LoginOf(r, open) == None
            case Some(found) =>
              exists x :: x in relays && SameKey(x, r) && LoginOf(x, open).Some? && found == AsRead(LoginOf(x, open).value)
  {
    TextRead(sasl, relays, open, r);
    CredentialsJoin(r, open);
    if Read(sasl, r).Some? {
      var x :| x in relays && SameKey(x, r) && HasLogin(x, open) && Read(sasl, r).value == TrimSpace(Credentials(x, open).value);
      CredentialsJoin(x, open);
    }
  }

  /** No relay in use has a login unlike that of another on its port and, up to case, its host. */
  predicate OneLoginPerKey(relays: seq<Relay>, open: Opener) {
    forall a, b :: a in relays && b in relays && SameKey(a, b) ==> LoginOf(a, open) == LoginOf(b, open)
  }

  lemma OwnLogin(sasl: seq<Entry>, relays: seq<Relay>, open: Opener, r: Relay)
    requires LoginTable(sasl, relays, open) && r in relays
    requires PlainLogin(r, open) && OneLoginPerKey(relays, open)
    ensures ReadsOwn(sasl, r, open)
  {
    LoginReadFrom(sasl, relays, open, r);
    if LoginRead(sasl, r).Some? {
      var x :| x in relays && SameKey(x, r) && LoginOf(x, open).Some? && LoginRead(sasl, r).value == AsRead(LoginOf(x, open).value);
      PlainIsRead(LoginOf(x, open).value);
    }
  }

  lemma OwnIsPlain(sasl: seq<Entry>, relays: seq<Relay>, open: Opener, r: Relay)
    requires LoginTable(sasl, relays, open) && r in relays && ReadsOwn(sasl, r, open)
    ensures PlainLogin(r, open)
  {
    LoginReadFrom(sasl, relays, open, r);
    if LoginRead(sasl, r).Some? {
      var x :| x in relays && LoginOf(x, open).Some? && LoginRead(sasl, r).value == AsRead(LoginOf(x, open).value);
      PlainIsRead(LoginOf(x, open).value);
    }
  }

  lemma LoginsRead(sasl: seq<Entry>, relays: seq<Relay>, open: Opener)
    requires LoginTable(sasl, relays, open)
    ensures (forall r :: r in relays ==> ReadsOwn(sasl, r, open)) <==>
            (forall r :: r in relays ==> PlainLogin(r, open)) && OneLoginPerKey(relays, open)
  {
    if (forall r :: r in relays ==> PlainLogin(r, open)) && OneLoginPerKey(relays, open) {
      forall r | r in relays
        ensures ReadsOwn(sasl, r, open)
      {
        OwnLogin(sasl, relays, open, r);
      }
    }
    if forall r :: r in relays ==> ReadsOwn(sasl, r, open) {
      forall r | r in relays
        ensures PlainLogin(r, open)
      {
        OwnIsPlain(sasl, relays, open, r);
      }
      forall a, b | a in relays && b in relays && SameKey(a, b)
        ensures LoginOf(a, open) == LoginOf(b, open)
      {
        SameKeyReadsSame(sasl, a, b);
        assert ReadsOwn(sasl, a, open) && ReadsOwn(sasl, b, open);
      }
    }
  }

  /** From the printed `sasl_passwd` every relay in use reads its own user name and password, and
      none if it has none, exactly if no login has an outer blank, no user name a colon, and relays
      on one port and, up to case, one host have one login. */
  lemma LoginsPrinted(t: Tables, domains: seq<Domain>, open: Opener)
    requires Inv(t) && AllUsable(t, open) && Cipher(open)
    ensures Compile(t, domains, open).Some? ==>
              var relays, sasl := UsedRelays(t, domains), Compile(t, domains, open).value.emitted.sasl;
              (forall r :: r in relays ==> ReadsOwn(sasl, r, open)) <==>
              (forall r :: r in relays ==> PlainLogin(r, open)) && OneLoginPerKey(relays, open)
  {
    if Compile(t, domains, open).Some? {
      UsedRelaysUsable(t, domains, open);
      EmittedLogins(UsedRelays(t, domains), open);
      LoginsRead(Compile(t, domains, open).value.emitted.sasl, UsedRelays(t, domains), open);
    }
  }

  // ---- TLS policies ----

  /** The first relay in use with just this nexthop: the dedup loop goes by its TLS mode. */
  predicate Leads(relays: seq<Relay>, open: Opener, j: nat)
    requires j < |relays|
  {
    FirstOn(UsesOf(relays, open), Nexthop(relays[j])) == j
  }

  predicate LeadsEncrypted(relays: seq<Relay>, open: Opener, j: nat)
    requires j < |relays|
  {
    Leads(relays, open, j) && relays[j].tlsMode == StartTLS
  }

  /** The table has one entry for each nexthop led by a STARTTLS relay, and no others. */
  ghost predicate PolicyTable(tls: seq<Entry>, relays: seq<Relay>, open: Opener) {
    && AllPrintable(tls)
    && (forall r :: r in relays ==> Addressed(r))
    && (forall j :: 0 <= j < |relays| && LeadsEncrypted(relays, open, j) ==> (Nexthop(relays[j]), "encrypt") in tls)
    && (forall e :: e in tls ==>
          exists j :: 0 <= j < |relays| && LeadsEncrypted(relays, open, j) && e == (Nexthop(relays[j]), "encrypt"))
  }

  lemma LeaderOf(relays: seq<Relay>, open: Opener, k: nat)
    requires k < |relays|
    ensures var first := FirstOn(UsesOf(relays, open), Nexthop(relays[k]));
            first <= k && Nexthop(relays[first]) == Nexthop(relays[k]) && Leads(relays, open, first)
  {
    var used := UsesOf(relays, open);
    assert used[k] == UseOf(relays[k], open);
    FirstOnIsFirst(used, used[k].nexthop);
    var first := FirstOn(used, used[k].nexthop);
    assert used[first] == UseOf(relays[first], open);
  }

  lemma PolicyOnNexthop(relays: seq<Relay>, open: Opener, k: nat)
    requires k < |relays|
    ensures EmitAll(UsesOf(relays, open)).Some? ==>
              var first := FirstOn(UsesOf(relays, open), Nexthop(relays[k]));
              first < |relays|
              && Lookup(EmitAll(UsesOf(relays, open)).value.tls, Nexthop(relays[k])) ==
                 if relays[first].tlsMode == StartTLS then Some("encrypt") else None
  {
    var used := UsesOf(relays, open);
    if EmitAll(used).Some? {
      LeaderOf(relays, open, k);
      EmitAllFaithful(used, Nexthop(relays[k]));
      var first := FirstOn(used, Nexthop(relays[k]));
      assert used[first] == UseOf(relays[first], open);
    }
  }

  lemma {:induction false} EntryIsFound(entries: seq<Entry>, e: Entry)
    requires e in entries
    ensures Lookup(entries, e.0).Some?
  {
    if entries[0].0 != e.0 {
      EntryIsFound(entries[1..], e);
    }
  }

  lemma EntryIsPolicy(relays: seq<Relay>, open: Opener, e: Entry)
    requires EmitAll(UsesOf(relays, open)).Some? && e in EmitAll(UsesOf(relays, open)).value.tls
    ensures exists j :: 0 <= j < |relays| && LeadsEncrypted(relays, open, j) && e == (Nexthop(relays[j]), "encrypt")
  {
    var used := UsesOf(relays, open);
    TlsFromUses(used);
    var u :| u in used && e.0 == u.nexthop;
    UseHasRelay(relays, open, u);
    var k :| 0 <= k < |relays| && u == UseOf(relays[k], open);
    LeaderOf(relays, open, k);
    PolicyOnNexthop(relays, open, k);
    EntryIsFound(EmitAll(used).value.tls, e);
    assert LeadsEncrypted(relays, open, FirstOn(used, Nexthop(relays[k])));
  }

  lemma PolicyPrintable(r: Relay)
    requires Addressed(r)
    ensures Printable((Nexthop(r), "encrypt"))
  {
    NexthopPlain(r);
  }

  lemma EmittedPolicies(relays: seq<Relay>, open: Opener)
    requires forall r :: r in relays ==> Addressed(r)
    ensures EmitAll(UsesOf(relays, open)).Some? ==> PolicyTable(EmitAll(UsesOf(relays, open)).value.tls, relays, open)
  {
    if EmitAll(UsesOf(relays, open)).Some? {
      var tls := EmitAll(UsesOf(relays, open)).value.tls;
      forall j | 0 <= j < |relays| && LeadsEncrypted(relays, open, j)
        ensures (Nexthop(relays[j]), "encrypt") in tls
      {
        PolicyOnNexthop(relays, open, j);
        FoundIsEntry(tls, Nexthop(relays[j]));
      }
      forall e | e in tls
        ensures Printable(e)
        ensures exists j :: 0 <= j < |relays| && LeadsEncrypted(relays, open, j) && e == (Nexthop(relays[j]), "encrypt")
      {
        EntryIsPolicy(relays, open, e);
        var j :| 0 <= j < |relays| && LeadsEncrypted(relays, open, j) && e == (Nexthop(relays[j]), "encrypt");
        PolicyPrintable(relays[j]);
      }
    }
  }

  /** A STARTTLS relay that Postfix cannot tell from `r` leads its nexthop. */
  predicate Encrypting(relays: seq<Relay>, open: Opener, r: Relay) {
    exists j :: 0 <= j < |relays| && SameKey(relays[j], r) && LeadsEncrypted(relays, open, j)
  }

  lemma EncryptTrimmed()
    ensures TrimSpace("encrypt") == "encrypt"
  {
    TrimSpaceFixes("encrypt");
  }

  lemma EncryptionRead(tls: seq<Entry>, relays: seq<Relay>, open: Opener, r: Relay)
    requires PolicyTable(tls, relays, open) && r in relays
    ensures Read(tls, r) == if Encrypting(relays, open, r) then Some("encrypt") else None
  {
    PrintedMember(tls, Nexthop(r));
    EncryptTrimmed();
    if Read(tls, r).Some? {
      var e :| e in tls && ToLower(e.0) == ToLower(Nexthop(r)) && Read(tls, r).value == TrimSpace(e.1);
      var j :| 0 <= j < |relays| && LeadsEncrypted(relays, open, j) && e == (Nexthop(relays[j]), "encrypt");
      assert relays[j] in relays;
      KeysFold(relays[j], r);
    } else if Encrypting(relays, open, r) {
      var j :| 0 <= j < |relays| && SameKey(relays[j], r) && LeadsEncrypted(relays, open, j);
      assert relays[j] in relays;
      KeysFold(relays[j], r);
      assert false;
    }
  }

  /** The printed `tls_policy` holds mail to a relay in use to encryption exactly when a STARTTLS relay
      that shares its port and, up to case, its host comes first among the relays in use on a nexthop. */
  lemma EncryptionPrinted(t: Tables, domains: seq<Domain>, open: Opener)
    requires Inv(t) && AllUsable(t, open)
    ensures Compile(t, domains, open).Some? ==>
              var relays, tls := UsedRelays(t, domains), Compile(t, domains, open).value.emitted.tls;
              forall r :: r in relays ==> Read(tls, r) == if Encrypting(relays, open, r) then Some("encrypt") else None
  {
    if Compile(t, domains, open).Some? {
      var relays, tls := UsedRelays(t, domains), Compile(t, domains, open).value.emitted.tls;
      UsedRelaysUsable(t, domains, open);
      EmittedPolicies(relays, open);
      forall r | r in relays
        ensures Read(tls, r) == if Encrypting(relays, open, r) then Some("encrypt") else None
      {
        EncryptionRead(tls, relays, open, r);
      }
    }
  }

  predicate OneModePerKey(relays: seq<Relay>) {
    forall a, b :: a in relays && b in relays && SameKey(a, b) ==> a.tlsMode == b.tlsMode
  }

  lemma EncryptedLeader(relays: seq<Relay>, open: Opener, r: Relay)
    requires (forall x :: x in relays ==> Addressed(x)) && r in relays
    requires OneModePerKey(relays) && r.tlsMode == StartTLS
    ensures Encrypting(relays, open, r)
  {
    var k :| 0 <= k < |relays| && relays[k] == r;
    LeaderOf(relays, open, k);
    var first := FirstOn(UsesOf(relays, open), Nexthop(r));
    assert relays[first] in relays;
    KeysFold(relays[first], r);
    assert SameKey(relays[first], r) && LeadsEncrypted(relays, open, first);
  }

  predicate SupportedMode(r: Relay) {
    r.tlsMode == StartTLS || r.tlsMode == ImplicitTLS
  }

  lemma EncryptionFits(tls: seq<Entry>, relays: seq<Relay>, open: Opener)
    requires PolicyTable(tls, relays, open) && forall r :: r in relays ==> SupportedMode(r)
    ensures (forall r :: r in relays ==> (Read(tls, r) == Some("encrypt") <==> r.tlsMode == StartTLS))
            <==> OneModePerKey(relays)
  {
    if OneModePerKey(relays) {
      forall r | r in relays
        ensures Read(tls, r) == Some("encrypt") <==> r.tlsMode == StartTLS
      {
        EncryptionRead(tls, relays, open, r);
        if r.tlsMode == StartTLS {
          EncryptedLeader(relays, open, r);
        }
      }
    }
    if forall r :: r in relays ==> (Read(tls, r) == Some("encrypt") <==> r.tlsMode == StartTLS) {
      forall a, b | a in relays && b in relays && SameKey(a, b)
        ensures a.tlsMode == b.tlsMode
      {
        SameKeyReadsSame(tls, a, b);
        assert SupportedMode(a) && SupportedMode(b);
      }
    }
  }

  /** By the printed `tls_policy` each STARTTLS relay in use is held to encryption, and no other relay
      is, exactly if relays on one port and, up to case, one host have one TLS mode. */
  lemma EncryptionFitsExactly(t: Tables, domains: seq<Domain>, open: Opener)
    requires Inv(t) && AllUsable(t, open)
    ensures Compile(t, domains, open).Some? ==>
              var relays, tls := UsedRelays(t, domains), Compile(t, domains, open).value.emitted.tls;
              (forall r :: r in relays ==> (Read(tls, r) == Some("encrypt") <==> r.tlsMode == StartTLS))
              <==> OneModePerKey(relays)
  {
    if Compile(t, domains, open).Some? {
      UsedRelaysUsable(t, domains, open);
      EmittedPolicies(UsedRelays(t, domains), open);
      EncryptionFits(Compile(t, domains, open).value.emitted.tls, UsedRelays(t, domains), open);
    }
  }
}
