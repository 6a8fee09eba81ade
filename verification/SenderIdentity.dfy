/** Who may send as whom. Postfix reads it from `sender_logins`; webmail asks the store.
    The two agree because of what alias creation guarantees. */
module SenderIdentity {
  import opened Text
  import opened StableSort
  import opened Names

  datatype Mailbox = Mailbox(id: int, domainId: int, email: string, enabled: bool)

  datatype Alias = Alias(id: int, domainId: int, source: string, destination: string, catchAll: bool, enabled: bool)

  /** Domains by id, mailbox and alias rows, and the AUTOINCREMENT counters. */
  datatype Tables = Tables(
    domains: map<int, string>, mailboxes: seq<Mailbox>, aliases: seq<Alias>,
    nextDomain: int, nextMailbox: int, nextAlias: int)

  const EMPTY := Tables(map[], [], [], 1, 1, 1)

  // ---- store operations ----

  /** The source an alias gets, if it is acceptable for the domain. */
  function AliasSource(domain: string, source: string, catchAll: bool): Option<string> {
    if catchAll then Some("@" + domain)
    else
      var s := Normalize(source);
      var i := IndexOf(s, '@');
      if i < |s| && s[i + 1..] != domain then None
      else if !ValidLocalPart(s[..i]) then None
      else Some(s[..i] + "@" + domain)
  }

  predicate EmailTaken(t: Tables, email: string) {
    exists m :: m in t.mailboxes && m.email == email
  }

  predicate AliasTaken(t: Tables, source: string, destination: string) {
    exists a :: a in t.aliases && a.source == source && a.destination == destination
  }

  datatype Op =
    | CreateDomain(name: string)
    | DeleteDomain(domainId: int)
    | CreateMailbox(inDomain: int, localPart: string)
    | EnableMailbox(mailboxId: int, on: bool)
    | DeleteMailbox(mailboxId: int)
      /** `validEmail` is the verdict of the address parser on the destination. */
    | CreateAlias(inDomain: int, source: string, destination: string, catchAll: bool, validEmail: bool)
    | EnableAlias(aliasId: int, on: bool)
    | DeleteAlias(aliasId: int)

  function WithMailbox(t: Tables, domainId: int, localPart: string): Tables {
    var lp := Normalize(localPart);
    if !ValidLocalPart(lp) || domainId !in t.domains then t
    else
      var email := lp + "@" + t.domains[domainId];
      if EmailTaken(t, email) then t
      else t.(mailboxes := t.mailboxes + [Mailbox(t.nextMailbox, domainId, email, true)],
              nextMailbox := t.nextMailbox + 1)
  }

  function WithAlias(t: Tables, domainId: int, source: string, destination: string, catchAll: bool, validEmail: bool): Tables {
    if domainId !in t.domains || !validEmail then t
    else
      var src, dst := AliasSource(t.domains[domainId], source, catchAll), Normalize(destination);
      if src.None? || src.value == dst || AliasTaken(t, src.value, dst) then t
      else t.(aliases := t.aliases + [Alias(t.nextAlias, domainId, src.value, dst, catchAll, true)],
              nextAlias := t.nextAlias + 1)
  }

  function MailboxesEnabled(ms: seq<Mailbox>, id: int, on: bool): seq<Mailbox> {
    seq(|ms|, i requires 0 <= i < |ms| => if ms[i].id == id then ms[i].(enabled := on) else ms[i])
  }

  function AliasesEnabled(s: seq<Alias>, id: int, on: bool): seq<Alias> {
    seq(|s|, i requires 0 <= i < |s| => if s[i].id == id then s[i].(enabled := on) else s[i])
  }

  function Apply(t: Tables, op: Op): Tables {
    match op
    case CreateDomain(name) =>
      var n := Normalize(name);
      if !ValidDomainName(n) || n in t.domains.Values then t
      else t.(domains := t.domains[t.nextDomain := n], nextDomain := t.nextDomain + 1)
    case DeleteDomain(id) =>
      t.(domains := t.domains - {id},
         mailboxes := Filter(t.mailboxes, (m: Mailbox) => m.domainId != id),
         aliases := Filter(t.aliases, (a: Alias) => a.domainId != id))
    case CreateMailbox(domainId, localPart) => WithMailbox(t, domainId, localPart)
    case EnableMailbox(id, on) => t.(mailboxes := MailboxesEnabled(t.mailboxes, id, on))
    case DeleteMailbox(id) => t.(mailboxes := Filter(t.mailboxes, (m: Mailbox) => m.id != id))
    case CreateAlias(domainId, source, destination, catchAll, validEmail) =>
      WithAlias(t, domainId, source, destination, catchAll, validEmail)
    case EnableAlias(id, on) => t.(aliases := AliasesEnabled(t.aliases, id, on))
    case DeleteAlias(id) => t.(aliases := Filter(t.aliases, (a: Alias) => a.id != id))
  }

  function Run(t: Tables, ops: seq<Op>): Tables
    decreases |ops|
  {
    if ops == [] then t else Run(Apply(t, ops[0]), ops[1..])
  }

  // ---- the invariant ----

  predicate AliasOk(a: Alias) {
    && Normal(a.source) && Normal(a.destination) && a.source != "" && a.source != a.destination
    && (a.catchAll <==> a.source[0] == '@')
  }

  predicate MailboxOk(m: Mailbox) {
    m.email != "" && Normal(m.email) && m.email[0] != '@'
  }

  /** No two rows share a key. */
  ghost predicate DistinctBy<T, K>(s: seq<T>, key: T -> K) {
    forall i, j :: 0 <= i < j < |s| ==> key(s[i]) != key(s[j])
  }

  function EmailOf(): Mailbox -> string {
    (m: Mailbox) => m.email
  }

  function PairOf(): Alias -> (string, string) {
    (a: Alias) => (a.source, a.destination)
  }

  ghost predicate DistinctNames(domains: map<int, string>) {
    forall a, b :: a in domains && b in domains && domains[a] == domains[b] ==> a == b
  }

  ghost predicate Inv(t: Tables) {
    && (forall id :: id in t.domains ==> DottedName(t.domains[id]))
    && DistinctNames(t.domains)
    && (forall m :: m in t.mailboxes ==> MailboxOk(m))
    && (forall a :: a in t.aliases ==> AliasOk(a))
    && DistinctBy(t.mailboxes, EmailOf())
    && DistinctBy(t.aliases, PairOf())
  }

  lemma FirstOfTrimmed(s: string)
    requires s != "" && !IsSpace(s[0])
    ensures TrimSpace(s) != "" && TrimSpace(s)[0] == s[0]
  {
    TrimRightTrims(s);
    if TrimRight(s) == "" {
      TrimRightBlank(s);
    }
  }

  lemma {:induction false} TrimRightBlank(s: string)
    requires TrimRight(s) == ""
    ensures forall i :: 0 <= i < |s| ==> IsSpace(s[i])
  {
    if s != "" {
      TrimRightBlank(s[..|s| - 1]);
      assert s == s[..|s| - 1] + [s[|s| - 1]];
    }
  }

  /** A local part that passes, taken from a trimmed lower-case text, makes a normal address
      that does not look like a catch-all. */
  lemma LocalPartAddress(lp: string, rest: string, domain: string)
    requires Normal(lp + rest) && ValidLocalPart(lp) && DottedName(domain)
    ensures var address := lp + "@" + domain; Normal(address) && address[0] != '@'
  {
    assert lp != "";
    assert (lp + rest)[0] == lp[0];
    FirstOfTrimmed(lp);
    ToLowerConcat(lp, rest);
    assert ToLower(lp + rest)[..|lp|] == ToLower(lp) && (lp + rest)[..|lp|] == lp;
    AddressNormal(lp, domain);
  }

  lemma AliasSourceOk(domain: string, source: string, catchAll: bool)
    requires DottedName(domain)
    ensures match AliasSource(domain, source, catchAll)
            case Some(s) => s != "" && Normal(s) && (catchAll <==> s[0] == '@')
            case None => !catchAll
  {
    if AliasSource(domain, source, catchAll).None? {
    } else if catchAll {
      DottedNameChars(domain);
      LowerCharsAreLower("@" + domain);
    } else {
      NormalizeIsNormal(source);
      var s := Normalize(source);
      var i := IndexOf(s, '@');
      assert s == s[..i] + s[i..];
      LocalPartAddress(s[..i], s[i..], domain);
    }
  }

  lemma {:induction false} FilterKeepsDistinct<T, K>(s: seq<T>, p: T -> bool, key: T -> K)
    requires DistinctBy(s, key)
    ensures DistinctBy(Filter(s, p), key)
  {
    if s != [] {
      FilterKeepsDistinct(s[1..], p, key);
      var rest := Filter(s[1..], p);
      forall j | 0 <= j < |rest|
        ensures key(s[0]) != key(rest[j])
      {
        assert rest[j] in rest;
        var k :| 0 <= k < |s[1..]| && s[1..][k] == rest[j];
        assert s[k + 1] == rest[j];
      }
    }
  }

  lemma WithMailboxKeepsInv(t: Tables, domainId: int, localPart: string)
    requires Inv(t)
    ensures Inv(WithMailbox(t, domainId, localPart))
  {
    var t' := WithMailbox(t, domainId, localPart);
    var lp := Normalize(localPart);
    if t' != t {
      NormalizeIsNormal(localPart);
      assert lp + "" == lp;
      LocalPartAddress(lp, "", t.domains[domainId]);
      var email := lp + "@" + t.domains[domainId];
      forall i | 0 <= i < |t.mailboxes|
        ensures t.mailboxes[i].email != email
      {
        assert t.mailboxes[i] in t.mailboxes;
      }
    }
  }

  lemma WithAliasKeepsInv(t: Tables, domainId: int, source: string, destination: string, catchAll: bool, validEmail: bool)
    requires Inv(t)
    ensures Inv(WithAlias(t, domainId, source, destination, catchAll, validEmail))
  {
    var t' := WithAlias(t, domainId, source, destination, catchAll, validEmail);
    if t' != t {
      AliasSourceOk(t.domains[domainId], source, catchAll);
      NormalizeIsNormal(destination);
      forall i | 0 <= i < |t.aliases|
        ensures PairOf()(t.aliases[i]) != PairOf()(t'.aliases[|t.aliases|])
      {
        assert t.aliases[i] in t.aliases;
      }
    }
  }

  lemma EnableKeepsInv(t: Tables, id: int, on: bool)
    requires Inv(t)
    ensures Inv(t.(mailboxes := MailboxesEnabled(t.mailboxes, id, on)))
    ensures Inv(t.(aliases := AliasesEnabled(t.aliases, id, on)))
  {
    var ms, s := MailboxesEnabled(t.mailboxes, id, on), AliasesEnabled(t.aliases, id, on);
    forall m | m in ms ensures MailboxOk(m) {
      var i :| 0 <= i < |ms| && ms[i] == m;
      assert MailboxOk(t.mailboxes[i]);
    }
    forall a | a in s ensures AliasOk(a) {
      var i :| 0 <= i < |s| && s[i] == a;
      assert AliasOk(t.aliases[i]);
    }
    assert forall i :: 0 <= i < |ms| ==> ms[i].email == t.mailboxes[i].email;
    assert forall i :: 0 <= i < |s| ==> PairOf()(s[i]) == PairOf()(t.aliases[i]);
  }

  lemma FilterKeepsInv(t: Tables, p: Mailbox -> bool, q: Alias -> bool)
    requires Inv(t)
    ensures Inv(t.(mailboxes := Filter(t.mailboxes, p)))
    ensures Inv(t.(aliases := Filter(t.aliases, q)))
    ensures Inv(t.(mailboxes := Filter(t.mailboxes, p), aliases := Filter(t.aliases, q)))
  {
    FilterKeepsDistinct(t.mailboxes, p, EmailOf());
    FilterKeepsDistinct(t.aliases, q, PairOf());
  }

  lemma ApplyKeepsInv(t: Tables, op: Op)
    requires Inv(t)
    ensures Inv(Apply(t, op))
  {
    match op
    case CreateDomain(name) =>
    case DeleteDomain(id) =>
      FilterKeepsInv(t, (m: Mailbox) => m.domainId != id, (a: Alias) => a.domainId != id);
    case CreateMailbox(domainId, localPart) =>
      WithMailboxKeepsInv(t, domainId, localPart);
    case EnableMailbox(id, on) =>
      EnableKeepsInv(t, id, on);
    case DeleteMailbox(id) =>
      FilterKeepsInv(t, (m: Mailbox) => m.id != id, (a: Alias) => true);
    case CreateAlias(domainId, source, destination, catchAll, validEmail) =>
      WithAliasKeepsInv(t, domainId, source, destination, catchAll, validEmail);
    case EnableAlias(id, on) =>
      EnableKeepsInv(t, id, on);
    case DeleteAlias(id) =>
      FilterKeepsInv(t, (m: Mailbox) => true, (a: Alias) => a.id != id);
  }

  lemma {:induction false} RunKeepsInv(t: Tables, ops: seq<Op>)
    requires Inv(t)
    ensures Inv(Run(t, ops))
    decreases |ops|
  {
    if ops != [] {
      ApplyKeepsInv(t, ops[0]);
      RunKeepsInv(Apply(t, ops[0]), ops[1..]);
    }
  }

  // ---- Postfix: sender_logins ----

  datatype SenderLogin = SenderLogin(sender: string, owners: seq<string>)

  predicate HasMailbox(ms: seq<Mailbox>, email: string) {
    exists m :: m in ms && m.enabled && m.email == email
  }

  /** A mailbox owns its own address. */
  function OwnAddress(ms: seq<Mailbox>, x: string): seq<string> {
    if ms == [] then [] else
      var m := ms[|ms| - 1];
      OwnAddress(ms[..|ms| - 1], x) + (if m.enabled && m.email == x then [m.email] else [])
  }

  /** An enabled alias that is no catch-all grants its address to a local destination. */
  function NewOwner(ms: seq<Mailbox>, a: Alias, x: string): seq<string> {
    if a.enabled && !a.catchAll && a.source == x && HasMailbox(ms, a.destination) then [a.destination] else []
  }

  function Granted(ms: seq<Mailbox>, s: seq<Alias>, x: string): seq<string> {
    if s == [] then [] else Granted(ms, s[..|s| - 1], x) + NewOwner(ms, s[|s| - 1], x)
  }

  function Owners(ms: seq<Mailbox>, s: seq<Alias>, x: string): seq<string> {
    OwnAddress(ms, x) + Granted(ms, s, x)
  }

  function OwnersIn(logins: seq<SenderLogin>, x: string): seq<string> {
    if logins == [] then []
    else if logins[0].sender == x then logins[0].owners else OwnersIn(logins[1..], x)
  }

  function Get(owners: map<string, seq<string>>, x: string): seq<string> {
    if x in owners then owners[x] else []
  }

  method EnabledEmails(ms: seq<Mailbox>) returns (emails: set<string>)
    ensures forall e :: e in emails <==> HasMailbox(ms, e)
  {
    emails := {};
    for i := 0 to |ms|
      invariant forall e :: e in emails <==> HasMailbox(ms[..i], e)
    {
      assert ms[..i + 1] == ms[..i] + [ms[i]];
      if ms[i].enabled {
        emails := emails + {ms[i].email};
      }
    }
    assert ms[..|ms|] == ms;
  }

  method OwnAddresses(ms: seq<Mailbox>) returns (owners: map<string, seq<string>>)
    ensures forall x :: Get(owners, x) == OwnAddress(ms, x)
  {
    owners := map[];
    for i := 0 to |ms|
      invariant forall x :: Get(owners, x) == OwnAddress(ms[..i], x)
    {
      assert ms[..i + 1][..i] == ms[..i];
      if ms[i].enabled {
        owners := owners[ms[i].email := Get(owners, ms[i].email) + [ms[i].email]];
      }
    }
    assert ms[..|ms|] == ms;
  }

  lemma OneMoreAlias(ms: seq<Mailbox>, s: seq<Alias>, i: nat)
    requires i < |s|
    ensures forall x :: Owners(ms, s[..i + 1], x) == Owners(ms, s[..i], x) + NewOwner(ms, s[i], x)
  {
    forall x
      ensures Owners(ms, s[..i + 1], x) == Owners(ms, s[..i], x) + NewOwner(ms, s[i], x)
    {
      assert s[..i + 1][..i] == s[..i];
    }
  }

  /** The loop over the aliases, on top of the mailboxes' own addresses. */
  method AddGrants(ms: seq<Mailbox>, s: seq<Alias>, emails: set<string>, own: map<string, seq<string>>)
    returns (owners: map<string, seq<string>>)
    requires forall e :: e in emails <==> HasMailbox(ms, e)
    requires forall x :: Get(own, x) == OwnAddress(ms, x)
    ensures forall x :: Get(owners, x) == Owners(ms, s, x)
  {
    owners := own;
    for i := 0 to |s|
      invariant forall x :: Get(owners, x) == Owners(ms, s[..i], x)
    {
      var a := s[i];
      OneMoreAlias(ms, s, i);
      if !a.enabled || a.catchAll {
        continue;
      }
      if a.destination in emails {
        owners := owners[a.source := Get(owners, a.source) + [a.destination]];
      }
    }
    assert s[..|s|] == s;
  }

  method BuildSenderLogins(ms: seq<Mailbox>, s: seq<Alias>) returns (logins: seq<SenderLogin>)
    ensures forall x :: OwnersIn(logins, x) == Owners(ms, s, x)
    ensures forall i, j :: 0 <= i < j < |logins| ==> Less(logins[i].sender, logins[j].sender)
  {
    var mailboxSet := EnabledEmails(ms);
    var own := OwnAddresses(ms);
    var owners := AddGrants(ms, s, mailboxSet, own);
    logins := SortedLogins(owners);
  }

  method SortedKeys(owners: map<string, seq<string>>) returns (sorted: seq<string>)
    ensures forall k :: k in sorted <==> k in owners
    ensures Increasing(sorted)
  {
    var keys: seq<string> := [];
    var left := owners.Keys;
    while left != {}
      invariant left <= owners.Keys
      invariant forall k :: k in keys <==> k in owners && k !in left
      invariant NoDuplicates(keys)
      decreases |left|
    {
      var k :| k in left;
      keys := keys + [k];
      left := left - {k};
    }
    sorted := Sort(keys, NameOrder());
    SortedStrictly(keys);
    ListedRows(sorted, keys);
  }

  /** The map as a list in the order of its keys. */
  method SortedLogins(owners: map<string, seq<string>>) returns (logins: seq<SenderLogin>)
    ensures forall x :: OwnersIn(logins, x) == Get(owners, x)
    ensures forall i, j :: 0 <= i < j < |logins| ==> Less(logins[i].sender, logins[j].sender)
  {
    var keys := SortedKeys(owners);
    logins := [];
    for i := 0 to |keys|
      invariant |logins| == i
      invariant forall j :: 0 <= j < i ==> keys[j] in owners && logins[j] == SenderLogin(keys[j], owners[keys[j]])
    {
      assert keys[i] in keys;
      logins := logins + [SenderLogin(keys[i], owners[keys[i]])];
    }
    forall x
      ensures OwnersIn(logins, x) == Get(owners, x)
    {
      FindKey(logins, keys, owners, x);
    }
  }

  lemma FindKey(logins: seq<SenderLogin>, keys: seq<string>, owners: map<string, seq<string>>, x: string)
    requires |logins| == |keys| && forall k :: k in keys <==> k in owners
    requires Increasing(keys)
    requires forall j :: 0 <= j < |keys| ==> keys[j] in owners && logins[j] == SenderLogin(keys[j], owners[keys[j]])
    ensures OwnersIn(logins, x) == Get(owners, x)
  {
    if x in owners {
      var j :| 0 <= j < |keys| && keys[j] == x;
      FindLogin(logins, j);
    } else {
      forall i | 0 <= i < |logins|
        ensures logins[i].sender != x
      {
        assert keys[i] in keys;
      }
      NoLogin(logins, x);
    }
  }

  ghost predicate Increasing(keys: seq<string>) {
    forall i, j :: 0 <= i < j < |keys| ==> Less(keys[i], keys[j])
  }

  function NameOrder(): (string, string) -> bool {
    (a: string, b: string) => !Less(b, a)
  }

  lemma NameOrderTotal()
    ensures TotalPreorder(NameOrder())
  {
    forall a, b
      ensures NameOrder()(a, b) || NameOrder()(b, a)
    {
      LessTotal(a, b);
      if Less(a, b) && Less(b, a) {
        LessTransitive(a, b, a);
        LessIrreflexive(a);
      }
    }
    forall a, b, c | NameOrder()(a, b) && NameOrder()(b, c)
      ensures NameOrder()(a, c)
    {
      if Less(c, a) {
        LessTotal(b, c);
        if Less(b, c) {
          LessTransitive(b, c, a);
        }
      }
    }
  }

  lemma SortedStrictly(keys: seq<string>)
    requires NoDuplicates(keys)
    ensures Increasing(Sort(keys, NameOrder()))
  {
    var sorted := Sort(keys, NameOrder());
    NameOrderTotal();
    SortSorted(keys, NameOrder());
    assert DistinctBy(keys, (k: string) => k);
    PermutationDistinct(keys, sorted, (k: string) => k);
    forall i, j | 0 <= i < j < |sorted|
      ensures Less(sorted[i], sorted[j])
    {
      assert NameOrder()(sorted[i], sorted[j]);
      LessTotal(sorted[i], sorted[j]);
      var id := (k: string) => k;
      assert id(sorted[i]) != id(sorted[j]);
    }
  }

  lemma {:induction false} FindLogin(logins: seq<SenderLogin>, j: nat)
    requires j < |logins| && forall i :: 0 <= i < j ==> Less(logins[i].sender, logins[j].sender)
    ensures OwnersIn(logins, logins[j].sender) == logins[j].owners
  {
    if j > 0 {
      LessIrreflexive(logins[j].sender);
      assert logins[0].sender != logins[j].sender;
      FindLogin(logins[1..], j - 1);
    }
  }

  lemma {:induction false} NoLogin(logins: seq<SenderLogin>, x: string)
    requires forall i :: 0 <= i < |logins| ==> logins[i].sender != x
    ensures OwnersIn(logins, x) == []
  {
    if logins != [] {
      NoLogin(logins[1..], x);
    }
  }

  lemma Twice<T>(t: seq<T>, i: nat, j: nat)
    requires i < j < |t| && t[i] == t[j]
    ensures multiset(t)[t[i]] >= 2
  {
    assert t == t[..j] + [t[j]] + t[j + 1..];
    assert t[i] in t[..j];
  }

  lemma {:induction false} OnceOnly<T, K>(s: seq<T>, key: T -> K, x: T)
    requires DistinctBy(s, key)
    ensures multiset(s)[x] <= 1
  {
    if s != [] {
      OnceOnly(s[1..], key, x);
      assert s == [s[0]] + s[1..];
      if s[0] == x {
        assert x !in s[1..];
      }
    }
  }

  /** The order of a listing does not matter to distinctness. */
  lemma PermutationDistinct<T, K>(s: seq<T>, t: seq<T>, key: T -> K)
    requires DistinctBy(s, key) && multiset(s) == multiset(t)
    ensures DistinctBy(t, key)
  {
    forall i, j | 0 <= i < j < |t|
      ensures key(t[i]) != key(t[j])
    {
      assert t[i] in multiset(t) && t[j] in multiset(t);
      assert t[i] in s && t[j] in s;
      if t[i] == t[j] {
        Twice(t, i, j);
        OnceOnly(s, key, t[i]);
      }
    }
  }

  // ---- webmail: allowed senders ----

  /** `SELECT source ... WHERE destination = ? AND enabled = 1`. */
  function AliasSources(t: Tables, destination: string): seq<string> {
    SourcesOf(Filter(t.aliases, (a: Alias) => a.enabled && a.destination == Normalize(destination)))
  }

  function SourcesOf(s: seq<Alias>): (r: seq<string>)
    ensures |r| == |s|
    ensures forall i :: 0 <= i < |r| ==> r[i] == s[i].source
  {
    seq(|s|, i requires 0 <= i < |s| => s[i].source)
  }

  method AllowedSenders(t: Tables, m: Mailbox) returns (allowed: set<string>)
    ensures allowed == MaySendAs(t, m)
  {
    allowed := {m.email};
    var sources := AliasSources(t, m.email);
    for i := 0 to |sources|
      invariant allowed == {m.email} + (set k | 0 <= k < i && !("@" <= sources[k]) :: sources[k])
    {
      if !("@" <= sources[i]) {
        allowed := allowed + {sources[i]};
      }
    }
  }

  function MaySendAs(t: Tables, m: Mailbox): set<string> {
    var sources := AliasSources(t, m.email);
    {m.email} + (set k | 0 <= k < |sources| && !("@" <= sources[k]) :: sources[k])
  }

  /** The sender webmail uses for a requested From, unless it refuses. */
  function ResolveFrom(t: Tables, m: Mailbox, requested: string): Option<string> {
    var r := Normalize(requested);
    if r == "" then Some(m.email) else if r in MaySendAs(t, m) then Some(r) else None
  }

  // ---- the two agree ----

  /** A listing of a table: the same rows in some order. */
  ghost predicate Listing<T>(listed: seq<T>, rows: seq<T>) {
    multiset(listed) == multiset(rows)
  }

  lemma ListedRows<T>(listed: seq<T>, rows: seq<T>)
    requires Listing(listed, rows)
    ensures forall r :: r in listed <==> r in rows
  {
    assert forall r :: r in listed <==> r in multiset(listed);
    assert forall r :: r in rows <==> r in multiset(rows);
  }

  /** `x` may be sent by `owner`: it is the owner's address, or an enabled alias to it. */
  ghost predicate Grants(s: seq<Alias>, owner: string, x: string) {
    exists a :: a in s && a.enabled && !a.catchAll && a.source == x && a.destination == owner
  }

  lemma {:induction false} OwnAddressIs(ms: seq<Mailbox>, x: string)
    ensures forall e :: e in OwnAddress(ms, x) <==> e == x && HasMailbox(ms, e)
    decreases |ms|
  {
    if ms != [] {
      OwnAddressIs(ms[..|ms| - 1], x);
      assert ms == ms[..|ms| - 1] + [ms[|ms| - 1]];
    }
  }

  lemma {:induction false} GrantedIs(ms: seq<Mailbox>, s: seq<Alias>, x: string)
    ensures forall e :: e in Granted(ms, s, x) <==> HasMailbox(ms, e) && Grants(s, e, x)
    decreases |s|
  {
    if s != [] {
      GrantedIs(ms, s[..|s| - 1], x);
      assert s == s[..|s| - 1] + [s[|s| - 1]];
    }
  }

  lemma {:induction false} OwnAddressDistinct(ms: seq<Mailbox>, x: string)
    requires DistinctBy(ms, EmailOf())
    ensures NoDuplicates(OwnAddress(ms, x))
    decreases |ms|
  {
    if ms != [] {
      var head, m := ms[..|ms| - 1], ms[|ms| - 1];
      OwnAddressDistinct(head, x);
      OwnAddressIs(head, x);
      forall k | 0 <= k < |head|
        ensures head[k].email != m.email
      {
        assert EmailOf()(ms[k]) != EmailOf()(m);
      }
      assert !HasMailbox(head, m.email);
    }
  }

  lemma {:induction false} GrantedDistinct(ms: seq<Mailbox>, s: seq<Alias>, x: string)
    requires DistinctBy(s, PairOf())
    ensures NoDuplicates(Granted(ms, s, x))
    decreases |s|
  {
    if s != [] {
      var head, a := s[..|s| - 1], s[|s| - 1];
      GrantedDistinct(ms, head, x);
      GrantedIs(ms, head, x);
      forall k | 0 <= k < |head| && head[k].source == a.source
        ensures head[k].destination != a.destination
      {
        assert PairOf()(s[k]) != PairOf()(a);
      }
      assert a.source == x ==> !Grants(head, a.destination, x);
    }
  }

  /** No owner is listed twice for a sender, whatever order the rows came in. */
  lemma OwnersDistinct(t: Tables, ms: seq<Mailbox>, s: seq<Alias>, x: string)
    requires Inv(t) && Listing(ms, t.mailboxes) && Listing(s, t.aliases)
    ensures NoDuplicates(Owners(ms, s, x))
  {
    PermutationDistinct(t.mailboxes, ms, EmailOf());
    PermutationDistinct(t.aliases, s, PairOf());
    OwnAddressDistinct(ms, x);
    GrantedDistinct(ms, s, x);
    OwnAddressIs(ms, x);
    GrantedIs(ms, s, x);
    ListedRows(s, t.aliases);
    forall i, j | 0 <= i < |OwnAddress(ms, x)| && 0 <= j < |Granted(ms, s, x)|
      ensures OwnAddress(ms, x)[i] != Granted(ms, s, x)[j]
    {
      assert OwnAddress(ms, x)[i] in OwnAddress(ms, x) && Granted(ms, s, x)[j] in Granted(ms, s, x);
      var a :| a in s && a.source == x && a.destination == Granted(ms, s, x)[j];
      assert AliasOk(a);
    }
  }

  lemma MaySendIs(t: Tables, m: Mailbox, x: string)
    requires Inv(t) && m in t.mailboxes
    ensures x in MaySendAs(t, m) <==> x == m.email || Grants(t.aliases, m.email, x)
  {
    assert MailboxOk(m);
    NormalizeIsNormal(m.email);
    var p := (a: Alias) => a.enabled && a.destination == Normalize(m.email);
    var rows := Filter(t.aliases, p);
    FilterMembers(t.aliases, p);
    if Grants(t.aliases, m.email, x) {
      var a :| a in t.aliases && a.enabled && !a.catchAll && a.source == x && a.destination == m.email;
      assert a in rows && AliasOk(a);
      var k :| 0 <= k < |rows| && rows[k] == a;
      assert AliasSources(t, m.email)[k] == x;
    }
    if x in MaySendAs(t, m) && x != m.email {
      var sources := AliasSources(t, m.email);
      var k :| 0 <= k < |sources| && !("@" <= sources[k]) && sources[k] == x;
      assert rows[k] in rows && AliasOk(rows[k]);
      assert x[0] == '@' ==> "@" <= x;
    }
  }

  lemma OwnersAre(t: Tables, m: Mailbox, ms: seq<Mailbox>, s: seq<Alias>, x: string)
    requires m in t.mailboxes && m.enabled && Listing(ms, t.mailboxes) && Listing(s, t.aliases)
    ensures m.email in Owners(ms, s, x) <==> x == m.email || Grants(t.aliases, m.email, x)
  {
    ListedRows(ms, t.mailboxes);
    ListedRows(s, t.aliases);
    OwnAddressIs(ms, x);
    GrantedIs(ms, s, x);
    assert HasMailbox(ms, m.email);
  }

  /** In every database the operations can reach, an enabled mailbox can get webmail to send
      as `x` exactly when Postfix lists it among the owners of `x`, and no owner is listed twice. */
  lemma AuthorizersAgree(ops: seq<Op>, t: Tables, m: Mailbox, ms: seq<Mailbox>, s: seq<Alias>, x: string)
    requires t == Run(EMPTY, ops) && m in t.mailboxes && m.enabled
    requires Listing(ms, t.mailboxes) && Listing(s, t.aliases)
    ensures (exists requested :: ResolveFrom(t, m, requested) == Some(x)) <==> m.email in Owners(ms, s, x)
    ensures NoDuplicates(Owners(ms, s, x))
  {
    RunKeepsInv(EMPTY, ops);
    OwnersDistinct(t, ms, s, x);
    MaySendIs(t, m, x);
    OwnersAre(t, m, ms, s, x);
    assert MailboxOk(m);
    if x in MaySendAs(t, m) {
      SenderNormal(t, m, x);
      NormalizeIsNormal(x);
      assert ResolveFrom(t, m, x) == Some(x);
    }
  }

  lemma SenderNormal(t: Tables, m: Mailbox, x: string)
    requires Inv(t) && m in t.mailboxes && x in MaySendAs(t, m)
    ensures Normal(x) && x != ""
  {
    MaySendIs(t, m, x);
    assert MailboxOk(m);
    if x != m.email {
      var a :| a in t.aliases && a.source == x;
      assert AliasOk(a);
    }
  }

  // ---- what the operations do to senders and owners ----

  /** The row would grant `x` to `owner` if it were enabled. */
  predicate Offers(a: Alias, owner: string, x: string) {
    !a.catchAll && a.source == x && a.destination == owner
  }

  /** Switching leaves everything but the flag of the one row. */
  lemma AliasSwitched(s: seq<Alias>, id: int, on: bool, i: nat)
    requires i < |s|
    ensures var r := AliasesEnabled(s, id, on);
            && |r| == |s| && r[i].(enabled := s[i].enabled) == s[i]
            && (r[i].enabled <==> if s[i].id == id then on else s[i].enabled)
  {
  }

  /** An alias switched off is one deleted; switched on, it grants what it says. */
  lemma SwitchedGrants(s: seq<Alias>, id: int, on: bool, owner: string, x: string)
    ensures Grants(AliasesEnabled(s, id, on), owner, x) <==>
            || Grants(Filter(s, (a: Alias) => a.id != id), owner, x)
            || (on && exists a :: a in s && a.id == id && Offers(a, owner, x))
  {
    var switched, others := AliasesEnabled(s, id, on), Filter(s, (a: Alias) => a.id != id);
    FilterMembers(s, (a: Alias) => a.id != id);
    if Grants(switched, owner, x) {
      var a :| a in switched && a.enabled && !a.catchAll && a.source == x && a.destination == owner;
      var i :| 0 <= i < |switched| && switched[i] == a;
      AliasSwitched(s, id, on, i);
      assert if s[i].id == id then on && Offers(s[i], owner, x) else s[i] in others;
    }
    if Grants(others, owner, x) {
      var a :| a in others && a.enabled && !a.catchAll && a.source == x && a.destination == owner;
      var i :| 0 <= i < |s| && s[i] == a;
      AliasSwitched(s, id, on, i);
      assert switched[i] in switched;
    }
    if on && exists a :: a in s && a.id == id && Offers(a, owner, x) {
      var a :| a in s && a.id == id && Offers(a, owner, x);
      var i :| 0 <= i < |s| && s[i] == a;
      AliasSwitched(s, id, on, i);
      assert switched[i] in switched;
    }
  }

  lemma MailboxSwitched(ms: seq<Mailbox>, id: int, on: bool, i: nat)
    requires i < |ms|
    ensures var r := MailboxesEnabled(ms, id, on);
            && |r| == |ms| && r[i].(enabled := ms[i].enabled) == ms[i]
            && (r[i].enabled <==> if ms[i].id == id then on else ms[i].enabled)
  {
  }

  /** A mailbox switched off is one deleted; switched on, it owns its address. */
  lemma SwitchedOwns(ms: seq<Mailbox>, id: int, on: bool, email: string)
    ensures HasMailbox(MailboxesEnabled(ms, id, on), email) <==>
            || HasMailbox(Filter(ms, (m: Mailbox) => m.id != id), email)
            || (on && exists m :: m in ms && m.id == id && m.email == email)
  {
    var switched, others := MailboxesEnabled(ms, id, on), Filter(ms, (m: Mailbox) => m.id != id);
    FilterMembers(ms, (m: Mailbox) => m.id != id);
    if HasMailbox(switched, email) {
      var m :| m in switched && m.enabled && m.email == email;
      var i :| 0 <= i < |switched| && switched[i] == m;
      MailboxSwitched(ms, id, on, i);
      assert if ms[i].id == id then on && ms[i] in ms else ms[i] in others;
    }
    if HasMailbox(others, email) {
      var m :| m in others && m.enabled && m.email == email;
      var i :| 0 <= i < |ms| && ms[i] == m;
      MailboxSwitched(ms, id, on, i);
      assert switched[i] in switched;
    }
    if on && exists m :: m in ms && m.id == id && m.email == email {
      var m :| m in ms && m.id == id && m.email == email;
      var i :| 0 <= i < |ms| && ms[i] == m;
      MailboxSwitched(ms, id, on, i);
      assert switched[i] in switched;
    }
  }

  /** A new mailbox is accepted exactly under a valid local part and a free address of a domain there
      is; it owns that address at once, and nobody else gains or loses one. */
  lemma MailboxCreated(t: Tables, domainId: int, localPart: string, email: string)
    requires Inv(t)
    ensures var t' := Apply(t, CreateMailbox(domainId, localPart));
            var made := domainId in t.domains && email == Normalize(localPart) + "@" + t.domains[domainId];
            && (t' != t ==> domainId in t.domains && ValidLocalPart(Normalize(localPart)))
            && (made && ValidLocalPart(Normalize(localPart)) ==> (t' == t <==> exists m :: m in t.mailboxes && m.email == email))
            && (HasMailbox(t'.mailboxes, email) <==> HasMailbox(t.mailboxes, email) || (t' != t && made))
            && t'.aliases == t.aliases && t'.domains == t.domains
  {
  }

  lemma AddressCut(local: string, domain: string)
    requires '@' !in local
    ensures var s := local + "@" + domain;
            IndexOf(s, '@') == |local| < |s| && s[..|local|] == local && s[|local| + 1..] == domain
  {
    IndexOfAppend(local, '@', domain);
    assert local + ['@'] + domain == local + "@" + domain;
  }

  lemma LocalCut(local: string)
    requires '@' !in local
    ensures IndexOf(local, '@') == |local| && local[..|local|] == local
  {
  }

  /** The text before the first `@`, which is all of it or followed by the domain. */
  lemma CutAddress(s: string, domain: string)
    requires var i := IndexOf(s, '@'); i < |s| ==> s[i + 1..] == domain
    ensures var local := s[..IndexOf(s, '@')]; '@' !in local && (s == local || s == local + "@" + domain)
  {
    var i := IndexOf(s, '@');
    if i < |s| {
      assert s == s[..i] + [s[i]] + s[i + 1..];
    }
  }

  /** `s` is a valid local part or its address, and `x` the address. */
  predicate Spells(local: string, s: string, x: string, domain: string) {
    '@' !in local && ValidLocalPart(local) && x == local + "@" + domain && (s == local || s == x)
  }

  /** A local part, or an address of the domain, becomes that address, in any case and with outer
      blanks; nothing else is accepted, and a catch-all always is. */
  lemma AliasSourceExactly(domain: string, source: string, x: string)
    ensures AliasSource(domain, source, true) == Some("@" + domain)
    ensures AliasSource(domain, source, false) == Some(x) <==>
            exists local :: Spells(local, Normalize(source), x, domain)
  {
    var s := Normalize(source);
    if AliasSource(domain, source, false) == Some(x) {
      CutAddress(s, domain);
      assert Spells(s[..IndexOf(s, '@')], s, x, domain);
    }
    if exists local :: Spells(local, s, x, domain) {
      var local :| Spells(local, s, x, domain);
      LocalCut(local);
      AddressCut(local, domain);
    }
  }

  /** A new alias is enabled, and grants exactly its own source to its own destination. */
  lemma AliasCreated(t: Tables, domainId: int, source: string, destination: string, catchAll: bool, validEmail: bool, owner: string, x: string)
    ensures var t' := Apply(t, CreateAlias(domainId, source, destination, catchAll, validEmail));
            && (t' != t <==>
                  && domainId in t.domains && validEmail
                  && AliasSource(t.domains[domainId], source, catchAll).Some?
                  && AliasSource(t.domains[domainId], source, catchAll).value != Normalize(destination)
                  && !AliasTaken(t, AliasSource(t.domains[domainId], source, catchAll).value, Normalize(destination)))
            && (Grants(t'.aliases, owner, x) <==>
                  || Grants(t.aliases, owner, x)
                  || (t' != t && !catchAll && owner == Normalize(destination)
                      && AliasSource(t.domains[domainId], source, false) == Some(x)))
            && t'.mailboxes == t.mailboxes && t'.domains == t.domains
  {
    var t' := Apply(t, CreateAlias(domainId, source, destination, catchAll, validEmail));
    if t' != t {
      var a := t'.aliases[|t.aliases|];
      assert t'.aliases == t.aliases + [a];
      assert Grants(t'.aliases, owner, x) ==> Grants(t.aliases, owner, x) || Offers(a, owner, x);
      assert Grants(t.aliases, owner, x) ==> Grants(t'.aliases, owner, x);
      assert Offers(a, owner, x) ==> a in t'.aliases;
    }
  }

  /** A domain goes with its mailboxes and aliases and with no others. */
  lemma DomainDeleted(t: Tables, id: int)
    ensures var t' := Apply(t, DeleteDomain(id));
            && t'.domains == t.domains - {id}
            && (forall m :: m in t'.mailboxes <==> m in t.mailboxes && m.domainId != id)
            && (forall a :: a in t'.aliases <==> a in t.aliases && a.domainId != id)
  {
    FilterMembers(t.mailboxes, (m: Mailbox) => m.domainId != id);
    FilterMembers(t.aliases, (a: Alias) => a.domainId != id);
  }

  /** Deleting a mailbox or an alias removes the rows with that id. */
  lemma RowDeleted(t: Tables, id: int)
    ensures forall m :: m in Apply(t, DeleteMailbox(id)).mailboxes <==> m in t.mailboxes && m.id != id
    ensures forall a :: a in Apply(t, DeleteAlias(id)).aliases <==> a in t.aliases && a.id != id
    ensures Apply(t, DeleteMailbox(id)).aliases == t.aliases && Apply(t, DeleteAlias(id)).mailboxes == t.mailboxes
  {
    FilterMembers(t.mailboxes, (m: Mailbox) => m.id != id);
    FilterMembers(t.aliases, (a: Alias) => a.id != id);
  }

  /** A new domain is one valid name more, trimmed and in lower case, that was not there. */
  lemma DomainCreated(t: Tables, name: string)
    requires t.nextDomain !in t.domains
    ensures var t' := Apply(t, CreateDomain(name));
            && (t' != t <==> ValidDomainName(Normalize(name)) && Normalize(name) !in t.domains.Values)
            && (t' != t ==> t'.domains == t.domains[t.nextDomain := Normalize(name)])
            && t'.mailboxes == t.mailboxes && t'.aliases == t.aliases
  {
  }

  /** The sender asked for is used if it is allowed, whatever its case and outer blanks; the mailbox's
      own if none is asked for; no other ever. */
  lemma ResolveFromExactly(t: Tables, m: Mailbox, requested: string, x: string)
    requires Inv(t) && m in t.mailboxes
    ensures ResolveFrom(t, m, requested) == Some(x) <==>
            if Normalize(requested) == "" then x == m.email
            else x == Normalize(requested) && (x == m.email || Grants(t.aliases, m.email, x))
  {
    MaySendIs(t, m, x);
  }

  // ---- the store, updated in place ----

  class Store {
    var domains: map<int, string>
    var mailboxes: seq<Mailbox>
    var aliases: seq<Alias>
    var nextDomain: int
    var nextMailbox: int
    var nextAlias: int

    function Contents(): Tables
      reads this
    {
      Tables(domains, mailboxes, aliases, nextDomain, nextMailbox, nextAlias)
    }

    constructor ()
      ensures Contents() == EMPTY
    {
      domains, mailboxes, aliases := map[], [], [];
      nextDomain, nextMailbox, nextAlias := 1, 1, 1;
    }

    method CreateMailbox(domainId: int, localPart: string) returns (ok: bool)
      modifies this`mailboxes, this`nextMailbox
      ensures Contents() == Apply(old(Contents()), Op.CreateMailbox(domainId, localPart))
      ensures ok <==> Contents() != old(Contents())
    {
      var lp := Normalize(localPart);
      if !ValidLocalPart(lp) {
        return false;
      }
      if domainId !in domains {
        return false;
      }
      var email := lp + "@" + domains[domainId];
      if EmailTaken(Contents(), email) {
        return false;
      }
      mailboxes := mailboxes + [Mailbox(nextMailbox, domainId, email, true)];
      nextMailbox := nextMailbox + 1;
      return true;
    }

    method CreateAlias(domainId: int, source: string, destination: string, catchAll: bool, validEmail: bool)
      returns (ok: bool)
      modifies this`aliases, this`nextAlias
      ensures Contents() == Apply(old(Contents()), Op.CreateAlias(domainId, source, destination, catchAll, validEmail))
      ensures ok <==> Contents() != old(Contents())
    {
      if domainId !in domains {
        return false;
      }
      var domain := domains[domainId];
      var dst := Normalize(destination);
      if !validEmail {
        return false;
      }
      var src := source;
      if catchAll {
        src := "@" + domain;
      } else {
        src := Normalize(src);
        var at := IndexOf(src, '@');
        var lp, sdom := src[..at], domain;
        if at < |src| {
          sdom := src[at + 1..];
        }
        if sdom != domain {
          return false;
        }
        if !ValidLocalPart(lp) {
          return false;
        }
        src := lp + "@" + domain;
      }
      if src == dst || AliasTaken(Contents(), src, dst) {
        return false;
      }
      aliases := aliases + [Alias(nextAlias, domainId, src, dst, catchAll, true)];
      nextAlias := nextAlias + 1;
      return true;
    }

    /** For senders, an alias switched off is an alias deleted; switched on, it grants what it says. */
    method UpdateAliasEnabled(id: int, on: bool)
      modifies this`aliases
      ensures Contents() == Apply(old(Contents()), EnableAlias(id, on))
      ensures forall owner, x ::
        Grants(aliases, owner, x) <==>
        || Grants(Apply(old(Contents()), Op.DeleteAlias(id)).aliases, owner, x)
        || (on && exists a :: a in old(aliases) && a.id == id && Offers(a, owner, x))
    {
      ghost var was := aliases;
      aliases := AliasesEnabled(aliases, id, on);
      forall owner, x
        ensures Grants(aliases, owner, x) <==>
          || Grants(Filter(was, (a: Alias) => a.id != id), owner, x)
          || (on && exists a :: a in was && a.id == id && Offers(a, owner, x))
      {
        SwitchedGrants(was, id, on, owner, x);
      }
    }

    /** For owners, a mailbox switched off is a mailbox deleted; switched on, it owns its address. */
    method UpdateMailbox(id: int, on: bool)
      modifies this`mailboxes
      ensures Contents() == Apply(old(Contents()), EnableMailbox(id, on))
      ensures forall email ::
        HasMailbox(mailboxes, email) <==>
        || HasMailbox(Apply(old(Contents()), Op.DeleteMailbox(id)).mailboxes, email)
        || (on && exists m :: m in old(mailboxes) && m.id == id && m.email == email)
    {
      ghost var was := mailboxes;
      mailboxes := MailboxesEnabled(mailboxes, id, on);
      forall email
        ensures HasMailbox(mailboxes, email) <==>
          || HasMailbox(Filter(was, (m: Mailbox) => m.id != id), email)
          || (on && exists m :: m in was && m.id == id && m.email == email)
      {
        SwitchedOwns(was, id, on, email);
      }
    }
  }
}
