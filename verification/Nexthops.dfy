/** The loop that emits login and TLS tables keyed by nexthop. Postfix cannot tell two
    relays on one nexthop apart, so the loop emits each nexthop once. */
module Nexthops {
  import opened Text
  import opened PostfixMaps

  /** A relay as the tables see it, its login one text. */
  datatype Use = Use(nexthop: string, creds: Option<string>, startTls: bool)

  /** What the tables hold so far, and the login already emitted for each nexthop. */
  datatype Emitted = Emitted(seen: map<string, string>, sasl: seq<Entry>, tls: seq<Entry>)

  /** One relay goes into the tables, unless its nexthop carries another login. */
  function Emit(e: Emitted, u: Use): Option<Emitted> {
    if u.creds.None? then None
    else if u.nexthop in e.seen then (if e.seen[u.nexthop] == u.creds.value then Some(e) else None)
    else Some(Emitted(
      e.seen[u.nexthop := u.creds.value],
      e.sasl + (if u.creds.value == "" then [] else [(u.nexthop, u.creds.value)]),
      e.tls + (if u.startTls then [(u.nexthop, "encrypt")] else [])))
  }

  function EmitAll(used: seq<Use>): Option<Emitted> {
    if used == [] then Some(Emitted(map[], [], []))
    else match EmitAll(used[..|used| - 1])
      case None => None
      case Some(e) => Emit(e, used[|used| - 1])
  }

  // ---- the dedup loop, characterized ----

  predicate AllOpen(used: seq<Use>) {
    forall i :: 0 <= i < |used| ==> used[i].creds.Some?
  }

  /** Relays on one nexthop have one login. */
  ghost predicate NoClash(used: seq<Use>) {
    forall i, j :: 0 <= i < j < |used| && used[i].nexthop == used[j].nexthop ==>
      used[i].creds == used[j].creds
  }

  /** The first relay on a nexthop: the one whose TLS mode decides the policy entry. */
  function FirstOn(used: seq<Use>, nexthop: string): (i: nat)
    ensures i <= |used|
  {
    if used == [] || used[0].nexthop == nexthop then 0 else 1 + FirstOn(used[1..], nexthop)
  }

  lemma {:induction false} FirstOnIsFirst(used: seq<Use>, nexthop: string)
    ensures var i := FirstOn(used, nexthop);
            && (i < |used| ==> used[i].nexthop == nexthop)
            && (forall j :: 0 <= j < i ==> used[j].nexthop != nexthop)
  {
    if used != [] && used[0].nexthop != nexthop {
      FirstOnIsFirst(used[1..], nexthop);
      var k := FirstOn(used[1..], nexthop);
      forall j | 0 <= j < 1 + k
        ensures used[j].nexthop != nexthop
      {
        if j > 0 {
          assert used[j] == used[1..][j - 1];
        }
      }
    }
  }

  lemma FirstOnPrefix(used: seq<Use>, nexthop: string)
    requires used != []
    ensures var head := used[..|used| - 1];
            FirstOn(used, nexthop) ==
            if FirstOn(head, nexthop) < |head| || used[|used| - 1].nexthop == nexthop
            then FirstOn(head, nexthop) else |used|
  {
    var head := used[..|used| - 1];
    var i, k := FirstOn(used, nexthop), FirstOn(head, nexthop);
    FirstOnIsFirst(used, nexthop);
    FirstOnIsFirst(head, nexthop);
    assert forall j :: 0 <= j < |head| ==> head[j] == used[j];
    assert k < |head| ==> used[k].nexthop == nexthop;
    assert i < |head| ==> head[i].nexthop == nexthop;
  }

  lemma {:induction false} LookupAppend(a: seq<Entry>, b: seq<Entry>, key: string)
    ensures Lookup(a + b, key) == if Lookup(a, key).Some? then Lookup(a, key) else Lookup(b, key)
  {
    if a == [] {
      assert a + b == b;
    } else {
      assert (a + b)[0] == a[0] && (a + b)[1..] == a[1..] + b;
      LookupAppend(a[1..], b, key);
    }
  }

  /** The tables agree with the relays used, nexthop by nexthop. */
  ghost predicate Faithful(e: Emitted, used: seq<Use>, nexthop: string) {
    var i := FirstOn(used, nexthop);
    if i == |used| then
      nexthop !in e.seen && Lookup(e.sasl, nexthop).None? && Lookup(e.tls, nexthop).None?
    else
      var creds := used[i].creds;
      && creds.Some?
      && nexthop in e.seen && e.seen[nexthop] == creds.value
      && Lookup(e.sasl, nexthop) == (if creds.value == "" then None else creds)
      && Lookup(e.tls, nexthop) == (if used[i].startTls then Some("encrypt") else None)
  }

  lemma EmitFaithful(e: Emitted, used: seq<Use>, nexthop: string)
    requires used != [] && EmitAll(used[..|used| - 1]) == Some(e)
    requires Faithful(e, used[..|used| - 1], nexthop)
    requires Faithful(e, used[..|used| - 1], used[|used| - 1].nexthop)
    requires Emit(e, used[|used| - 1]).Some?
    ensures Faithful(Emit(e, used[|used| - 1]).value, used, nexthop)
  {
    var u := used[|used| - 1];
    var e' := Emit(e, u).value;
    FirstOnPrefix(used, nexthop);
    if u.nexthop !in e.seen {
      var creds := u.creds.value;
      LookupAppend(e.sasl, if creds == "" then [] else [(u.nexthop, creds)], nexthop);
      LookupAppend(e.tls, if u.startTls then [(u.nexthop, "encrypt")] else [], nexthop);
    }
  }

  lemma {:induction false} EmitAllFaithful(used: seq<Use>, nexthop: string)
    requires EmitAll(used).Some?
    ensures Faithful(EmitAll(used).value, used, nexthop)
    decreases |used|
  {
    if used != [] {
      var head := used[..|used| - 1];
      EmitAllFaithful(head, nexthop);
      EmitAllFaithful(head, used[|used| - 1].nexthop);
      EmitFaithful(EmitAll(head).value, used, nexthop);
    }
  }

  /** `u` may join relays already emitted: it decrypts and shares its login with those on its nexthop. */
  ghost predicate Joins(head: seq<Use>, u: Use) {
    && u.creds.Some?
    && forall j :: 0 <= j < |head| && head[j].nexthop == u.nexthop ==> head[j].creds == u.creds
  }

  lemma EmitSucceeds(e: Emitted, head: seq<Use>, u: Use)
    requires EmitAll(head) == Some(e) && NoClash(head)
    ensures Emit(e, u).Some? <==> Joins(head, u)
  {
    EmitAllFaithful(head, u.nexthop);
    FirstOnIsFirst(head, u.nexthop);
    var i := FirstOn(head, u.nexthop);
    forall j | 0 <= j < |head| && head[j].nexthop == u.nexthop
      ensures i <= j && head[j].creds == head[i].creds
    {
      assert i <= j;
    }
  }

  lemma JoinsIsNoClash(head: seq<Use>, u: Use)
    ensures AllOpen(head + [u]) && NoClash(head + [u]) <==>
            AllOpen(head) && NoClash(head) && Joins(head, u)
  {
    var used := head + [u];
    assert used[|head|] == u;
    assert forall j :: 0 <= j < |head| ==> head[j] == used[j];
    if AllOpen(used) && NoClash(used) {
      forall i | 0 <= i < |head|
        ensures head[i].creds.Some?
      {
        assert used[i].creds.Some?;
      }
      forall j | 0 <= j < |head| && head[j].nexthop == u.nexthop
        ensures head[j].creds == u.creds
      {
        assert used[j].nexthop == used[|head|].nexthop;
      }
    }
  }

  /** The loop succeeds exactly when every login decrypts and no two relays on one
      nexthop have different login texts. */
  lemma {:induction false} EmitAllSucceeds(used: seq<Use>)
    ensures EmitAll(used).Some? <==> AllOpen(used) && NoClash(used)
    decreases |used|
  {
    if used != [] {
      var head, u := used[..|used| - 1], used[|used| - 1];
      assert used == head + [u];
      EmitAllSucceeds(head);
      JoinsIsNoClash(head, u);
      if EmitAll(head).Some? {
        EmitSucceeds(EmitAll(head).value, head, u);
      }
    }
  }

  /** On success every relay in use looks up its own login text and no other, and has an
      `encrypt` policy exactly when the first relay on its nexthop uses STARTTLS. */
  lemma DedupSound(used: seq<Use>, k: nat)
    requires EmitAll(used).Some? && k < |used|
    ensures var e := EmitAll(used).value;
            var nexthop := used[k].nexthop;
            var creds := used[k].creds;
            && creds.Some?
            && Lookup(e.sasl, nexthop) == (if creds.value == "" then None else creds)
            && FirstOn(used, nexthop) <= k
            && (Lookup(e.tls, nexthop) == Some("encrypt") <==> used[FirstOn(used, nexthop)].startTls)
  {
    var nexthop := used[k].nexthop;
    EmitAllSucceeds(used);
    EmitAllFaithful(used, nexthop);
    FirstOnIsFirst(used, nexthop);
    var i := FirstOn(used, nexthop);
    assert i <= k;
    if i < k {
      assert used[i].creds == used[k].creds;
    }
  }

  ghost predicate UniqueKeys(entries: seq<Entry>) {
    forall i, j :: 0 <= i < j < |entries| ==> entries[i].0 != entries[j].0
  }

  lemma {:induction false} NotFoundIsAbsent(entries: seq<Entry>, key: string)
    requires Lookup(entries, key).None?
    ensures forall i :: 0 <= i < |entries| ==> entries[i].0 != key
  {
    if entries != [] {
      NotFoundIsAbsent(entries[1..], key);
      assert forall i :: 1 <= i < |entries| ==> entries[i] == entries[1..][i - 1];
    }
  }

  /** No nexthop has two entries. */
  lemma {:induction false} DedupUnique(used: seq<Use>)
    requires EmitAll(used).Some?
    ensures UniqueKeys(EmitAll(used).value.sasl) && UniqueKeys(EmitAll(used).value.tls)
    decreases |used|
  {
    if used != [] {
      var head, u := used[..|used| - 1], used[|used| - 1];
      var e := EmitAll(head).value;
      DedupUnique(head);
      EmitAllFaithful(head, u.nexthop);
      if u.nexthop !in e.seen {
        assert FirstOn(head, u.nexthop) == |head|;
        NotFoundIsAbsent(e.sasl, u.nexthop);
        NotFoundIsAbsent(e.tls, u.nexthop);
      }
    }
  }

  /** Every login entry is that of a relay in use, and not empty. */
  lemma {:induction false} SaslFromUses(used: seq<Use>)
    requires EmitAll(used).Some?
    ensures forall e :: e in EmitAll(used).value.sasl ==>
              exists u :: u in used && u.creds.Some? && u.creds.value != "" && e == (u.nexthop, u.creds.value)
    decreases |used|
  {
    if used != [] {
      var head, u := used[..|used| - 1], used[|used| - 1];
      SaslFromUses(head);
      assert used == head + [u];
      assert u in used;
    }
  }

  lemma {:induction false} TlsFromUses(used: seq<Use>)
    requires EmitAll(used).Some?
    ensures forall e :: e in EmitAll(used).value.tls ==>
              e.1 == "encrypt" && exists u :: u in used && e.0 == u.nexthop
    decreases |used|
  {
    if used != [] {
      var head, u := used[..|used| - 1], used[|used| - 1];
      TlsFromUses(head);
      assert used == head + [u];
      assert u in used;
    }
  }
}
