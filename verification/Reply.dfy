/** Who a reply goes to: computed by the server when a client leaves the fields out, and by the
    web client when it fills them in. */
module Reply {
  import opened Text

  datatype Address = Address(name: string, email: string)

  datatype Original = Original(replyTo: seq<Address>, from: seq<Address>, to: seq<Address>, cc: seq<Address>)

  function Key(a: Address): string {
    ToLower(a.email)
  }

  function Emails(list: seq<Address>): (r: seq<string>)
    ensures |r| == |list| && forall i :: 0 <= i < |list| ==> r[i] == list[i].email
  {
    seq(|list|, i requires 0 <= i < |list| => list[i].email)
  }

  function Direct(o: Original): seq<Address> {
    if o.replyTo == [] then o.from else o.replyTo
  }

  function Candidates(o: Original): seq<Address> {
    o.to + o.cc
  }

  /** Not to be copied: the user, and who the reply goes to anyway. */
  predicate Excluded(key: string, me: string, direct: seq<Address>) {
    key == "" || key == ToLower(me) || exists d :: d in direct && Key(d) == key
  }

  /** The first candidate with its address, and not excluded. */
  predicate Wanted(list: seq<Address>, i: nat, me: string, direct: seq<Address>)
    requires i < |list|
  {
    !Excluded(Key(list[i]), me, direct) && forall j :: 0 <= j < i ==> Key(list[j]) != Key(list[i])
  }

  /** The wanted among the first `n` candidates, in order. */
  function Firsts(list: seq<Address>, n: nat, me: string, direct: seq<Address>): (r: seq<Address>)
    requires n <= |list|
    decreases n
  {
    if n == 0 then []
    else Firsts(list, n - 1, me, direct) + if Wanted(list, n - 1, me, direct) then [list[n - 1]] else []
  }

  function Copied(o: Original, me: string): seq<Address> {
    Firsts(Candidates(o), |Candidates(o)|, me, Direct(o))
  }

  // ---- the two implementations ----

  /** What has been seen after the direct recipients and some candidates. */
  ghost predicate SeenIs(seen: set<string>, list: seq<Address>, n: nat, me: string, direct: seq<Address>)
    requires n <= |list|
  {
    && (forall k :: k != "" ==> (k in seen <==> Excluded(k, me, direct) || exists j :: 0 <= j < n && Key(list[j]) == k))
  }

  method SeenAtFirst(me: string, direct: seq<Address>) returns (seen: set<string>)
    ensures SeenIs(seen, [], 0, me, direct)
  {
    seen := {ToLower(me)};
    for i := 0 to |direct|
      invariant forall k :: k != "" ==> (k in seen <==> k == ToLower(me) || exists d :: d in direct[..i] && Key(d) == k)
    {
      ghost var before := seen;
      if direct[i].email != "" {
        seen := seen + {Key(direct[i])};
      }
      assert direct[..i + 1] == direct[..i] + [direct[i]];
      assert forall k :: k != "" ==> (k in seen <==> k in before || k == Key(direct[i]));
      assert forall d :: d in direct[..i + 1] <==> d in direct[..i] || d == direct[i];
    }
    assert direct[..|direct|] == direct;
  }

  /** The server's `reply`. */
  method ServerRecipients(o: Original, me: string, replyAll: bool) returns (to: seq<string>, cc: seq<string>)
    ensures to == Emails(if o.replyTo == [] then o.from else o.replyTo)
    ensures cc == if replyAll then Emails(Copied(o, me)) else []
  {
    var replyTo := o.replyTo;
    if |replyTo| == 0 {
      replyTo := o.from;
    }
    to := [];
    for i := 0 to |replyTo|
      invariant to == Emails(replyTo[..i])
    {
      to := to + [replyTo[i].email];
    }
    assert replyTo[..|replyTo|] == replyTo;
    cc := [];
    var seen := SeenAtFirst(me, replyTo);
    if replyAll {
      var list := o.to + o.cc;
      for i := 0 to |list|
        invariant SeenIs(seen, list, i, me, replyTo)
        invariant cc == Emails(Firsts(list, i, me, replyTo))
      {
        var key := Key(list[i]);
        if key != "" && key !in seen {
          cc := cc + [list[i].email];
          seen := seen + {key};
        }
      }
    }
  }

  /** The web client's `replyRecipients`. */
  method ClientRecipients(o: Original, me: string, replyAll: bool) returns (to: seq<Address>, cc: seq<Address>)
    ensures to == if o.replyTo == [] then o.from else o.replyTo
    ensures cc == if replyAll then Copied(o, me) else []
  {
    var direct := if |o.replyTo| != 0 then o.replyTo else o.from;
    if !replyAll {
      return direct, [];
    }
    var seen := SeenAtFirst(me, direct);
    cc := [];
    var list := o.to + o.cc;
    var i := 0;
    while i < |list|
      invariant 0 <= i <= |list|
      invariant SeenIs(seen, list, i, me, direct)
      invariant cc == Firsts(list, i, me, direct)
    {
      var addr := list[i];
      var key := Key(addr);
      i := i + 1;
      if key == "" || key in seen {
        continue;
      }
      seen := seen + {key};
      cc := cc + [addr];
    }
    return direct, cc;
  }

  // ---- what they compute ----

  /** Where a copied address comes from. */
  lemma {:induction false} SourceOf(list: seq<Address>, n: nat, me: string, direct: seq<Address>, p: nat) returns (i: nat)
    requires n <= |list| && p < |Firsts(list, n, me, direct)|
    ensures i < n && list[i] == Firsts(list, n, me, direct)[p] && Wanted(list, i, me, direct)
    decreases n
  {
    if p < |Firsts(list, n - 1, me, direct)| {
      i := SourceOf(list, n - 1, me, direct, p);
    } else {
      i := n - 1;
    }
  }

  lemma {:induction false} FirstsDistinct(list: seq<Address>, n: nat, me: string, direct: seq<Address>, p: nat, q: nat)
    requires n <= |list| && p < q < |Firsts(list, n, me, direct)|
    ensures Key(Firsts(list, n, me, direct)[p]) != Key(Firsts(list, n, me, direct)[q])
    decreases n
  {
    if q < |Firsts(list, n - 1, me, direct)| {
      FirstsDistinct(list, n - 1, me, direct, p, q);
    } else {
      var i := SourceOf(list, n - 1, me, direct, p);
    }
  }

  /** The first candidate with an address that is not excluded is copied. */
  lemma {:induction false} FirstWith(list: seq<Address>, me: string, direct: seq<Address>, k: nat) returns (i: nat)
    requires k < |list| && !Excluded(Key(list[k]), me, direct)
    ensures i <= k && Key(list[i]) == Key(list[k]) && Wanted(list, i, me, direct)
    decreases k
  {
    if Wanted(list, k, me, direct) {
      i := k;
    } else {
      var j :| 0 <= j < k && Key(list[j]) == Key(list[k]);
      i := FirstWith(list, me, direct, j);
    }
  }

  lemma CopiedMembers(o: Original, me: string, key: string)
    ensures (exists a :: a in Copied(o, me) && Key(a) == key) <==>
            (exists a :: a in Candidates(o) && Key(a) == key) && !Excluded(key, me, Direct(o))
  {
    var list, copied := Candidates(o), Copied(o, me);
    if exists a :: a in copied && Key(a) == key {
      var a :| a in copied && Key(a) == key;
      var p :| 0 <= p < |copied| && copied[p] == a;
      var i := SourceOf(list, |list|, me, Direct(o), p);
    }
    if (exists a :: a in list && Key(a) == key) && !Excluded(key, me, Direct(o)) {
      var a :| a in list && Key(a) == key;
      var k :| 0 <= k < |list| && list[k] == a;
      var i := FirstWith(list, me, Direct(o), k);
      var p := PlaceOf(list, |list|, me, Direct(o), i);
      assert copied[p] in copied && Key(copied[p]) == key;
    }
  }

  /** Reply-all copies every recipient of the original once, by address regardless of case, but
      never the user or someone the reply goes to anyway. */
  lemma CopiedExactly(o: Original, me: string, key: string)
    ensures (exists a :: a in Copied(o, me) && ToLower(a.email) == key) <==>
            && (exists a :: (a in o.to || a in o.cc) && ToLower(a.email) == key)
            && key != "" && key != ToLower(me)
            && (forall d :: d in (if o.replyTo == [] then o.from else o.replyTo) ==> ToLower(d.email) != key)
    ensures forall p, q :: 0 <= p < q < |Copied(o, me)| ==> ToLower(Copied(o, me)[p].email) != ToLower(Copied(o, me)[q].email)
  {
    var list, copied := Candidates(o), Copied(o, me);
    CopiedMembers(o, me, key);
    assert forall a :: a in list <==> a in o.to || a in o.cc;
    assert forall a: Address :: Key(a) == ToLower(a.email);
    forall p, q | 0 <= p < q < |copied|
      ensures ToLower(copied[p].email) != ToLower(copied[q].email)
    {
      FirstsDistinct(list, |list|, me, Direct(o), p, q);
    }
  }

  lemma {:induction false} FirstsInOrder(list: seq<Address>, n: nat, me: string, direct: seq<Address>, i: nat, j: nat)
    requires i < j < n <= |list| && Wanted(list, i, me, direct) && Wanted(list, j, me, direct)
    ensures exists p, q :: 0 <= p < q < |Firsts(list, n, me, direct)|
              && Firsts(list, n, me, direct)[p] == list[i] && Firsts(list, n, me, direct)[q] == list[j]
    decreases n
  {
    var shorter, r := Firsts(list, n - 1, me, direct), Firsts(list, n, me, direct);
    if j < n - 1 {
      FirstsInOrder(list, n - 1, me, direct, i, j);
      var p, q :| 0 <= p < q < |shorter| && shorter[p] == list[i] && shorter[q] == list[j];
      assert r[p] == list[i] && r[q] == list[j];
    } else {
      var p := PlaceOf(list, n - 1, me, direct, i);
      assert r[p] == list[i] && r[|r| - 1] == list[j];
    }
  }

  lemma {:induction false} PlaceOf(list: seq<Address>, n: nat, me: string, direct: seq<Address>, i: nat) returns (p: nat)
    requires i < n <= |list| && Wanted(list, i, me, direct)
    ensures p < |Firsts(list, n, me, direct)| && Firsts(list, n, me, direct)[p] == list[i]
    decreases n
  {
    if i < n - 1 {
      p := PlaceOf(list, n - 1, me, direct, i);
    } else {
      p := |Firsts(list, n - 1, me, direct)|;
    }
  }

  /** Of several spellings the first is kept, and who comes first stays first: those of To before
      those of Cc. */
  lemma CopiedInOrder(o: Original, me: string, i: nat, j: nat)
    requires i < j < |o.to + o.cc| && Wanted(o.to + o.cc, i, me, Direct(o)) && Wanted(o.to + o.cc, j, me, Direct(o))
    ensures exists p, q :: 0 <= p < q < |Copied(o, me)|
              && Copied(o, me)[p] == (o.to + o.cc)[i] && Copied(o, me)[q] == (o.to + o.cc)[j]
  {
    var list, copied := o.to + o.cc, Copied(o, me);
    FirstsInOrder(list, |list|, me, Direct(o), i, j);
    var p, q :| 0 <= p < q < |copied| && Firsts(list, |list|, me, Direct(o))[p] == list[i]
      && Firsts(list, |list|, me, Direct(o))[q] == list[j];
    assert copied[p] == list[i] && copied[q] == list[j];
  }
}
