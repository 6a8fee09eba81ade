/** The two paging schemes side by side: what each shows of a folder, and when they agree. */
module Adapters {
  import opened Text
  import opened StableSort
  import opened Mailbox
  import opened Paging

  /** The messages shown by a list of windows, each newest first. */
  function Shown(messages: seq<Message>, ws: seq<Window>): seq<Message>
    requires forall w :: w in ws ==> 1 <= w.lo <= w.hi <= |messages|
  {
    if ws == [] then [] else Reverse(messages[ws[0].lo - 1..ws[0].hi]) + Shown(messages, ws[1..])
  }

  lemma {:induction false} ReverseConcat<T>(a: seq<T>, b: seq<T>)
    ensures Reverse(a + b) == Reverse(b) + Reverse(a)
  {
    if a == [] {
      assert a + b == b;
    } else {
      assert (a + b)[1..] == a[1..] + b;
      ReverseConcat(a[1..], b);
    }
  }

  lemma {:induction false} TilesShowAll(messages: seq<Message>, ws: seq<Window>, top: nat, size: int)
    requires top <= |messages| && TilesDown(ws, top, size)
    ensures forall w :: w in ws ==> 1 <= w.lo <= w.hi <= |messages|
    ensures Shown(messages, ws) == Reverse(messages[..top])
    decreases |ws|
  {
    if top > 0 {
      var low := ws[0].lo - 1;
      TilesShowAll(messages, ws[1..], low, size);
      assert messages[..top] == messages[..low] + messages[low..top];
      ReverseConcat(messages[..low], messages[low..top]);
    }
  }

  ghost predicate DatesIncrease(messages: seq<Message>) {
    forall i, j :: 0 <= i < j < |messages| ==> messages[i].date < messages[j].date
  }

  lemma {:induction false} InsertLast(x: Message, s: seq<Message>)
    requires forall y :: y in s ==> y.date > x.date
    ensures Insert(x, s, NotOlder) == s + [x]
  {
    if s != [] {
      InsertLast(x, s[1..]);
    }
  }

  lemma {:induction false} ReverseMembers<T>(s: seq<T>)
    ensures forall x :: x in Reverse(s) ==> x in s
  {
    if s != [] {
      ReverseMembers(s[1..]);
    }
  }

  lemma {:induction false} SortIsReverse(messages: seq<Message>)
    requires DatesIncrease(messages)
    ensures NewestFirst(messages) == Reverse(messages)
  {
    if messages != [] {
      var rest := messages[1..];
      SortIsReverse(rest);
      ReverseMembers(rest);
      assert forall y :: y in rest ==> y.date > messages[0].date;
      InsertLast(messages[0], Reverse(rest));
    }
  }

  lemma {:induction false} ReverseAt<T>(s: seq<T>, k: nat)
    requires k < |s|
    ensures Reverse(s)[k] == s[|s| - 1 - k]
  {
    if k < |s| - 1 {
      ReverseAt(s[1..], k);
    }
  }

  lemma {:induction false} FilterReverse<T>(s: seq<T>, p: T -> bool)
    ensures Filter(Reverse(s), p) == Reverse(Filter(s, p))
  {
    if s != [] {
      FilterReverse(s[1..], p);
      FilterConcat(Reverse(s[1..]), [s[0]], p);
      assert [s[0]][1..] == [];
      assert Filter([s[0]], p) == if p(s[0]) then [s[0]] else [];
      if p(s[0]) {
        assert Filter(s, p)[1..] == Filter(s[1..], p);
      }
    }
  }

  lemma {:induction false} FilterDistinct<T>(s: seq<T>, p: T -> bool)
    requires NoDuplicates(s)
    ensures NoDuplicates(Filter(s, p))
  {
    if s != [] {
      assert NoDuplicates(s[1..]) && s[0] !in s[1..];
      FilterDistinct(s[1..], p);
      FilterMembers(s[1..], p);
    }
  }

  lemma ReverseSorted(messages: seq<Message>, i: nat, j: nat)
    requires NewestFirst(messages) == Reverse(messages) && i < j < |messages|
    ensures messages[i].date <= messages[j].date
  {
    var n := |messages|;
    NotOlderIsPreorder();
    SortSorted(messages, NotOlder);
    ReverseAt(messages, n - 1 - i);
    ReverseAt(messages, n - 1 - j);
    assert NotOlder(Reverse(messages)[n - 1 - j], Reverse(messages)[n - 1 - i]);
  }

  lemma OwnReverse(s: seq<Message>)
    requires NoDuplicates(s) && s == Reverse(s)
    ensures |s| <= 1
  {
    if s != [] {
      ReverseAt(s, 0);
    }
  }

  lemma TiedPair(messages: seq<Message>, i: nat, j: nat, p: Message -> bool)
    requires NoDuplicates(messages) && i < j < |messages| && p(messages[i]) && p(messages[j])
    ensures Filter(messages, p) != Reverse(Filter(messages, p))
  {
    var tied := Filter(messages, p);
    FilterMembers(messages, p);
    FilterDistinct(messages, p);
    assert messages[i] in tied && messages[j] in tied;
    if tied == Reverse(tied) {
      OwnReverse(tied);
    }
  }

  /** Two messages of one date come out of the two adapters in different orders. */
  lemma TieDiffers(messages: seq<Message>, i: nat, j: nat)
    requires NoDuplicates(messages) && i < j < |messages| && messages[i].date == messages[j].date
    ensures NewestFirst(messages) != Reverse(messages)
  {
    var p := OnDate(messages[i].date);
    SortStable(messages, NotOlder, p);
    FilterReverse(messages, p);
    TiedPair(messages, i, j, p);
  }

  /** On a folder of distinct messages the mock's order is the sequence order backwards exactly
      if the dates increase. */
  lemma OrdersAgreeExactly(messages: seq<Message>)
    requires NoDuplicates(messages)
    ensures NewestFirst(messages) == Reverse(messages) <==> DatesIncrease(messages)
  {
    if DatesIncrease(messages) {
      SortIsReverse(messages);
    } else {
      var i, j :| 0 <= i < j < |messages| && messages[i].date >= messages[j].date;
      if messages[i].date == messages[j].date {
        TieDiffers(messages, i, j);
      } else if NewestFirst(messages) == Reverse(messages) {
        ReverseSorted(messages, i, j);
      }
    }
  }

  /** On a folder whose dates increase, both adapters show the same messages in the same order. */
  lemma AdaptersAgree(messages: seq<Message>, limit: int, otherLimit: int)
    requires |messages| <= TWO_32 - 100 && DatesIncrease(messages)
    ensures var ws := Walk(|messages|, "", otherLimit, PageCount(|messages|, ClampLimit(otherLimit)) + 1).0;
            && (forall w :: w in ws ==> 1 <= w.lo <= w.hi <= |messages|)
            && Followed(messages, "", limit) == Shown(messages, ws)
  {
    SmallFoldersTile(|messages|, otherLimit);
    TilesShowAll(messages, Walk(|messages|, "", otherLimit, PageCount(|messages|, ClampLimit(otherLimit)) + 1).0,
                 |messages|, ClampLimit(otherLimit));
    assert messages[..|messages|] == messages;
    FollowedIsRest(messages, "", limit);
    SortIsReverse(messages);
  }
}
