/** Listing a folder page by page, newest first: by sorting a copy and slicing it (the mock
    adapter), and by windows of IMAP sequence numbers in 32-bit arithmetic (the Dovecot one). */
module Paging {
  import opened Text
  import opened StableSort
  import opened Mailbox

  function ClampLimit(n: int): (limit: nat)
    ensures 1 <= limit <= 100
  {
    if n <= 0 || n > 100 then 50 else n
  }

  function OffsetOf(cursor: string): int {
    if cursor == "" then 0 else AtoiOrZero(cursor)
  }

  /** A next cursor, empty on the last page. */
  function CursorTo(offset: Option<int>): string {
    if offset.Some? then FormatInt(offset.value) else ""
  }

  predicate IsInt64(n: int) {
    -TWO_63 <= n < TWO_63
  }

  lemma CursorRoundTrip(n: int)
    requires IsInt64(n)
    ensures CursorTo(Some(n)) != "" && OffsetOf(CursorTo(Some(n))) == n
  {
    AtoiFormatInt(n);
    assert FormatInt(n) != "";
  }

  method ParseCursor(cursor: string) returns (offset: int)
    ensures offset == OffsetOf(cursor)
  {
    offset := 0;
    if cursor != "" {
      offset := AtoiOrZero(cursor);
    }
  }

  datatype Page = Page(messages: seq<Message>, total: int, next: string)

  function Reverse<T>(s: seq<T>): (r: seq<T>)
    ensures |r| == |s|
  {
    if s == [] then [] else Reverse(s[1..]) + [s[0]]
  }

  // ---- the mock adapter ----

  predicate NotOlder(a: Message, b: Message) {
    a.date >= b.date
  }

  function NewestFirst(messages: seq<Message>): (r: seq<Message>)
    ensures |r| == |messages|
  {
    Sort(messages, NotOlder)
  }

  function Least(a: int, b: int): int {
    if a <= b then a else b
  }

  function Start(count: nat, offset: int): (i: nat)
    ensures i <= count
  {
    if offset < 0 then 0 else Least(offset, count)
  }

  /** Where the next page starts, if there is one. */
  function NextStart(count: nat, offset: int, limit: int): (next: Option<int>)
    ensures next.Some? ==> Start(count, offset) < next.value < count
  {
    var to := Start(count, offset) + ClampLimit(limit);
    if to < count then Some(to) else None
  }

  function Slice(messages: seq<Message>, offset: int, limit: int): seq<Message> {
    var from := Start(|messages|, offset);
    NewestFirst(messages)[from..Least(from + ClampLimit(limit), |messages|)]
  }

  function PageAt(messages: seq<Message>, cursor: string, limit: int): Page {
    var offset := OffsetOf(cursor);
    Page(Slice(messages, offset, limit), |messages| % TWO_32, CursorTo(NextStart(|messages|, offset, limit)))
  }

  method Headers(some: seq<Message>) returns (out: seq<Message>)
    ensures out == some
  {
    out := [];
    for i := 0 to |some|
      invariant out == some[..i]
    {
      out := out + [some[i]];
    }
  }

  method PageOf(messages: seq<Message>, cursor: string, limit: int) returns (page: Page)
    ensures page == PageAt(messages, cursor, limit)
  {
    var size := ClampLimit(limit);
    var offset := ParseCursor(cursor);
    if offset < 0 {
      offset := 0;
    }
    var sorted := Sort(messages, NotOlder);
    if offset > |sorted| {
      offset := |sorted|;
    }
    var end := offset + size;
    if end > |sorted| {
      end := |sorted|;
    }
    var out := Headers(sorted[offset..end]);
    assert out == Slice(messages, OffsetOf(cursor), limit);
    page := Page(out, |sorted| % TWO_32, "");
    if end < |sorted| {
      page := page.(next := FormatInt(end));
    }
  }

  lemma NextCursor(count: nat, offset: int, limit: int)
    requires count < TWO_63
    ensures var next := NextStart(count, offset, limit);
            (next.None? <==> CursorTo(next) == "") && (next.Some? ==> OffsetOf(CursorTo(next)) == next.value)
  {
    var next := NextStart(count, offset, limit);
    if next.Some? {
      CursorRoundTrip(next.value);
    }
  }

  /** What one sees by asking for the page at `cursor` and then for every next page. */
  function Followed(messages: seq<Message>, cursor: string, limit: int): seq<Message>
    requires |messages| < TWO_63
    decreases |messages| - Start(|messages|, OffsetOf(cursor))
  {
    var page := PageAt(messages, cursor, limit);
    NextCursor(|messages|, OffsetOf(cursor), limit);
    if page.next == "" then page.messages else page.messages + Followed(messages, page.next, limit)
  }

  lemma SliceThenRest(messages: seq<Message>, offset: int, limit: int)
    ensures var next := NextStart(|messages|, offset, limit);
            NewestFirst(messages)[Start(|messages|, offset)..] ==
            Slice(messages, offset, limit) + (if next.Some? then NewestFirst(messages)[next.value..] else [])
  {
  }

  lemma {:induction false} FollowedIsRest(messages: seq<Message>, cursor: string, limit: int)
    requires |messages| < TWO_63
    ensures Followed(messages, cursor, limit) == NewestFirst(messages)[Start(|messages|, OffsetOf(cursor))..]
    decreases |messages| - Start(|messages|, OffsetOf(cursor))
  {
    NextCursor(|messages|, OffsetOf(cursor), limit);
    SliceThenRest(messages, OffsetOf(cursor), limit);
    if NextStart(|messages|, OffsetOf(cursor), limit).Some? {
      FollowedIsRest(messages, PageAt(messages, cursor, limit).next, limit);
    }
  }

  function OnDate(date: int): Message -> bool {
    (m: Message) => m.date == date
  }

  lemma NotOlderIsPreorder()
    ensures TotalPreorder(NotOlder)
  {
  }

  /** Whatever the limit, the pages show every message of the folder once, newest first, those of
      one date in the order they were added. */
  lemma PagesShowAll(messages: seq<Message>, limit: int, date: int)
    requires |messages| < TWO_63
    ensures var all := Followed(messages, "", limit);
            && multiset(all) == multiset(messages)
            && (forall i, j :: 0 <= i < j < |all| ==> all[i].date >= all[j].date)
            && Filter(all, OnDate(date)) == Filter(messages, OnDate(date))
  {
    FollowedIsRest(messages, "", limit);
    var all := NewestFirst(messages);
    assert all[0..] == all;
    NotOlderIsPreorder();
    SortSorted(messages, NotOlder);
    forall i, j | 0 <= i < j < |all|
      ensures all[i].date >= all[j].date
    {
      assert NotOlder(all[i], all[j]);
    }
    SortStable(messages, NotOlder, OnDate(date));
  }

  // ---- the Dovecot adapter ----

  /** Sequence numbers `lo` to `hi`, counted from 1. */
  datatype Window = Window(lo: int, hi: int)

  function Uint32(n: int): (r: int)
    ensures 0 <= r < TWO_32
    ensures 0 <= n < TWO_32 ==> r == n
    ensures TWO_32 <= n < 2 * TWO_32 ==> r == n - TWO_32
  {
    n % TWO_32
  }

  /** The window fetched at an offset, if any, and the next offset. */
  function WindowFrom(total: int, offset: int, limit: int): (r: (Option<Window>, Option<int>))
    requires 0 <= total < TWO_32
    ensures r.0.Some? ==> 1 <= r.0.value.lo <= r.0.value.hi <= total
    ensures r.1.Some? ==> IsInt64(r.1.value)
  {
    var size := ClampLimit(limit);
    if Uint32(offset) >= total then (None, None)
    else
      var hi := Uint32(total - Uint32(offset));
      (Some(Window(if hi > size then Uint32(hi - size + 1) else 1, hi)),
       if Uint32(Wrap64(offset + size)) < total then Some(Wrap64(offset + size)) else None)
  }

  function Fetched(messages: seq<Message>, window: Option<Window>): seq<Message>
    requires window.Some? ==> 1 <= window.value.lo <= window.value.hi <= |messages|
  {
    if window.Some? then messages[window.value.lo - 1..window.value.hi] else []
  }

  /** `messages` in sequence order, as the server numbers them. */
  method List(messages: seq<Message>, cursor: string, limit: int) returns (page: Page)
    requires |messages| < TWO_32
    ensures var (window, next) := WindowFrom(|messages|, OffsetOf(cursor), limit);
            page == Page(Reverse(Fetched(messages, window)), |messages|, CursorTo(next))
  {
    var size := ClampLimit(limit);
    var offset := ParseCursor(cursor);
    var total := |messages|;
    page := Page([], total, "");
    if total == 0 || Uint32(offset) >= total {
      return;
    }
    var hi := Uint32(total - Uint32(offset));
    var lo := 1;
    if hi > size {
      lo := Uint32(hi - size + 1);
    }
    var out := Backwards(messages[lo - 1..hi]);
    assert WindowFrom(total, offset, limit).0 == Some(Window(lo, hi));
    page := page.(messages := out);
    if Uint32(Wrap64(offset + size)) < total {
      page := page.(next := FormatInt(Wrap64(offset + size)));
    }
  }

  method Backwards(fetched: seq<Message>) returns (out: seq<Message>)
    ensures out == Reverse(fetched)
  {
    out := [];
    var i := |fetched|;
    while i > 0
      invariant 0 <= i <= |fetched| && out == Reverse(fetched[i..])
    {
      i := i - 1;
      assert fetched[i..][0] == fetched[i] && fetched[i..][1..] == fetched[i + 1..];
      out := out + [fetched[i]];
    }
    assert fetched[0..] == fetched;
  }

  // ---- following the windows ----

  /** The windows of at most `n` pages, from `cursor` on, and whether the last page was reached. */
  function Walk(total: int, cursor: string, limit: int, n: nat): (r: (seq<Window>, bool))
    requires 0 <= total < TWO_32
    decreases n
  {
    if n == 0 then ([], false)
    else
      var (window, next) := WindowFrom(total, OffsetOf(cursor), limit);
      var here := if window.Some? then [window.value] else [];
      if CursorTo(next) == "" then (here, true)
      else
        var (more, ended) := Walk(total, CursorTo(next), limit, n - 1);
        (here + more, ended)
  }

  /** The same with offsets for cursors. */
  function WalkFrom(total: int, offset: int, limit: int, n: nat): (r: (seq<Window>, bool))
    requires 0 <= total < TWO_32
    decreases n
  {
    if n == 0 then ([], false)
    else
      var (window, next) := WindowFrom(total, offset, limit);
      var here := if window.Some? then [window.value] else [];
      if next.None? then (here, true)
      else
        var (more, ended) := WalkFrom(total, next.value, limit, n - 1);
        (here + more, ended)
  }

  lemma {:induction false} CursorsAreOffsets(total: int, cursor: string, limit: int, n: nat)
    requires 0 <= total < TWO_32
    ensures Walk(total, cursor, limit, n) == WalkFrom(total, OffsetOf(cursor), limit, n)
    decreases n
  {
    if n > 0 {
      var next := WindowFrom(total, OffsetOf(cursor), limit).1;
      if next.Some? {
        CursorRoundTrip(next.value);
        CursorsAreOffsets(total, CursorTo(next), limit, n - 1);
      }
    }
  }

  /** The windows are stacked without gap or overlap from `top` down to 1, none over `size`. */
  predicate TilesDown(ws: seq<Window>, top: int, size: int)
    decreases |ws|
  {
    if top == 0 then ws == []
    else
      && ws != [] && 1 <= ws[0].lo <= ws[0].hi == top && ws[0].hi - ws[0].lo < size
      && TilesDown(ws[1..], ws[0].lo - 1, size)
  }

  function RoundUp(n: nat, k: nat): (r: nat)
    requires k > 0
    ensures n <= r < n + k
  {
    if n == 0 then 0 else if n <= k then k else k + RoundUp(n - k, k)
  }

  function PageCount(n: nat, k: nat): (r: nat)
    requires k > 0
    ensures r * k == RoundUp(n, k)
  {
    if n == 0 then 0 else if n <= k then 1 else 1 + PageCount(n - k, k)
  }

  /** A page at an offset inside the folder. */
  lemma PageInside(total: int, limit: int, offset: int)
    requires 0 <= offset < total < TWO_32
    ensures var size := ClampLimit(limit);
            var (window, next) := WindowFrom(total, offset, limit);
            && window == Some(Window(if total - offset > size then total - offset - size + 1 else 1, total - offset))
            && (offset + size < total ==> next == Some(offset + size))
            && (total <= offset + size < TWO_32 ==> next == None)
            && (TWO_32 <= offset + size < TWO_32 + total ==> next == Some(offset + size))
  {
    WrapOnce(offset + ClampLimit(limit));
  }

  /** Past 2^32 the offset starts over, and with it the windows. */
  lemma PageAgain(total: int, limit: int, offset: int)
    requires TWO_32 <= offset < TWO_32 + total < 2 * TWO_32
    ensures WindowFrom(total, offset, limit).0.Some?
  {
  }

  /** The walk from an offset ends within `n` pages and tiles what lies below. */
  predicate Covers(total: int, limit: int, offset: int, n: nat)
    requires 0 <= total < TWO_32
  {
    var (ws, ended) := WalkFrom(total, offset, limit, n);
    ended && TilesDown(ws, total - offset, ClampLimit(limit))
  }

  /** A full page does, if the pages after it do. */
  lemma FullPage(total: int, limit: int, offset: int, n: nat)
    requires 0 <= offset && offset + ClampLimit(limit) < total < TWO_32 && n > 0
    ensures Covers(total, limit, offset, n) <==> Covers(total, limit, offset + ClampLimit(limit), n - 1)
  {
    var size := ClampLimit(limit);
    PageInside(total, limit, offset);
    var more := WalkFrom(total, offset + size, limit, n - 1).0;
    assert ([Window(total - offset - size + 1, total - offset)] + more)[1..] == more;
  }

  /** The page that reaches number 1 does, unless its next offset wraps. */
  lemma LastPage(total: int, limit: int, offset: int, n: nat)
    requires 0 <= offset < total < TWO_32 && total - offset <= ClampLimit(limit)
    ensures n > 0 && offset + ClampLimit(limit) < TWO_32 ==> Covers(total, limit, offset, n)
    ensures offset + ClampLimit(limit) >= TWO_32 ==> !Covers(total, limit, offset, n)
  {
    var next := offset + ClampLimit(limit);
    PageInside(total, limit, offset);
    if n > 0 && next >= TWO_32 {
      PageAgain(total, limit, next);
      var more := WalkFrom(total, next, limit, n - 1);
      var ws := [Window(1, total - offset)] + more.0;
      assert WalkFrom(total, offset, limit, n) == (ws, more.1);
      assert more.1 ==> more.0 != [];
      assert ws[1..] == more.0 && (TilesDown(ws[1..], 0, ClampLimit(limit)) <==> more.0 == []);
    }
  }

  lemma {:induction false} CoversExactly(total: int, limit: int, offset: int, n: nat)
    requires 0 <= offset < total < TWO_32
    requires n >= PageCount(total - offset, ClampLimit(limit))
    ensures Covers(total, limit, offset, n) <==> offset + RoundUp(total - offset, ClampLimit(limit)) < TWO_32
    decreases n
  {
    if total - offset <= ClampLimit(limit) {
      LastPage(total, limit, offset, n);
    } else {
      FullPage(total, limit, offset, n);
      CoversExactly(total, limit, offset + ClampLimit(limit), n - 1);
    }
  }

  /** Following the cursors from the start covers sequence numbers `total` down to 1 exactly once,
      newest first, and ends, exactly if the total rounded up to whole pages fits 32 bits. */
  lemma WindowsTileExactly(total: int, limit: int, n: nat)
    requires 0 <= total < TWO_32 && n > PageCount(total, ClampLimit(limit))
    ensures var (ws, ended) := Walk(total, "", limit, n);
            ended && TilesDown(ws, total, ClampLimit(limit)) <==> RoundUp(total, ClampLimit(limit)) < TWO_32
  {
    CursorsAreOffsets(total, "", limit, n);
    if total > 0 {
      CoversExactly(total, limit, 0, n);
    }
  }

  lemma MultipleAbove(n: nat, pages: nat)
    requires n == TWO_32 - 1 && pages * 50 >= n
    ensures pages * 50 >= TWO_32
  {
  }

  /** The largest folder, by pages of fifty, is one that does not tile. */
  lemma LargestFolderDoesNotTile(total: int, n: nat)
    requires total == TWO_32 - 1 && n > PageCount(total, 50)
    ensures var (ws, ended) := Walk(total, "", 50, n); !(ended && TilesDown(ws, total, 50))
  {
    MultipleAbove(total, PageCount(total, 50));
    WindowsTileExactly(total, 50, n);
  }

  /** So every folder of up to 2^32 - 100 messages is covered, whatever the limit. */
  lemma SmallFoldersTile(total: int, limit: int)
    requires 0 <= total <= TWO_32 - 100
    ensures var (ws, ended) := Walk(total, "", limit, PageCount(total, ClampLimit(limit)) + 1);
            ended && TilesDown(ws, total, ClampLimit(limit))
  {
    WindowsTileExactly(total, limit, PageCount(total, ClampLimit(limit)) + 1);
  }

  // ---- how much a page holds ----

  /** A page holds as many messages as were asked for, up to a hundred, or fifty if that was no sense,
      or those that are left; and says how many there are in all. */
  lemma PageIsFull(messages: seq<Message>, cursor: string, limit: int)
    requires |messages| < 0x1_0000_0000
    ensures var page := PageAt(messages, cursor, limit);
            var left := |messages| - (if OffsetOf(cursor) < 0 then 0 else if OffsetOf(cursor) > |messages| then |messages| else OffsetOf(cursor));
            var size := if 1 <= limit <= 100 then limit else 50;
            && |page.messages| == (if left < size then left else size)
            && page.total == |messages|
            && (page.next == "" <==> left <= size)
  {
    NextCursor(|messages|, OffsetOf(cursor), limit);
  }

  /** So does a window of sequence numbers at an offset inside the folder; beyond it there is none. */
  lemma WindowIsFull(total: int, offset: int, limit: int)
    requires 0 <= total < 0x1_0000_0000 && 0 <= offset < 0x1_0000_0000
    ensures var window := WindowFrom(total, offset, limit).0;
            var size := if 1 <= limit <= 100 then limit else 50;
            if offset < total
            then window.Some? && window.value.hi == total - offset
                 && window.value.hi - window.value.lo + 1 == (if total - offset < size then total - offset else size)
            else window == None
  {
    if offset < total {
      PageInside(total, limit, offset);
    }
  }

  /** A cursor that is no number starts over. */
  lemma BadCursorStartsOver(messages: seq<Message>, cursor: string, limit: int)
    requires UnsignedPart(cursor) == "" || !AllDigits(UnsignedPart(cursor))
    ensures PageAt(messages, cursor, limit) == PageAt(messages, "", limit)
  {
  }

  /** A cursor beyond the folder, however many digits it has, shows nothing more. */
  lemma FarCursorIsEnd(messages: seq<Message>, cursor: string, limit: int)
    requires |messages| < TWO_63 && cursor != "" && AllDigits(cursor) && DigitsValue(cursor) >= |messages|
    ensures PageAt(messages, cursor, limit).messages == [] && PageAt(messages, cursor, limit).next == ""
  {
    assert IsDigit(cursor[0]);
  }
}
