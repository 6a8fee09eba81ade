/** When a certificate is tried again: `renew_after`, kept as text in the certificates table,
    and the failure counts kept in memory that stretch it. One row per hostname. */
module Renewal {
  import opened Text
  import opened TimeFormat

  const RENEW_BEFORE: nat := 30 * DAY
  const MAX_BACKOFF: nat := 24 * HOUR
  const TWO_62: int := 0x4000_0000_0000_0000

  datatype Status = Pending | DnsWait | Issuing | Active | Error

  /** An instant the database can hold. */
  type Stored = t: Instant | InRange(t)

  /** `renew_after` is NULL or empty until the first attempt, then a formatted instant. */
  datatype Row = Row(status: Status, renewAfter: Option<Stored>)

  datatype Outcome =
    | PreflightFailed
    | IssuerFailed
    | WriteFailed
    | Issued(notBefore: Instant, notAfter: Instant)

  type Failures = map<string, nat>

  type Rows = map<string, Row>

  /** The wait after the n-th failure in a row. */
  function Backoff(n: nat): (d: nat)
    requires n >= 1
    ensures HOUR <= d <= MAX_BACKOFF
  {
    if n == 1 then 1 * HOUR
    else if n == 2 then 2 * HOUR
    else if n == 3 then 4 * HOUR
    else if n == 4 then 8 * HOUR
    else if n == 5 then 16 * HOUR
    else MAX_BACKOFF
  }

  lemma BackoffGrows(m: nat, n: nat)
    requires 1 <= m <= n
    ensures Backoff(m) <= Backoff(n)
    ensures Backoff(m) == Backoff(n) <==> m == n || m >= 6
  {
  }

  /** One hour, doubled with each failure up to sixteen, then a day. */
  lemma BackoffDoubles(n: nat)
    requires n >= 1
    ensures n == 1 ==> Backoff(n) == 3_600_000_000_000
    ensures n <= 4 ==> Backoff(n + 1) == 2 * Backoff(n)
    ensures n >= 6 ==> Backoff(n) == 24 * Backoff(1)
  {
  }

  // ---- 64-bit durations ----

  function Truncated(x: int, k: nat): int
    requires k > 0
  {
    if x >= 0 then x / k else -(-x / k)
  }

  /** `t.Sub(u)` stops at the ends of the 64-bit range. */
  function Sub(t: Instant, u: Instant): (d: int)
    ensures -TWO_63 <= d < TWO_63
  {
    if t - u >= TWO_63 then TWO_63 - 1 else if t - u < -TWO_63 then -TWO_63 else t - u
  }

  function RenewAfter(notBefore: Instant, notAfter: Instant, now: Instant): Instant {
    if notAfter - RENEW_BEFORE < now then notBefore + Truncated(Wrap64(Sub(notAfter, notBefore) * 2), 3)
    else notAfter - RENEW_BEFORE
  }

  lemma TwoThirds(life: int)
    requires 0 < life
    ensures var d := if life >= TWO_63 then TWO_63 - 1 else life;
            0 <= Truncated(Wrap64(d * 2), 3) < life <==> life < TWO_62 || life >= TWO_63 - 1
  {
    var d := if life >= TWO_63 then TWO_63 - 1 else life;
    WrapOnce(d * 2);
  }

  /** Renewal falls inside the certificate's life exactly if it has thirty days left, or its
      length doubled fits 64 bits, or its length is cut off there. */
  lemma RenewAfterInLife(notBefore: Instant, notAfter: Instant, now: Instant)
    requires notBefore <= now < notAfter
    ensures notBefore <= RenewAfter(notBefore, notAfter, now) < notAfter <==>
            notAfter - now >= RENEW_BEFORE || notAfter - notBefore < TWO_62 || notAfter - notBefore >= TWO_63 - 1
  {
    TwoThirds(notAfter - notBefore);
  }

  /** A certificate issued for 146 years and in its last days would be due before it was issued. */
  lemma RenewAfterCanPrecedeLife()
    ensures RenewAfter(0, TWO_62, TWO_62 - DAY) < 0
  {
    WrapOnce(TWO_62 * 2);
  }

  // ---- one attempt ----

  predicate Failed(o: Outcome) {
    !o.Issued?
  }

  /** `renew_after` as an attempt leaves it, given the failures before it. */
  function Next(failures: nat, at: Instant, o: Outcome): Instant {
    if o.Issued? then RenewAfter(o.notBefore, o.notAfter, at) else at + Backoff(failures + 1)
  }

  function StatusAfter(o: Outcome): Status {
    match o
    case PreflightFailed => DnsWait
    case Issued(_, _) => Active
    case _ => Error
  }

  function Count(failures: Failures, host: string): nat {
    if host in failures then failures[host] else 0
  }

  function FailuresAfter(failures: Failures, host: string, o: Outcome): Failures {
    if o.Issued? then failures - {host} else failures[host := Count(failures, host) + 1]
  }

  function RowsAfter(failures: Failures, rows: Rows, host: string, at: Instant, o: Outcome): Rows
    requires InRange(Next(Count(failures, host), at, o))
  {
    rows[host := Row(StatusAfter(o), Some(Next(Count(failures, host), at, o)))]
  }

  /** The scan compares the stored text with the text of the clock. */
  predicate Due(row: Row, now: Stored) {
    row.renewAfter.None? || !Less(FormatTime(now), FormatTime(row.renewAfter.value))
  }

  /** Being due is being past `renew_after`, up to a millisecond. */
  lemma DueMeansPast(row: Row, now: Stored)
    requires row.renewAfter.Some?
    ensures Due(row, now) ==> now > row.renewAfter.value - MILLI
    ensures now >= row.renewAfter.value ==> Due(row, now)
  {
    FormatTimeOrder(now, row.renewAfter.value);
  }

  /** The row is due from this instant on, and not due a millisecond or more before it. */
  ghost predicate DueFrom(row: Row, instant: Instant) {
    forall now: Stored ::
      (now >= instant ==> Due(row, now)) && (now <= instant - 1_000_000 ==> !Due(row, now))
  }

  lemma StoredIsDueFrom(row: Row)
    requires row.renewAfter.Some?
    ensures DueFrom(row, row.renewAfter.value)
  {
    forall now: Stored
      ensures now >= row.renewAfter.value ==> Due(row, now)
      ensures now <= row.renewAfter.value - 1_000_000 ==> !Due(row, now)
    {
      DueMeansPast(row, now);
    }
  }

  lemma TwoThirdsOfLife(life: int)
    requires 0 < life < TWO_62
    ensures Truncated(Wrap64(life * 2), 3) == 2 * life / 3
  {
    WrapOnce(life * 2);
  }

  lemma RenewAfterIs(notBefore: Instant, notAfter: Instant, at: Instant)
    requires notBefore <= at < notAfter
    ensures notAfter - at >= 30 * 86_400_000_000_000 ==>
              RenewAfter(notBefore, notAfter, at) == notAfter - 30 * 86_400_000_000_000
    ensures notAfter - at < 30 * 86_400_000_000_000 && notAfter - notBefore < TWO_62 ==>
              RenewAfter(notBefore, notAfter, at) == notBefore + 2 * (notAfter - notBefore) / 3
  {
    if notAfter - notBefore < TWO_62 {
      TwoThirdsOfLife(notAfter - notBefore);
    }
  }

  /** After a success the certificate is active, and due thirty days before it expires, if there are
      thirty days; a shorter one after two thirds of its life. Other rows stay. */
  lemma RenewedInTime(failures: Failures, rows: Rows, host: string, at: Instant, notBefore: Instant, notAfter: Instant)
    requires notBefore <= at < notAfter && InRange(Next(Count(failures, host), at, Issued(notBefore, notAfter)))
    ensures var rows' := RowsAfter(failures, rows, host, at, Issued(notBefore, notAfter));
            && host in rows' && rows'[host].status == Active
            && (notAfter - at >= 30 * 86_400_000_000_000 ==> DueFrom(rows'[host], notAfter - 30 * 86_400_000_000_000))
            && (notAfter - at < 30 * 86_400_000_000_000 && notAfter - notBefore < TWO_62 ==>
                  DueFrom(rows'[host], notBefore + 2 * (notAfter - notBefore) / 3))
            && (forall h :: h != host ==> (h in rows' <==> h in rows) && (h in rows ==> rows'[h] == rows[h]))
  {
    RenewAfterIs(notBefore, notAfter, at);
    StoredIsDueFrom(RowsAfter(failures, rows, host, at, Issued(notBefore, notAfter))[host]);
  }

  /** After the n-th failure in a row the certificate says why, and is due n backoffs' time later. */
  lemma RetriedAfterBackoff(failures: Failures, rows: Rows, host: string, at: Instant, o: Outcome)
    requires Failed(o) && InRange(Next(Count(failures, host), at, o))
    ensures var rows' := RowsAfter(failures, rows, host, at, o);
            && host in rows' && DueFrom(rows'[host], at + Backoff(Count(failures, host) + 1))
            && rows'[host].status == (if o == PreflightFailed then DnsWait else Error)
            && (forall h :: h != host ==> (h in rows' <==> h in rows) && (h in rows ==> rows'[h] == rows[h]))
  {
    StoredIsDueFrom(RowsAfter(failures, rows, host, at, o)[host]);
  }

  // ---- one tick of the renewal loop ----

  datatype Attempted = Attempted(at: Instant, outcome: Outcome)

  function DueHosts(rows: Rows, now: Stored): set<string> {
    set h | h in rows && Due(rows[h], now)
  }

  /** What becomes of each host a tick tries. */
  predicate Covers(attempts: map<string, Attempted>, due: set<string>, failures: Failures, rows: Rows) {
    forall h :: h in due ==>
      h in rows && h in attempts && InRange(Next(Count(failures, h), attempts[h].at, attempts[h].outcome))
  }

  /** A host after the tick, from what it was before. */
  predicate Treated(h: string, attempts: map<string, Attempted>, due: set<string>,
                    failures: Failures, rows: Rows, failures': Failures, rows': Rows)
    requires h in rows && h in rows' && Covers(attempts, due, failures, rows)
  {
    if h in due then
      var (at, o) := (attempts[h].at, attempts[h].outcome);
      && rows'[h] == Row(StatusAfter(o), Some(Next(Count(failures, h), at, o)))
      && Count(failures', h) == if Failed(o) then Count(failures, h) + 1 else 0
    else
      rows'[h] == rows[h] && Count(failures', h) == Count(failures, h)
  }

  class Manager {
    var failures: Failures
    var rows: Rows

    constructor ()
      ensures failures == map[] && rows == map[]
    {
      failures, rows := map[], map[];
    }

    method EnsureTracked(host: string)
      modifies this
      ensures failures == old(failures)
      ensures rows == if host in old(rows) then old(rows) else old(rows)[host := Row(Pending, None)]
    {
      if host !in rows {
        rows := rows[host := Row(Pending, None)];
      }
    }

    method Fail(host: string, at: Instant, status: Status)
      requires host in rows && InRange(at + Backoff(Count(failures, host) + 1))
      modifies this
      ensures failures == old(failures)[host := Count(old(failures), host) + 1]
      ensures rows == old(rows)[host := Row(status, Some(at + Backoff(failures[host])))]
    {
      var n := (if host in failures then failures[host] else 0) + 1;
      failures := failures[host := n];
      var backoff, shift := HOUR, 0;
      while shift < n - 1 && shift < 5
        invariant 0 <= shift <= 5 && shift <= n - 1
        invariant backoff == if shift == 0 then HOUR else if shift == 1 then 2 * HOUR else if shift == 2 then 4 * HOUR
                             else if shift == 3 then 8 * HOUR else if shift == 4 then 16 * HOUR else 32 * HOUR
      {
        backoff, shift := backoff * 2, shift + 1;
      }
      if backoff > MAX_BACKOFF {
        backoff := MAX_BACKOFF;
      }
      rows := rows[host := rows[host].(status := status)];
      rows := rows[host := rows[host].(renewAfter := Some(at + backoff))];
    }

    method IssueNow(host: string, at: Instant, o: Outcome)
      requires host in rows && InRange(Next(Count(failures, host), at, o))
      modifies this
      ensures failures == FailuresAfter(old(failures), host, o)
      ensures rows == RowsAfter(old(failures), old(rows), host, at, o)
    {
      if o.PreflightFailed? {
        Fail(host, at, DnsWait);
        return;
      }
      ghost var was := rows;
      rows := rows[host := rows[host].(status := Issuing)];
      if o.IssuerFailed? || o.WriteFailed? {
        Fail(host, at, Error);
        assert rows == was[host := rows[host]];
        return;
      }
      var renewAfter := o.notAfter - RENEW_BEFORE;
      if renewAfter < at {
        renewAfter := o.notBefore + Truncated(Wrap64(Sub(o.notAfter, o.notBefore) * 2), 3);
      }
      rows := rows[host := Row(Active, Some(renewAfter))];
      failures := failures - {host};
      assert rows == was[host := rows[host]];
    }

    /** Each certificate due when the tick starts is tried once; no other is touched. */
    method RenewDue(now: Stored, attempts: map<string, Attempted>)
      requires Covers(attempts, DueHosts(rows, now), failures, rows)
      modifies this
      ensures rows.Keys == old(rows.Keys)
      ensures forall h :: h in rows ==>
        Treated(h, attempts, DueHosts(old(rows), now), old(failures), old(rows), failures, rows)
    {
      var due := set h | h in rows && Due(rows[h], now);
      IssueAll(due, attempts);
    }

    method IssueAll(due: set<string>, attempts: map<string, Attempted>)
      requires Covers(attempts, due, failures, rows)
      modifies this
      ensures rows.Keys == old(rows.Keys)
      ensures forall h :: h in rows ==> Treated(h, attempts, due, old(failures), old(rows), failures, rows)
    {
      ghost var f, r := failures, rows;
      var left := due;
      while left != {}
        invariant rows.Keys == r.Keys && left <= due
        invariant forall h :: h in r ==> Treated(h, attempts, due - left, f, r, failures, rows)
        decreases |left|
      {
        var h :| h in left;
        assert Treated(h, attempts, due - left, f, r, failures, rows);
        IssueNow(h, attempts[h].at, attempts[h].outcome);
        left := left - {h};
      }
      assert due - left == due;
    }
  }

  // ---- runs ----

  datatype Entry =
    | Scanned(at: Instant)
    | Tried(host: string, at: Instant, ok: bool)
    | Forced(host: string)
    | Untracked(host: string)
    | Restarted

  datatype History = Start | Then(past: History, entry: Entry)

  /** `pending` is what the renewal loop still has to try after its last scan. */
  datatype State = State(failures: Failures, rows: Rows, pending: seq<string>, scanned: Instant, clock: Instant, history: History)

  datatype Event =
    | Track(host: string)
    | Untrack(host: string)                                // the row goes with its domain
    | Scan(at: Instant, due: seq<string>)
    | TryNext(at: Instant, outcome: Outcome)               // by the renewal loop
    | TryByHand(host: string, at: Instant, outcome: Outcome) // by an administrator
    | Force(host: string, at: Instant)
    | Restart

  /** The loop passes over a host whose row is gone, also if there is a new row for it. */
  function Without(hosts: seq<string>, host: string): (r: seq<string>)
    ensures forall h :: h in r <==> h in hosts && h != host
  {
    if hosts == [] then []
    else if hosts[0] == host then Without(hosts[1..], host)
    else [hosts[0]] + Without(hosts[1..], host)
  }

  function Attempt(s: State, host: string, at: Instant, o: Outcome): State
    requires InRange(Next(Count(s.failures, host), at, o))
  {
    s.(failures := FailuresAfter(s.failures, host, o),
       rows := RowsAfter(s.failures, s.rows, host, at, o),
       clock := at,
       history := Then(s.history, Tried(host, at, o.Issued?)))
  }

  predicate CanAttempt(s: State, host: string, at: Instant, o: Outcome) {
    s.clock <= at && host in s.rows && InRange(Next(Count(s.failures, host), at, o))
  }

  predicate Enabled(s: State, e: Event) {
    match e
    case Track(host) => host !in s.rows
    case Untrack(host) => host in s.rows
    case Scan(at, due) =>
      && s.pending == [] && s.clock <= at && InRange(at)
      && (forall h :: h in due ==> h in s.rows && Due(s.rows[h], at))
      && (forall h :: h in s.rows && Due(s.rows[h], at) ==> h in due)
      && (forall i, j :: 0 <= i < j < |due| ==> due[i] != due[j])
    case TryNext(at, o) => s.pending != [] && CanAttempt(s, s.pending[0], at, o)
    case TryByHand(host, at, o) => CanAttempt(s, host, at, o)
    case Force(host, at) => s.clock <= at && InRange(at) && host in s.rows
    case Restart => true
  }

  function Step(s: State, e: Event): State
    requires Enabled(s, e)
  {
    match e
    case Track(host) => s.(rows := s.rows[host := Row(Pending, None)])
    case Untrack(host) =>
      s.(rows := s.rows - {host}, pending := Without(s.pending, host), history := Then(s.history, Untracked(host)))
    case Scan(at, due) =>
      s.(pending := due, scanned := at, clock := at, history := Then(s.history, Scanned(at)))
    case TryNext(at, o) => Attempt(s, s.pending[0], at, o).(pending := s.pending[1..])
    case TryByHand(host, at, o) => Attempt(s, host, at, o)
    case Force(host, at) =>
      s.(rows := s.rows[host := s.rows[host].(renewAfter := Some(at))], clock := at,
         history := Then(s.history, Forced(host)))
    case Restart => s.(failures := map[], pending := [], history := Then(s.history, Restarted))
  }

  /** A new row is due at any time; a forced renewal makes its row due from then on, whatever the row
      said; a restart forgets the failures and the list, and neither touches another row. */
  lemma DueOnRequest(s: State, host: string, at: Instant, now: Stored)
    ensures Enabled(s, Track(host)) ==> host in Step(s, Track(host)).rows && Due(Step(s, Track(host)).rows[host], now)
    ensures Enabled(s, Force(host, at)) ==>
              host in Step(s, Force(host, at)).rows && DueFrom(Step(s, Force(host, at)).rows[host], at)
              && Step(s, Force(host, at)).rows[host].status == s.rows[host].status
    ensures Enabled(s, Force(host, at)) ==> forall h :: h != host && h in s.rows ==>
              h in Step(s, Force(host, at)).rows && Step(s, Force(host, at)).rows[h] == s.rows[h]
    ensures var r := Step(s, Restart); r.pending == [] && r.rows == s.rows && Count(r.failures, host) == 0
  {
    if Enabled(s, Force(host, at)) {
      StoredIsDueFrom(Step(s, Force(host, at)).rows[host]);
    }
  }

  predicate CanRun(s: State, events: seq<Event>)
    decreases |events|
  {
    events == [] || (Enabled(s, events[0]) && CanRun(Step(s, events[0]), events[1..]))
  }

  function Run(s: State, events: seq<Event>): State
    requires CanRun(s, events)
    decreases |events|
  {
    if events == [] then s else Run(Step(s, events[0]), events[1..])
  }

  const FRESH := State(map[], map[], [], 0, 0, Start)

  // ---- reading the history ----

  /** Failures on a host since its last success or the last restart. */
  function Streak(h: History, host: string): nat {
    match h
    case Start => 0
    case Then(past, Tried(on, _, ok)) =>
      if on != host then Streak(past, host) else if ok then 0 else Streak(past, host) + 1
    case Then(past, Restarted) => 0
    case Then(past, _) => Streak(past, host)
  }

  datatype Failure = Failure(at: Instant, streak: nat)

  /** The last thing done to a host, if that was a failure: when, and the how-manyth in a row. */
  function LastFailure(h: History, host: string): (f: Option<Failure>)
    ensures f.Some? ==> f.value.streak >= 1
  {
    match h
    case Start => None
    case Then(past, Tried(on, at, ok)) =>
      if on != host then LastFailure(past, host)
      else if ok then None else Some(Failure(at, Streak(h, host)))
    case Then(past, Forced(on)) => if on == host then None else LastFailure(past, host)
    case Then(past, Untracked(on)) => if on == host then None else LastFailure(past, host)
    case Then(past, _) => LastFailure(past, host)
  }

  /** The same as of the last scan, if nothing has tried the host since. */
  function FailureBeforeScan(h: History, host: string): (f: Option<Failure>)
    ensures f.Some? ==> f.value.streak >= 1
  {
    match h
    case Start => None
    case Then(past, Scanned(_)) => LastFailure(past, host)
    case Then(past, Tried(on, _, _)) => if on == host then None else FailureBeforeScan(past, host)
    case Then(past, _) => FailureBeforeScan(past, host)
  }

  // ---- the backoff over runs ----

  predicate RowWaits(s: State, host: string) {
    match LastFailure(s.history, host)
    case None => true
    case Some(f) =>
      && host in s.rows && InRange(f.at + Backoff(f.streak))
      && s.rows[host].renewAfter == Some(f.at + Backoff(f.streak))
  }

  predicate Waited(s: State, host: string) {
    var f := FailureBeforeScan(s.history, host);
    host in s.pending && f.Some? ==> s.scanned - f.value.at > Backoff(f.value.streak) - MILLI
  }

  ghost predicate Inv(s: State) {
    && s.scanned <= s.clock
    && (forall h :: Count(s.failures, h) == Streak(s.history, h))
    && (forall h :: RowWaits(s, h))
    && (forall h :: Waited(s, h))
  }

  lemma StepCounts(s: State, e: Event, h: string)
    requires Inv(s) && Enabled(s, e)
    ensures Count(Step(s, e).failures, h) == Streak(Step(s, e).history, h)
  {
  }

  lemma AttemptRowWaits(s: State, host: string, at: Instant, o: Outcome, h: string)
    requires CanAttempt(s, host, at, o) && RowWaits(s, h) && Count(s.failures, h) == Streak(s.history, h)
    ensures RowWaits(Attempt(s, host, at, o), h)
  {
  }

  /** A step that is no attempt. */
  lemma OtherRowWaits(s: State, e: Event, h: string)
    requires RowWaits(s, h) && Enabled(s, e) && !e.TryNext? && !e.TryByHand?
    ensures RowWaits(Step(s, e), h)
  {
  }

  lemma StepRowWaits(s: State, e: Event, h: string)
    requires Inv(s) && Enabled(s, e)
    ensures RowWaits(Step(s, e), h)
  {
    assert RowWaits(s, h) && Count(s.failures, h) == Streak(s.history, h);
    match e
    case TryNext(at, o) => AttemptRowWaits(s, s.pending[0], at, o, h);
    case TryByHand(host, at, o) => AttemptRowWaits(s, host, at, o, h);
    case _ => OtherRowWaits(s, e, h);
  }

  lemma StepWaited(s: State, e: Event, h: string)
    requires Inv(s) && Enabled(s, e)
    ensures Waited(Step(s, e), h)
  {
    assert Waited(s, h) && RowWaits(s, h);
    if e.Scan? && h in e.due {
      var f := LastFailure(s.history, h);
      if f.Some? {
        DueMeansPast(s.rows[h], e.at);
      }
    }
  }

  lemma StepInv(s: State, e: Event)
    requires Inv(s) && Enabled(s, e)
    ensures Inv(Step(s, e))
  {
    var s' := Step(s, e);
    forall h
      ensures Count(s'.failures, h) == Streak(s'.history, h) && RowWaits(s', h) && Waited(s', h)
    {
      StepCounts(s, e, h);
      StepRowWaits(s, e, h);
      StepWaited(s, e, h);
    }
  }

  lemma {:induction false} RunInv(s: State, events: seq<Event>)
    requires Inv(s) && CanRun(s, events)
    ensures Inv(Run(s, events))
    decreases |events|
  {
    if events != [] {
      StepInv(s, events[0]);
      RunInv(Step(s, events[0]), events[1..]);
    }
  }

  /** Somebody has tried the host since the last scan. */
  predicate TriedSinceScan(h: History, host: string) {
    match h
    case Start => false
    case Then(past, Scanned(_)) => false
    case Then(past, Tried(on, _, _)) => on == host || TriedSinceScan(past, host)
    case Then(past, _) => TriedSinceScan(past, host)
  }

  lemma {:induction false} UntriedIsBeforeScan(h: History, host: string)
    requires !TriedSinceScan(h, host) && LastFailure(h, host).Some?
    ensures FailureBeforeScan(h, host) == LastFailure(h, host)
  {
    if h.Then? && !h.entry.Scanned? {
      UntriedIsBeforeScan(h.past, host);
    }
  }

  predicate LongEnough(f: Failure, at: Instant)
    requires f.streak >= 1
  {
    at - f.at > Backoff(f.streak) - MILLI
  }

  lemma TurnWaited(s: State, at: Instant, o: Outcome)
    requires Inv(s) && Enabled(s, TryNext(at, o)) && !TriedSinceScan(s.history, s.pending[0])
    ensures var f := LastFailure(s.history, s.pending[0]); f.Some? ==> LongEnough(f.value, at)
  {
    var h := s.pending[0];
    assert Waited(s, h);
    if LastFailure(s.history, h).Some? {
      UntriedIsBeforeScan(s.history, h);
    }
  }

  /** In any run, whenever the renewal loop comes to a host whose last attempt was the n-th failure
      in a row, it has waited the n-th backoff, less a millisecond, unless somebody has tried the
      host since the loop's scan. */
  lemma GapAtLeastBackoff(events: seq<Event>, at: Instant, o: Outcome)
    requires CanRun(FRESH, events) && Enabled(Run(FRESH, events), TryNext(at, o))
    requires !TriedSinceScan(Run(FRESH, events).history, Run(FRESH, events).pending[0])
    ensures var s := Run(FRESH, events);
            var f := LastFailure(s.history, s.pending[0]);
            f.Some? ==> LongEnough(f.value, at)
  {
    RunInv(FRESH, events);
    TurnWaited(Run(FRESH, events), at, o);
  }

  // ---- when a failure holds the loop back ----

  /** An attempt on the host, a forced renewal, or the deletion of its domain. */
  predicate Touches(s: State, e: Event, host: string) {
    || (e.TryByHand? && e.host == host)
    || (e.Force? && e.host == host)
    || (e.Untrack? && e.host == host)
    || (e.TryNext? && s.pending != [] && s.pending[0] == host)
  }

  predicate Untouched(s: State, events: seq<Event>, host: string)
    requires CanRun(s, events)
    decreases |events|
  {
    events == [] || (!Touches(s, events[0], host) && Untouched(Step(s, events[0]), events[1..], host))
  }

  /** The loop's next attempt on the host waits for the backoff, whatever happens to other hosts,
      at further scans and restarts, and whenever its turn comes. */
  ghost predicate HoldsBack(s: State, host: string, f: Failure)
    requires f.streak >= 1
  {
    forall events, at, o ::
      CanRun(s, events) && Untouched(s, events, host)
      && Enabled(Run(s, events), TryNext(at, o)) && Run(s, events).pending[0] == host
      ==> LongEnough(f, at)
  }

  /** The host failed last, and is in the loop's list only by a scan since. */
  predicate Barred(s: State, host: string, f: Failure) {
    LastFailure(s.history, host) == Some(f) && (host in s.pending ==> !TriedSinceScan(s.history, host))
  }

  lemma StepBarred(s: State, e: Event, host: string, f: Failure)
    requires Enabled(s, e) && Barred(s, host, f) && !Touches(s, e, host)
    ensures Barred(Step(s, e), host, f)
  {
  }

  lemma {:induction false} RunBarred(s: State, events: seq<Event>, host: string, f: Failure)
    requires CanRun(s, events) && Barred(s, host, f) && Untouched(s, events, host)
    ensures Barred(Run(s, events), host, f)
    decreases |events|
  {
    if events != [] {
      StepBarred(s, events[0], host, f);
      RunBarred(Step(s, events[0]), events[1..], host, f);
    }
  }

  /** The loop's list names rows of the table, each once. */
  ghost predicate Orderly(s: State) {
    s.clock >= 0 && NoDuplicates(s.pending) && forall h :: h in s.pending ==> h in s.rows
  }

  lemma {:induction false} WithoutDistinct(hosts: seq<string>, host: string)
    requires NoDuplicates(hosts)
    ensures NoDuplicates(Without(hosts, host))
  {
    if hosts != [] {
      WithoutDistinct(hosts[1..], host);
      assert hosts[0] !in hosts[1..];
    }
  }

  lemma StepOrderly(s: State, e: Event)
    requires Orderly(s) && Enabled(s, e)
    ensures Orderly(Step(s, e))
  {
    if e.Untrack? {
      WithoutDistinct(s.pending, e.host);
    }
  }

  lemma {:induction false} RunOrderly(s: State, events: seq<Event>)
    requires Orderly(s) && CanRun(s, events)
    ensures Orderly(Run(s, events))
    decreases |events|
  {
    if events != [] {
      StepOrderly(s, events[0]);
      RunOrderly(Step(s, events[0]), events[1..]);
    }
  }

  /** An outcome whose renewal time can be stored at any time: a certificate long expired. */
  const EXPIRED := Issued(0, 0)

  lemma ExpiredStored(failures: nat, at: Instant)
    requires at >= 0
    ensures Next(failures, at, EXPIRED) == 0 && InRange(Next(failures, at, EXPIRED))
  {
  }

  /** The loop gets to a host in its list without delay. */
  lemma {:induction false} TurnAtOnce(s: State, host: string) returns (events: seq<Event>)
    requires Orderly(s) && host in s.pending
    ensures CanRun(s, events) && Untouched(s, events, host)
    ensures var s' := Run(s, events);
            s'.clock == s.clock && s'.pending != [] && s'.pending[0] == host && Enabled(s', TryNext(s.clock, EXPIRED))
    decreases |s.pending|
  {
    ExpiredStored(Count(s.failures, s.pending[0]), s.clock);
    if s.pending[0] == host {
      events := [];
    } else {
      var e := TryNext(s.clock, EXPIRED);
      assert host in s.pending[1..];
      StepOrderly(s, e);
      var rest := TurnAtOnce(Step(s, e), host);
      events := [e] + rest;
      assert events[1..] == rest;
    }
  }

  lemma FailureIsLast(s: State, host: string, at: Instant, o: Outcome)
    requires CanAttempt(s, host, at, o) && Failed(o)
    ensures LastFailure(Attempt(s, host, at, o).history, host) == Some(Failure(at, Streak(s.history, host) + 1))
  {
  }

  lemma BarredHoldsBack(s: State, host: string, f: Failure)
    requires Inv(s) && f.streak >= 1 && Barred(s, host, f)
    ensures HoldsBack(s, host, f)
  {
    forall rest, at, o | CanRun(s, rest) && Untouched(s, rest, host)
      && Enabled(Run(s, rest), TryNext(at, o)) && Run(s, rest).pending[0] == host
      ensures LongEnough(f, at)
    {
      RunBarred(s, rest, host, f);
      RunInv(s, rest);
      TurnWaited(Run(s, rest), at, o);
    }
  }

  lemma ListedIsRetried(s: State, host: string, f: Failure)
    requires Orderly(s) && f.streak >= 1 && f.at == s.clock && host in s.pending
    ensures !HoldsBack(s, host, f)
  {
    var rest := TurnAtOnce(s, host);
    assert Enabled(Run(s, rest), TryNext(s.clock, EXPIRED)) && !LongEnough(f, s.clock);
  }

  /** After the n-th failure in a row on a host, by hand or by the loop, the loop's next attempt on
      it waits the n-th backoff, less a millisecond, exactly if the host is not in the list that the
      loop is working off. In the list, it can be tried again in the same instant. */
  lemma FailureHoldsBackExactly(events: seq<Event>, e: Event, host: string, at: Instant, o: Outcome)
    requires CanRun(FRESH, events) && Enabled(Run(FRESH, events), e) && Failed(o)
    requires e == TryByHand(host, at, o) || (e == TryNext(at, o) && host == Run(FRESH, events).pending[0])
    ensures var s := Step(Run(FRESH, events), e);
            HoldsBack(s, host, Failure(at, Streak(Run(FRESH, events).history, host) + 1)) <==> host !in s.pending
  {
    var before := Run(FRESH, events);
    var s, f := Step(before, e), Failure(at, Streak(before.history, host) + 1);
    FailureIsLast(before, host, at, o);
    if host in s.pending {
      RunOrderly(FRESH, events);
      StepOrderly(before, e);
      ListedIsRetried(s, host, f);
    } else {
      RunInv(FRESH, events);
      StepInv(before, e);
      BarredHoldsBack(s, host, f);
    }
  }

  /** So a failure of the loop's own always holds it back. */
  lemma OwnFailureHoldsBack(events: seq<Event>, at: Instant, o: Outcome)
    requires CanRun(FRESH, events) && Enabled(Run(FRESH, events), TryNext(at, o)) && Failed(o)
    ensures var s := Run(FRESH, events);
            var host := s.pending[0];
            HoldsBack(Step(s, TryNext(at, o)), host, Failure(at, Streak(s.history, host) + 1))
  {
    var s := Run(FRESH, events);
    RunOrderly(FRESH, events);
    assert s.pending[0] !in s.pending[1..];
    FailureHoldsBackExactly(events, TryNext(at, o), s.pending[0], at, o);
  }

  /** The race: an administrator's attempt fails while the host is in the loop's list, and the loop
      tries again without any wait. */
  lemma LoopCanRetryAtOnce(host: string)
    ensures var events := [Track(host), Scan(0, [host]), TryByHand(host, 0, IssuerFailed)];
            && CanRun(FRESH, events)
            && var s := Run(FRESH, events);
               && Enabled(s, TryNext(0, IssuerFailed)) && s.pending[0] == host
               && LastFailure(s.history, host) == Some(Failure(0, 1))
  {
    var s1 := Step(FRESH, Track(host));
    var s2 := Step(s1, Scan(0, [host]));
    var s3 := Step(s2, TryByHand(host, 0, IssuerFailed));
    Unroll(s2, [TryByHand(host, 0, IssuerFailed)]);
    Unroll(s1, [Scan(0, [host]), TryByHand(host, 0, IssuerFailed)]);
    Unroll(FRESH, [Track(host), Scan(0, [host]), TryByHand(host, 0, IssuerFailed)]);
    FailureIsLast(s2, host, 0, IssuerFailed);
    assert Streak(s2.history, host) == 0;
  }

  function Recreated(host: string, at: Instant): seq<Event> {
    [Untrack(host), Track(host), Scan(at, [host])]
  }

  lemma RecreatedRuns(s: State, host: string)
    requires s.pending == [] && s.rows.Keys == {host} && InRange(s.clock)
    ensures CanRun(s, Recreated(host, s.clock))
    ensures var s' := Run(s, Recreated(host, s.clock));
            && s'.pending == [host] && s'.clock == s.clock && s'.failures == s.failures && host in s'.rows
            && s'.history == Then(Then(s.history, Untracked(host)), Scanned(s.clock))
  {
    var s1 := Step(s, Untrack(host));
    var s2 := Step(s1, Track(host));
    Unroll(s2, [Scan(s.clock, [host])]);
    Unroll(s1, [Track(host), Scan(s.clock, [host])]);
    Unroll(s, Recreated(host, s.clock));
  }

  lemma FailedOnce(host: string)
    ensures var events := [Track(host), TryByHand(host, 0, IssuerFailed)];
            && CanRun(FRESH, events)
            && var s := Run(FRESH, events);
               s.pending == [] && s.clock == 0 && s.rows.Keys == {host} && Streak(s.history, host) == 1
               && Count(s.failures, host) == 1
  {
    var s1 := Step(FRESH, Track(host));
    Unroll(s1, [TryByHand(host, 0, IssuerFailed)]);
    Unroll(FRESH, [Track(host), TryByHand(host, 0, IssuerFailed)]);
  }

  /** After a failure, a certificate row deleted with its domain and created anew is due at once, and
      the failure still counts. */
  lemma RecreatedIsRetriedAtOnce(host: string)
    ensures var events := [Track(host), TryByHand(host, 0, IssuerFailed)] + Recreated(host, 0);
            && CanRun(FRESH, events)
            && var s := Run(FRESH, events);
               && s.pending != [] && s.pending[0] == host && Enabled(s, TryNext(0, IssuerFailed))
               && Streak(s.history, host) == Count(s.failures, host) == 1
  {
    FailedOnce(host);
    var before := [Track(host), TryByHand(host, 0, IssuerFailed)];
    RecreatedRuns(Run(FRESH, before), host);
    RunAppend(FRESH, before, Recreated(host, 0));
  }

  lemma {:induction false} RunAppend(s: State, a: seq<Event>, b: seq<Event>)
    requires CanRun(s, a) && CanRun(Run(s, a), b)
    ensures CanRun(s, a + b) && Run(s, a + b) == Run(Run(s, a), b)
    decreases |a|
  {
    if a == [] {
      assert a + b == b;
    } else {
      RunAppend(Step(s, a[0]), a[1..], b);
      assert (a + b)[0] == a[0] && (a + b)[1..] == a[1..] + b;
    }
  }

  lemma Unroll(s: State, events: seq<Event>)
    requires events != [] && Enabled(s, events[0])
    ensures CanRun(s, events) == CanRun(Step(s, events[0]), events[1..])
    ensures CanRun(s, events) ==> Run(s, events) == Run(Step(s, events[0]), events[1..])
  {
  }

  /** In any run, a failure sets the next wait from the length of the streak it extends, never
      below the wait before it; a success starts over. */
  lemma BackoffNeverShrinks(events: seq<Event>, e: Event, host: string, at: Instant, o: Outcome)
    requires CanRun(FRESH, events) && Enabled(Run(FRESH, events), e)
    requires e == TryByHand(host, at, o) || (e == TryNext(at, o) && host == Run(FRESH, events).pending[0])
    ensures var s, s' := Run(FRESH, events), Step(Run(FRESH, events), e);
            var n := Streak(s.history, host);
            && (Failed(o) ==>
                  && InRange(at + Backoff(n + 1))
                  && s'.rows[host].renewAfter == Some(at + Backoff(n + 1))
                  && LastFailure(s'.history, host) == Some(Failure(at, n + 1))
                  && (n > 0 ==> Backoff(n) <= Backoff(n + 1)))
            && (!Failed(o) ==> Streak(s'.history, host) == 0 && host !in s'.failures)
  {
    RunInv(FRESH, events);
    assert Count(Run(FRESH, events).failures, host) == Streak(Run(FRESH, events).history, host);
    var n := Streak(Run(FRESH, events).history, host);
    if n > 0 {
      BackoffGrows(n, n + 1);
    }
  }
}
