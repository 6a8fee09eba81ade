/** The session table: expiry is decided once by comparing parsed times (lookup) and
    once by comparing text (prune). A row is keyed by its token, because SHA-256 is
    taken to be injective. */
module Sessions {
  import opened Text
  import opened TimeFormat

  datatype UserType = Admin | Mailbox

  datatype Session = Session(id: string, userType: UserType, userId: int, expiresAt: string)

  type Rows = map<string, Session>

  datatype Call =
    | Create(token: string, userType: UserType, userId: int, ttl: int)
    | Lookup(token: string, want: UserType)
    | Delete(token: string)
    | Prune

  datatype Answer = Created | Rejected | Found(session: Session) | NotFound | Done

  /** A call and the reading of the clock it sees. */
  datatype Timed = Timed(at: Instant, call: Call) {
    predicate Valid() {
      InRange(at) && (call.Create? ==> InRange(at + call.ttl))
    }
  }

  // ---- the table ----

  /** Every expiry in the table was written by `FormatTime`. */
  ghost predicate Written(s: Session) {
    exists e :: InRange(e) && s.expiresAt == FormatTime(e)
  }

  predicate Expired(s: Session, now: Instant) {
    match ParseTime(s.expiresAt)
    case None => true
    case Some(ms) => now > ms * MILLI
  }

  function Pruned(rows: Rows, now: Instant): Rows
    requires InRange(now)
  {
    map id | id in rows && !Less(rows[id].expiresAt, FormatTime(now)) :: rows[id]
  }

  function NewSession(token: string, userType: UserType, userId: int, expiry: Instant): (s: Session)
    requires InRange(expiry)
    ensures Written(s)
  {
    Session(token, userType, userId, FormatTime(expiry))
  }

  function LookupIn(rows: Rows, now: Instant, token: string, want: UserType): (r: (Rows, Answer))
  {
    if token == "" || token !in rows || rows[token].userType != want then (rows, NotFound)
    else if Expired(rows[token], now) then (rows - {token}, NotFound)
    else (rows, Found(rows[token]))
  }

  function Step(rows: Rows, c: Timed): (r: (Rows, Answer))
    requires c.Valid()
  {
    match c.call
    case Create(token, userType, userId, ttl) =>
      if token in rows then (rows, Rejected)
      else (rows[token := NewSession(token, userType, userId, c.at + ttl)], Created)
    case Lookup(token, want) => LookupIn(rows, c.at, token, want)
    case Delete(token) => (rows - {token}, Done)
    case Prune => (Pruned(rows, c.at), Done)
  }

  class SessionStore {
    var rows: Rows

    constructor ()
      ensures rows == map[]
    {
      rows := map[];
    }

    method CreateSession(now: Instant, token: string, userType: UserType, userId: int, ttl: int) returns (ok: bool)
      requires InRange(now) && InRange(now + ttl)
      modifies this
      ensures (rows, if ok then Created else Rejected) == Step(old(rows), Timed(now, Create(token, userType, userId, ttl)))
    {
      var expires := FormatTime(now + ttl);
      ok := token !in rows;
      if ok {
        rows := rows[token := Session(token, userType, userId, expires)];
      }
    }

    method LookupSession(now: Instant, token: string, want: UserType) returns (r: Option<Session>)
      requires InRange(now)
      modifies this
      ensures (rows, if r.Some? then Found(r.value) else NotFound) == Step(old(rows), Timed(now, Lookup(token, want)))
      ensures r.Some? ==> r.value.userType == want && rows == old(rows)
    {
      if token == "" {
        return None;
      }
      if token !in rows {
        return None;
      }
      var session := rows[token];
      if session.userType != want {
        return None;
      }
      var expiry := ParseTime(session.expiresAt);
      if expiry.None? || now > expiry.value * MILLI {
        rows := rows - {token};
        return None;
      }
      return Some(session);
    }

    method DeleteSession(token: string)
      modifies this
      ensures rows == old(rows) - {token}
    {
      rows := rows - {token};
    }

    method PruneSessions(now: Instant)
      requires InRange(now)
      modifies this
      ensures rows == Step(old(rows), Timed(now, Prune)).0
    {
      var cutoff := FormatTime(now);
      rows := map id | id in rows && !Less(rows[id].expiresAt, cutoff) :: rows[id];
    }
  }

  // ---- pruning against lookups ----

  ghost predicate ValidRows(rows: Rows) {
    forall id :: id in rows ==> Written(rows[id])
  }

  /** The two tests differ by less than a millisecond, and never the wrong way round: a row that
      a prune deletes, no later lookup would have returned. */
  lemma PrunedIsExpired(id: string, userType: UserType, userId: int, e: Instant, p: Instant, now: Instant)
    requires InRange(e) && InRange(p) && p <= now
    ensures var s := NewSession(id, userType, userId, e);
            Less(s.expiresAt, FormatTime(p)) ==> Expired(s, now)
  {
    FormatTimeOrder(e, p);
    ParseFormatTime(e);
  }

  /** Conversely a prune leaves an expired row only inside the millisecond of its expiry. */
  lemma ExpiredIsPruned(id: string, userType: UserType, userId: int, e: Instant, now: Instant)
    requires InRange(e) && InRange(now)
    ensures var s := NewSession(id, userType, userId, e);
            Expired(s, now) && Millis(now) != Millis(e) <==> Less(s.expiresAt, FormatTime(now))
  {
    FormatTimeOrder(e, now);
    ParseFormatTime(e);
  }

  /** A prune leaves exactly the rows whose millisecond of expiry is not past, as they were. */
  lemma PrunedExactly(rows: Rows, now: Instant, id: string, e: Instant)
    requires InRange(now) && InRange(e) && id in rows && rows[id].expiresAt == FormatTime(e)
    ensures var rows' := Step(rows, Timed(now, Prune)).0;
            && (id in rows' <==> Millis(now) <= Millis(e))
            && (id in rows' ==> rows'[id] == rows[id])
            && rows'.Keys <= rows.Keys
  {
    FormatTimeOrder(e, now);
  }

  // ---- whole runs ----

  ghost predicate Timeline(calls: seq<Timed>) {
    && (forall i :: 0 <= i < |calls| ==> calls[i].Valid())
    && (forall i, j :: 0 <= i < j < |calls| ==> calls[i].at <= calls[j].at)
  }

  /** Tokens are 32 random bytes: no two sessions share one. */
  ghost predicate FreshTokens(rows: Rows, calls: seq<Timed>) {
    && (forall i :: 0 <= i < |calls| && calls[i].call.Create? ==> calls[i].call.token !in rows)
    && (forall i, j :: 0 <= i < j < |calls| && calls[i].call.Create? && calls[j].call.Create? ==>
          calls[i].call.token != calls[j].call.token)
  }

  function WithoutPrunes(calls: seq<Timed>): seq<Timed> {
    if calls == [] then []
    else (if calls[0].call.Prune? then [] else [calls[0]]) + WithoutPrunes(calls[1..])
  }

  /** The answers to every call that is not a prune. */
  function Answers(rows: Rows, calls: seq<Timed>): seq<Answer>
    requires forall i :: 0 <= i < |calls| ==> calls[i].Valid()
    decreases |calls|
  {
    if calls == [] then [] else
      var (rows', answer) := Step(rows, calls[0]);
      (if calls[0].call.Prune? then [] else [answer]) + Answers(rows', calls[1..])
  }

  /** `pruned` lacks only rows of `full` that have expired. */
  ghost predicate Behind(full: Rows, pruned: Rows, now: Instant) {
    && ValidRows(full)
    && (forall id :: id in pruned ==> id in full && pruned[id] == full[id])
    && (forall id :: id in full && id !in pruned ==> Expired(full[id], now))
  }

  lemma BehindLater(full: Rows, pruned: Rows, now: Instant, later: Instant)
    requires Behind(full, pruned, now) && now <= later
    ensures Behind(full, pruned, later)
  {
    forall id | id in full && id !in pruned
      ensures Expired(full[id], later)
    {
      assert Expired(full[id], now);
    }
  }

  lemma BehindPrune(full: Rows, pruned: Rows, now: Instant)
    requires InRange(now) && Behind(full, pruned, now)
    ensures Behind(full, Pruned(pruned, now), now)
  {
    forall id | id in full && id !in Pruned(pruned, now)
      ensures Expired(full[id], now)
    {
      if id in pruned {
        var s := full[id];
        var e :| InRange(e) && s.expiresAt == FormatTime(e);
        PrunedIsExpired(s.id, s.userType, s.userId, e, now, now);
      }
    }
  }

  lemma BehindInsert(full: Rows, pruned: Rows, now: Instant, token: string, session: Session)
    requires Behind(full, pruned, now) && token !in full && Written(session)
    ensures Behind(full[token := session], pruned[token := session], now)
  {
  }

  lemma BehindRemove(full: Rows, pruned: Rows, now: Instant, token: string)
    requires Behind(full, pruned, now)
    ensures Behind(full - {token}, pruned - {token}, now)
    ensures token !in pruned ==> Behind(full - {token}, pruned, now)
  {
  }

  lemma BehindLookup(full: Rows, pruned: Rows, now: Instant, token: string, want: UserType)
    requires Behind(full, pruned, now)
    ensures Behind(LookupIn(full, now, token, want).0, LookupIn(pruned, now, token, want).0, now)
    ensures LookupIn(full, now, token, want).1 == LookupIn(pruned, now, token, want).1
  {
    BehindRemove(full, pruned, now, token);
  }

  lemma BehindStep(full: Rows, pruned: Rows, c: Timed)
    requires c.Valid() && Behind(full, pruned, c.at) && !c.call.Prune?
    requires c.call.Create? ==> c.call.token !in full
    ensures Behind(Step(full, c).0, Step(pruned, c).0, c.at)
    ensures Step(full, c).1 == Step(pruned, c).1
  {
    match c.call
    case Create(token, userType, userId, ttl) =>
      var session := NewSession(token, userType, userId, c.at + ttl);
      BehindInsert(full, pruned, c.at, token, session);
    case Lookup(token, want) =>
      BehindLookup(full, pruned, c.at, token, want);
    case Delete(token) =>
      BehindRemove(full, pruned, c.at, token);
    case Prune =>
  }

  lemma WithoutPrunesValid(calls: seq<Timed>)
    requires forall i :: 0 <= i < |calls| ==> calls[i].Valid()
    ensures forall i :: 0 <= i < |WithoutPrunes(calls)| ==> WithoutPrunes(calls)[i].Valid()
  {
  }

  lemma StepTokens(rows: Rows, c: Timed)
    requires c.Valid()
    ensures Step(rows, c).0.Keys <= rows.Keys + (if c.call.Create? then {c.call.token} else {})
  {
  }

  lemma FreshTokensAfter(rows: Rows, rows': Rows, calls: seq<Timed>)
    requires calls != [] && Timeline(calls) && FreshTokens(rows, calls)
    requires rows'.Keys <= rows.Keys + (if calls[0].call.Create? then {calls[0].call.token} else {})
    ensures Timeline(calls[1..]) && FreshTokens(rows', calls[1..])
  {
  }

  lemma {:induction false} PruneInvisibleFrom(full: Rows, pruned: Rows, calls: seq<Timed>)
    requires Timeline(calls) && FreshTokens(full, calls)
    requires calls != [] ==> Behind(full, pruned, calls[0].at)
    ensures forall i :: 0 <= i < |WithoutPrunes(calls)| ==> WithoutPrunes(calls)[i].Valid()
    ensures Answers(pruned, calls) == Answers(full, WithoutPrunes(calls))
    decreases |calls|
  {
    WithoutPrunesValid(calls);
    if calls != [] {
      var c, rest := calls[0], calls[1..];
      assert c.Valid();
      var full', pruned' := full, Step(pruned, c).0;
      if c.call.Prune? {
        assert WithoutPrunes(calls) == WithoutPrunes(rest);
        BehindPrune(full, pruned, c.at);
      } else {
        assert WithoutPrunes(calls)[0] == c && WithoutPrunes(calls)[1..] == WithoutPrunes(rest);
        BehindStep(full, pruned, c);
        full' := Step(full, c).0;
        StepTokens(full, c);
      }
      FreshTokensAfter(full, full', calls);
      if rest != [] {
        BehindLater(full', pruned', c.at, rest[0].at);
      }
      PruneInvisibleFrom(full', pruned', rest);
    }
  }

  /** Over any run of the table with a clock that does not run backwards, dropping every
      prune changes no answer. */
  lemma PruneInvisible(rows: Rows, calls: seq<Timed>)
    requires ValidRows(rows) && Timeline(calls) && FreshTokens(rows, calls)
    ensures forall i :: 0 <= i < |WithoutPrunes(calls)| ==> WithoutPrunes(calls)[i].Valid()
    ensures Answers(rows, calls) == Answers(rows, WithoutPrunes(calls))
  {
    PruneInvisibleFrom(rows, rows, calls);
  }

  // ---- how long a session lasts ----

  function After(rows: Rows, calls: seq<Timed>): Rows
    requires forall i :: 0 <= i < |calls| ==> calls[i].Valid()
    decreases |calls|
  {
    if calls == [] then rows else After(Step(rows, calls[0]).0, calls[1..])
  }

  /** The session as it was stored, or gone after its millisecond of expiry. */
  predicate Lasts(rows: Rows, session: Session, expiry: Instant, now: Instant) {
    if session.id in rows then rows[session.id] == session else now > Millis(expiry) * MILLI
  }

  lemma StoredExpiry(session: Session, expiry: Instant, now: Instant)
    requires InRange(expiry) && session.expiresAt == FormatTime(expiry)
    ensures Expired(session, now) <==> now > Millis(expiry) * MILLI
    ensures InRange(now) && Less(session.expiresAt, FormatTime(now)) ==> Expired(session, now)
  {
    ParseFormatTime(expiry);
    if InRange(now) {
      FormatTimeOrder(expiry, now);
    }
  }

  /** Neither makes a session under the token nor deletes it. */
  predicate LeavesAlone(c: Timed, token: string) {
    (c.call.Create? || c.call.Delete?) ==> c.call.token != token
  }

  lemma StepLasts(rows: Rows, c: Timed, session: Session, expiry: Instant, now: Instant)
    requires c.Valid() && LeavesAlone(c, session.id) && now <= c.at
    requires InRange(expiry) && session.expiresAt == FormatTime(expiry) && Lasts(rows, session, expiry, now)
    ensures Lasts(Step(rows, c).0, session, expiry, c.at)
  {
    StoredExpiry(session, expiry, c.at);
  }

  lemma {:induction false} RunLasts(rows: Rows, calls: seq<Timed>, session: Session, expiry: Instant, now: Instant, later: Instant)
    requires Timeline(calls) && (forall i :: 0 <= i < |calls| ==> LeavesAlone(calls[i], session.id))
    requires calls != [] ==> now <= calls[0].at && calls[|calls| - 1].at <= later
    requires now <= later
    requires InRange(expiry) && session.expiresAt == FormatTime(expiry) && Lasts(rows, session, expiry, now)
    ensures Lasts(After(rows, calls), session, expiry, later)
    decreases |calls|
  {
    if calls != [] {
      StepLasts(rows, calls[0], session, expiry, now);
      RunLasts(Step(rows, calls[0]).0, calls[1..], session, expiry, calls[0].at, later);
    }
  }

  lemma LastingAnswer(rows: Rows, asked: Timed, session: Session, expiry: Instant)
    requires asked.Valid() && asked.call.Lookup? && asked.call.token == session.id != ""
    requires InRange(expiry) && session.expiresAt == FormatTime(expiry) && Lasts(rows, session, expiry, asked.at)
    ensures Step(rows, asked).1 ==
            if asked.call.want == session.userType && asked.at <= Millis(expiry) * MILLI then Found(session) else NotFound
  {
    StoredExpiry(session, expiry, asked.at);
  }

  /** The session a call to create one asks for, and when it expires. */
  predicate Asks(made: Timed, session: Session, expiry: Instant) {
    && made.call == Create(session.id, session.userType, session.userId, expiry - made.at)
    && InRange(expiry) && session.expiresAt == FormatTime(expiry)
  }

  lemma MadeLasts(rows: Rows, made: Timed, session: Session, expiry: Instant)
    requires made.Valid() && Asks(made, session, expiry) && session.id !in rows
    ensures Lasts(Step(rows, made).0, session, expiry, made.at)
  {
  }

  lemma LastsThenAnswer(rows: Rows, now: Instant, between: seq<Timed>, asked: Timed, session: Session, expiry: Instant)
    requires asked.Valid() && Timeline(between) && now <= asked.at
    requires between != [] ==> now <= between[0].at && between[|between| - 1].at <= asked.at
    requires asked.call.Lookup? && asked.call.token == session.id != ""
    requires forall i :: 0 <= i < |between| ==> LeavesAlone(between[i], session.id)
    requires InRange(expiry) && session.expiresAt == FormatTime(expiry) && Lasts(rows, session, expiry, now)
    ensures Step(After(rows, between), asked).1 ==
            if asked.call.want == session.userType && asked.at <= Millis(expiry) * MILLI then Found(session) else NotFound
  {
    RunLasts(rows, between, session, expiry, now, asked.at);
    LastingAnswer(After(rows, between), asked, session, expiry);
  }

  /** In any run, with prunes and other lookups between, a session is found by lookups of its type up
      to the millisecond of its creation plus its time to live, with its user, and never after; unless
      it was deleted. Lookups of the other type never find it. */
  lemma FoundUntilExpiry(rows: Rows, made: Timed, between: seq<Timed>, asked: Timed, session: Session, expiry: Instant)
    requires made.Valid() && Asks(made, session, expiry) && session.id !in rows
    requires asked.Valid() && asked.call.Lookup? && asked.call.token == session.id != ""
    requires Timeline(between) && made.at <= asked.at
    requires between != [] ==> made.at <= between[0].at && between[|between| - 1].at <= asked.at
    requires forall i :: 0 <= i < |between| ==> LeavesAlone(between[i], session.id)
    ensures Step(After(Step(rows, made).0, between), asked).1 ==
            if asked.call.want == session.userType && asked.at <= Millis(expiry) * MILLI then Found(session) else NotFound
  {
    MadeLasts(rows, made, session, expiry);
    LastsThenAnswer(Step(rows, made).0, made.at, between, asked, session, expiry);
  }

  /** A deleted session is never found again, as no session is made under its token twice. */
  lemma DeletedIsGone(rows: Rows, deleted: Timed, between: seq<Timed>, asked: Timed)
    requires deleted.Valid() && asked.Valid() && asked.call.Lookup? && deleted.call == Delete(asked.call.token)
    requires forall i :: 0 <= i < |between| ==> between[i].Valid()
    requires forall i :: 0 <= i < |between| && between[i].call.Create? ==> between[i].call.token != asked.call.token
    ensures Step(After(Step(rows, deleted).0, between), asked).1 == NotFound
  {
    AbsentIsNotFound(Step(rows, deleted).0, between, asked);
  }

  lemma {:induction false} AbsentIsNotFound(rows: Rows, between: seq<Timed>, asked: Timed)
    requires (forall i :: 0 <= i < |between| ==> between[i].Valid()) && asked.Valid() && asked.call.Lookup?
    requires asked.call.token !in rows
    requires forall i :: 0 <= i < |between| && between[i].call.Create? ==> between[i].call.token != asked.call.token
    ensures Step(After(rows, between), asked).1 == NotFound
    decreases |between|
  {
    if between != [] {
      AbsentIsNotFound(Step(rows, between[0]).0, between[1..], asked);
    }
  }
}
