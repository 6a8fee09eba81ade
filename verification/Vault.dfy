/** The credential vault: mailbox passwords held in memory beside the session table and
    swept against it. Logins, logouts, password changes and sweeps run concurrently; a step
    is one call on the session table or one section under the vault's mutex, except that a
    sweep's section is split further, because the table moves on while it holds the mutex. */
module Vault {
  import opened Text
  import opened TimeFormat
  import opened Sessions

  datatype Credentials = Credentials(email: string, password: string)

  type Creds = map<string, Credentials>

  type Thread = nat

  datatype Pc =
    | Idle
    | Storing(id: string, creds: Credentials) // a row was made or seen; the vault entry is not written yet
    | LoggingOut(id: string)                  // nothing deleted yet
    | Forgotten(id: string)                   // vault entry deleted; the row is next
    | Swept                                   // expired rows pruned; waiting for the mutex

  datatype Mutex =
    | Free
    | Held(sweeper: Thread)                        // by a sweep about to query
    | Sweeping(sweeper: Thread, was: Creds, live: set<string>, todo: set<string>)

  /** `issued` is every token ever handed out, with the type of its session. */
  datatype State = State(rows: Rows, creds: Creds, issued: map<string, UserType>, threads: map<Thread, Pc>, mutex: Mutex) {
    function Pc(t: Thread): Pc {
      if t in threads then threads[t] else Idle
    }
  }

  const START := State(map[], map[], map[], map[], Free)

  datatype Event =
    | CreateRow(t: Thread, now: Instant, token: string, userType: UserType, userId: int, ttl: int, login: Option<Credentials>)
    | Change(t: Thread, now: Instant, token: string, creds: Credentials)
    | Store(t: Thread)
    | Logout(t: Thread, token: string)
    | Forget(t: Thread)
    | DeleteRow(t: Thread)
    | Resolve(now: Instant, token: string, want: UserType)
    | Prune(t: Thread, now: Instant)
    | Lock(t: Thread)
    | Query
    | QueryFails
    | Visit(id: string)
    | Unlock

  function Live(rows: Rows): set<string> {
    set id | id in rows && rows[id].userType == Mailbox
  }

  function Restrict(creds: Creds, ids: set<string>): Creds {
    map id | id in creds && id in ids :: creds[id]
  }

  /** Tokens are 32 random bytes, taken never to repeat; only mailbox logins carry a password. */
  predicate Enabled(s: State, e: Event) {
    match e
    case CreateRow(t, now, token, userType, _, ttl, login) =>
      && s.Pc(t) == Idle && token !in s.issued
      && InRange(now) && InRange(now + ttl) && (login.Some? ==> userType == Mailbox)
    case Change(t, now, token, _) =>
      s.Pc(t) == Idle && InRange(now) && LookupIn(s.rows, now, token, Mailbox).1.Found?
    case Store(t) => s.Pc(t).Storing? && s.mutex == Free
    case Logout(t, _) => s.Pc(t) == Idle
    case Forget(t) => s.Pc(t).LoggingOut? && s.mutex == Free
    case DeleteRow(t) => s.Pc(t).Forgotten?
    case Resolve(now, _, _) => InRange(now)
    case Prune(t, now) => s.Pc(t) == Idle && InRange(now)
    case Lock(t) => s.Pc(t) == Swept && s.mutex == Free
    case Query => s.mutex.Held?
    case QueryFails => s.mutex.Held?
    case Visit(id) => s.mutex.Sweeping? && id in s.mutex.todo
    case Unlock => s.mutex.Sweeping? && s.mutex.todo == {}
  }

  function Step(s: State, e: Event): State
    requires Enabled(s, e)
  {
    match e
    case CreateRow(t, now, token, userType, userId, ttl, login) =>
      s.(rows := s.rows[token := NewSession(token, userType, userId, now + ttl)],
         issued := s.issued[token := userType],
         threads := s.threads[t := if login.Some? then Storing(token, login.value) else Idle])
    case Change(t, _, token, creds) => s.(threads := s.threads[t := Storing(token, creds)])
    case Store(t) => s.(creds := s.creds[s.Pc(t).id := s.Pc(t).creds], threads := s.threads[t := Idle])
    case Logout(t, token) => s.(threads := s.threads[t := LoggingOut(token)])
    case Forget(t) => s.(creds := s.creds - {s.Pc(t).id}, threads := s.threads[t := Forgotten(s.Pc(t).id)])
    case DeleteRow(t) => s.(rows := s.rows - {s.Pc(t).id}, threads := s.threads[t := Idle])
    case Resolve(now, token, want) => s.(rows := LookupIn(s.rows, now, token, want).0)
    case Prune(t, now) => s.(rows := Pruned(s.rows, now), threads := s.threads[t := Swept])
    case Lock(t) => s.(mutex := Held(t))
    case Query => s.(mutex := Sweeping(s.mutex.sweeper, s.creds, Live(s.rows), s.creds.Keys))
    case QueryFails => s.(mutex := Free, threads := s.threads[s.mutex.sweeper := Idle])
    case Visit(id) =>
      s.(creds := if id in s.mutex.live then s.creds else s.creds - {id},
         mutex := s.mutex.(todo := s.mutex.todo - {id}))
    case Unlock => s.(mutex := Free, threads := s.threads[s.mutex.sweeper := Idle])
  }

  predicate CanRun(s: State, events: seq<Event>)
    decreases |events|
  {
    events == [] || (Enabled(s, events[0]) && CanRun(Step(s, events[0]), events[1..]))
  }

  function Run(s: State, events: seq<Event>): State
    requires CanRun(s, events)
    decreases |events|
  {
    if events == [] then s else Run(Step(s, events[0]), events[1..])
  }

  // ---- the invariant ----

  predicate IssuedTo(s: State, id: string, userType: UserType) {
    id in s.issued && s.issued[id] == userType
  }

  ghost predicate RowsIssued(s: State) {
    forall id :: id in s.rows ==> IssuedTo(s, id, s.rows[id].userType)
  }

  /** A vault entry, or one about to be written, belongs to a mailbox session whose row came first. */
  ghost predicate CredsIssued(s: State) {
    && (forall id :: id in s.creds ==> IssuedTo(s, id, Mailbox))
    && (forall t :: s.Pc(t).Storing? ==> IssuedTo(s, s.Pc(t).id, Mailbox))
  }

  /** While a sweep runs: what it has left, what it may still drop, and that none of that has a row. */
  ghost predicate SweepSound(s: State) {
    s.mutex.Sweeping? ==>
      && s.creds == Restrict(s.mutex.was, s.mutex.live + s.mutex.todo)
      && (forall id :: id in s.mutex.was ==> id in s.issued)
      && (forall id :: id in s.mutex.was && id !in s.mutex.live ==> id !in s.rows)
  }

  ghost predicate Inv(s: State) {
    RowsIssued(s) && CredsIssued(s) && SweepSound(s)
  }

  lemma StepIssued(s: State, e: Event)
    requires Inv(s) && Enabled(s, e)
    ensures RowsIssued(Step(s, e)) && CredsIssued(Step(s, e))
  {
    var s' := Step(s, e);
    forall t | s'.Pc(t).Storing?
      ensures IssuedTo(s', s'.Pc(t).id, Mailbox)
    {
      assert s'.Pc(t) == s.Pc(t) || (e.CreateRow? && e.t == t) || (e.Change? && e.t == t);
    }
    assert forall id :: id in s'.creds ==> id in s.creds || (e.Store? && id == s.Pc(e.t).id);
  }

  lemma StepSweepSound(s: State, e: Event)
    requires Inv(s) && Enabled(s, e)
    ensures SweepSound(Step(s, e))
  {
    var s' := Step(s, e);
    if e.Query? {
      assert s'.creds == Restrict(s.creds, Live(s.rows) + s.creds.Keys);
    } else if e.Visit? {
      var m := s.mutex;
      if e.id in m.live {
        assert m.live + m.todo == m.live + (m.todo - {e.id});
      } else {
        assert s'.creds == Restrict(m.was, m.live + (m.todo - {e.id}));
      }
    }
  }

  lemma {:induction false} RunInv(s: State, events: seq<Event>)
    requires Inv(s) && CanRun(s, events)
    ensures Inv(Run(s, events))
    decreases |events|
  {
    if events != [] {
      StepIssued(s, events[0]);
      StepSweepSound(s, events[0]);
      RunInv(Step(s, events[0]), events[1..]);
    }
  }

  // ---- what a sweep may drop ----

  /** A session whose row is gone stays gone. */
  lemma {:induction false} GoneForGood(s: State, events: seq<Event>, id: string)
    requires CanRun(s, events) && id in s.issued && id !in s.rows
    ensures id in Run(s, events).issued && id !in Run(s, events).rows
    decreases |events|
  {
    if events != [] {
      GoneForGood(Step(s, events[0]), events[1..], id);
    }
  }

  /** In any interleaving, a vault entry vanishes only because its own session logs out, or
      because no row is left for it: then, or ever after. */
  lemma OnlyDeadEntriesDropped(events: seq<Event>, e: Event, later: seq<Event>, id: string)
    requires CanRun(START, events)
    requires Enabled(Run(START, events), e) && CanRun(Step(Run(START, events), e), later)
    requires id in Run(START, events).creds && id !in Step(Run(START, events), e).creds
    ensures var s := Run(START, events);
            || (e.Forget? && s.Pc(e.t) == LoggingOut(id))
            || (e == Visit(id) && id !in s.rows && id !in Run(Step(s, e), later).rows)
  {
    RunInv(START, events);
    var s := Run(START, events);
    if e.Visit? {
      GoneForGood(Step(s, e), later, id);
    }
  }

  lemma {:induction false} SweepHolds(s: State, events: seq<Event>)
    requires s.mutex.Sweeping? && CanRun(s, events) && Unlock !in events
    ensures var m := Run(s, events).mutex;
            m.Sweeping? && m.was == s.mutex.was && m.live == s.mutex.live
    decreases |events|
  {
    if events != [] {
      assert events[0] in events;
      SweepHolds(Step(s, events[0]), events[1..]);
    }
  }

  lemma SweepEnds(s: State, during: seq<Event>)
    requires Inv(s) && s.mutex.Sweeping? && CanRun(s, during) && Unlock !in during
    requires Enabled(Run(s, during), Unlock)
    ensures Step(Run(s, during), Unlock).creds == Restrict(s.mutex.was, s.mutex.live)
  {
    RunInv(s, during);
    SweepHolds(s, during);
    assert s.mutex.live + {} == s.mutex.live;
  }

  /** Whatever runs beside it, a sweep leaves exactly the entries whose mailbox rows its query
      saw, each with the password it had. */
  lemma SweepLeavesLive(before: seq<Event>, during: seq<Event>)
    requires CanRun(START, before) && Enabled(Run(START, before), Query)
    requires CanRun(Step(Run(START, before), Query), during) && Unlock !in during
    requires Enabled(Run(Step(Run(START, before), Query), during), Unlock)
    ensures var s := Run(START, before);
            Step(Run(Step(s, Query), during), Unlock).creds == Restrict(s.creds, Live(s.rows))
  {
    RunInv(START, before);
    StepIssued(Run(START, before), Query);
    StepSweepSound(Run(START, before), Query);
    SweepEnds(Step(Run(START, before), Query), during);
  }

  // ---- what a session reads ----

  /** The credentials last stored for a session over a run, unless its logout has dropped them since. */
  function LastStored(s: State, events: seq<Event>, id: string, before: Option<Credentials>): Option<Credentials>
    requires CanRun(s, events)
    decreases |events|
  {
    if events == [] then before
    else
      var e := events[0];
      var now := if e.Store? && s.Pc(e.t).id == id then Some(s.Pc(e.t).creds)
                 else if e.Forget? && s.Pc(e.t).id == id then None
                 else before;
      LastStored(Step(s, e), events[1..], id, now)
  }

  /** The vault holds what was last stored, or the session has no row any more. */
  predicate Holds(s: State, id: string, stored: Option<Credentials>) {
    && (id in s.creds ==> stored == Some(s.creds[id]))
    && (id !in s.creds && stored.Some? ==> id in s.issued && id !in s.rows)
  }

  lemma {:induction false} RunHolds(s: State, events: seq<Event>, id: string, before: Option<Credentials>)
    requires Inv(s) && CanRun(s, events) && Holds(s, id, before)
    ensures Holds(Run(s, events), id, LastStored(s, events, id, before))
    decreases |events|
  {
    if events != [] {
      var e := events[0];
      StepIssued(s, e);
      StepSweepSound(s, e);
      var now := if e.Store? && s.Pc(e.t).id == id then Some(s.Pc(e.t).creds)
                 else if e.Forget? && s.Pc(e.t).id == id then None
                 else before;
      RunHolds(Step(s, e), events[1..], id, now);
    }
  }

  /** In every interleaving, a session whose row exists reads exactly the credentials last stored for
      it by its login or a password change, however many sweeps ran. */
  lemma LiveReadsLastStored(events: seq<Event>, id: string)
    requires CanRun(START, events) && id in Run(START, events).rows
    ensures var s := Run(START, events);
            LastStored(START, events, id, None) == if id in s.creds then Some(s.creds[id]) else None
  {
    RunHolds(START, events, id, None);
  }

  // ---- what a call gets done ----

  /** What a call of the thread still has to write stays with it, whatever runs beside it. */
  lemma {:induction false} StoringStays(s: State, during: seq<Event>, t: Thread, id: string, creds: Credentials)
    requires CanRun(s, during) && s.Pc(t) == Storing(id, creds) && Store(t) !in during
    requires s.mutex != Free ==> s.mutex.sweeper != t
    ensures Run(s, during).Pc(t) == Storing(id, creds)
    decreases |during|
  {
    if during != [] {
      assert during[0] in during;
      StoringStays(Step(s, during[0]), during[1..], t, id, creds);
    }
  }

  /** A login with a password, and a password change of a session that is found, have stored that
      password for the session once they are done, whatever ran in between. */
  lemma CallStores(before: seq<Event>, e: Event, during: seq<Event>, creds: Credentials)
    requires CanRun(START, before) && Enabled(Run(START, before), e)
    requires (e.CreateRow? && e.login == Some(creds)) || (e.Change? && e.creds == creds)
    requires CanRun(Step(Run(START, before), e), during) && Store(e.t) !in during
    requires Enabled(Run(Step(Run(START, before), e), during), Store(e.t))
    ensures var s := Step(Run(Step(Run(START, before), e), during), Store(e.t));
            e.token in s.creds && s.creds[e.token] == creds && s.Pc(e.t) == Idle
  {
    SweeperBusy(START, before);
    StoringStays(Step(Run(START, before), e), during, e.t, e.token, creds);
  }

  /** A thread that holds the mutex for a sweep does nothing else. */
  ghost predicate SweeperSweeps(s: State) {
    s.mutex != Free ==> s.Pc(s.mutex.sweeper) == Swept
  }

  lemma {:induction false} SweeperBusy(s: State, events: seq<Event>)
    requires CanRun(s, events) && SweeperSweeps(s)
    ensures SweeperSweeps(Run(s, events))
    decreases |events|
  {
    if events != [] {
      SweeperBusy(Step(s, events[0]), events[1..]);
    }
  }

  /** A sweep whose query fails drops nothing; one that ends, or fails, lets others at the vault. */
  lemma SweepLetsGo(s: State)
    ensures Enabled(s, QueryFails) ==>
              var s' := Step(s, QueryFails);
              s'.mutex == Free && s'.Pc(s.mutex.sweeper) == Idle && s'.creds == s.creds && s'.rows == s.rows
    ensures Enabled(s, Unlock) ==>
              var s' := Step(s, Unlock);
              s'.mutex == Free && s'.Pc(s.mutex.sweeper) == Idle && s'.creds == s.creds && s'.rows == s.rows
  {
  }

  /** A logout is under way, or its session has no row any more. */
  predicate LeavingOrGone(s: State, t: Thread, token: string) {
    s.Pc(t) == LoggingOut(token) || s.Pc(t) == Forgotten(token) || token !in s.rows
  }

  lemma StepLeaves(s: State, e: Event, t: Thread, token: string)
    requires Enabled(s, e) && SweeperSweeps(s) && token in s.issued && LeavingOrGone(s, t, token)
    ensures token in Step(s, e).issued && LeavingOrGone(Step(s, e), t, token)
  {
  }

  lemma {:induction false} RunLeaves(s: State, during: seq<Event>, t: Thread, token: string)
    requires CanRun(s, during) && SweeperSweeps(s) && token in s.issued && LeavingOrGone(s, t, token)
    ensures LeavingOrGone(Run(s, during), t, token)
    decreases |during|
  {
    if during != [] {
      StepLeaves(s, during[0], t, token);
      SweeperBusy(s, [during[0]]);
      RunLeaves(Step(s, during[0]), during[1..], t, token);
    }
  }

  /** Once a logout is done its session has no row, whatever ran beside it, and never has one again. */
  lemma LogoutEnds(before: seq<Event>, t: Thread, token: string, during: seq<Event>)
    requires CanRun(START, before) && Enabled(Run(START, before), Logout(t, token)) && token in Run(START, before).issued
    requires CanRun(Step(Run(START, before), Logout(t, token)), during)
    requires Run(Step(Run(START, before), Logout(t, token)), during).Pc(t) == Idle
    ensures token !in Run(Step(Run(START, before), Logout(t, token)), during).rows
  {
    SweeperBusy(START, before);
    var s := Step(Run(START, before), Logout(t, token));
    RunLeaves(s, during, t, token);
  }

  /** Left alone, a logout takes the entry and the row of its session, and no others. */
  lemma LogoutAlone(s: State, t: Thread, token: string)
    requires s.Pc(t) == Idle && s.mutex == Free
    ensures var s1 := Step(s, Logout(t, token));
            && Enabled(s1, Forget(t)) && Enabled(Step(s1, Forget(t)), DeleteRow(t))
            && var s' := Step(Step(s1, Forget(t)), DeleteRow(t));
               s'.creds == s.creds - {token} && s'.rows == s.rows - {token} && s'.Pc(t) == Idle
  {
  }

  // ---- the calls themselves ----

  class SessionManager {
    const store: SessionStore
    var creds: Creds

    constructor (store: SessionStore)
      ensures this.store == store && creds == map[]
    {
      this.store := store;
      creds := map[];
    }

    method Login(now: Instant, token: string, userType: UserType, userId: int, ttl: int, login: Option<Credentials>) returns (ok: bool)
      requires InRange(now) && InRange(now + ttl)
      modifies this, store
      ensures (store.rows, if ok then Created else Rejected)
              == Sessions.Step(old(store.rows), Timed(now, Create(token, userType, userId, ttl)))
      ensures creds == if ok && login.Some? then old(creds)[token := login.value] else old(creds)
    {
      ok := store.CreateSession(now, token, userType, userId, ttl);
      if ok && login.Some? {
        creds := creds[token := login.value];
      }
    }

    method Logout(token: string)
      modifies this, store
      ensures creds == old(creds) - {token} && store.rows == old(store.rows) - {token}
    {
      creds := creds - {token};
      store.DeleteSession(token);
    }

    method SetCredentials(id: string, replacement: Credentials)
      modifies this
      ensures creds == old(creds)[id := replacement]
    {
      creds := creds[id := replacement];
    }

    method CredentialsFor(id: string) returns (r: Option<Credentials>)
      ensures r == if id in creds then Some(creds[id]) else None
    {
      if id in creds {
        r := Some(creds[id]);
      } else {
        r := None;
      }
    }

    /** Deletes the entries of sessions not in `live` one by one, in any order. */
    method Retain(live: set<string>)
      modifies this`creds
      ensures creds == Restrict(old(creds), live)
    {
      ghost var was := creds;
      var left := creds.Keys;
      while left != {}
        invariant left <= was.Keys
        invariant forall id :: id in creds <==> id in was && (id in left || id in live)
        invariant forall id :: id in creds ==> creds[id] == was[id]
        decreases |left|
      {
        var id :| id in left;
        if id !in live {
          creds := creds - {id};
        }
        left := left - {id};
      }
    }

    /** With nothing beside it, a sweep leaves the vault holding live mailbox sessions only. */
    method Sweep(now: Instant)
      requires InRange(now)
      modifies this, store
      ensures store.rows == Pruned(old(store.rows), now)
      ensures creds == Restrict(old(creds), Live(store.rows))
      ensures forall id :: id in creds <==> id in old(creds) && id in store.rows && store.rows[id].userType == Mailbox
    {
      store.PruneSessions(now);
      var live := set id | id in store.rows && store.rows[id].userType == Mailbox;
      Retain(live);
    }
  }
}
