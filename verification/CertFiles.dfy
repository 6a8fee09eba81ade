/** Certificate files on disk, the cache over them, and handshakes that run beside issuances.
    A step is one rename, one file read, or one section under a mutex. */
module CertFiles {
  import opened Text

  const DEFAULT := "_default"

  /** The certificate, or the private key, that one issuance made. Every issuance makes a new
      key, so two PEM files load as a pair exactly if they are of one issuance. */
  datatype Pem = Pem(host: string, serial: nat)

  type Files = map<string, Pem>

  type Thread = nat

  function Load(certs: Files, keys: Files, host: string): (r: Option<Pem>) {
    if host in certs && host in keys && certs[host] == keys[host] then Some(certs[host]) else None
  }

  function HostOf(serverName: string): string {
    ToLower(if serverName != "" && serverName[|serverName| - 1] == '.' then serverName[..|serverName| - 1] else serverName)
  }

  datatype Pc =
    | Idle
    // an issuance; `was` is the pair that loaded when it took the host's lock
    | Queued(host: string)
    | Working(host: string, was: Option<Pem>)
    | Ready(pem: Pem, was: Option<Pem>)
    | HalfWritten(pem: Pem, was: Option<Pem>)
    | Written(pem: Pem)
    | Cleared(host: string)
    // a handshake
    | Missed(host: string, fallback: Option<Pem>)
    | CertRead(host: string, fallback: Option<Pem>, cert: Option<Pem>)
    | PairRead(host: string, fallback: Option<Pem>, pair: Option<Pem>)
    | Answered(host: string, answer: Option<Pem>)

  /** `issued` is every pair ever made, `complete` those with both files renamed into place. */
  datatype State = State(certs: Files, keys: Files, cache: Files, fallback: Option<Pem>, locks: map<string, Thread>,
                         threads: map<Thread, Pc>, issued: set<Pem>, complete: set<Pem>) {
    function Pc(t: Thread): Pc {
      if t in threads then threads[t] else Idle
    }

    function At(t: Thread, pc: Pc): State {
      this.(threads := threads[t := pc])
    }

    function Unlocked(t: Thread, host: string): State {
      this.(threads := threads[t := Idle], locks := locks - {host})
    }

    function Pair(host: string): Option<Pem> {
      Load(certs, keys, host)
    }
  }

  const EMPTY := State(map[], map[], map[], None, map[], map[], {}, {})

  datatype Event =
    | Enqueue(t: Thread, host: string)
    | Acquire(t: Thread)
    | Abandon(t: Thread)                // the preflight or the certificate authority said no
    | Obtain(t: Thread, serial: nat)
    | RenameCert(t: Thread)
    | RenameKey(t: Thread)
    | FailWrite(t: Thread)              // the next rename, or what comes before it, failed
    | FailMark(t: Thread)               // the database refused
    | Clear(t: Thread)
    | Release(t: Thread)
    | InstallFallback(serial: nat)
    | Hello(t: Thread, serverName: string)
    | ReadCert(t: Thread)
    | ReadKey(t: Thread)
    | Finish(t: Thread)
    | Reply(t: Thread)
    | Crash

  predicate Enabled(s: State, e: Event) {
    match e
    case Enqueue(t, host) => s.Pc(t).Idle? && host != DEFAULT && host != ""
    case Acquire(t) => s.Pc(t).Queued? && s.Pc(t).host !in s.locks
    case Abandon(t) => s.Pc(t).Working?
    case Obtain(t, serial) => s.Pc(t).Working? && Pem(s.Pc(t).host, serial) !in s.issued
    case RenameCert(t) => s.Pc(t).Ready?
    case RenameKey(t) => s.Pc(t).HalfWritten?
    case FailWrite(t) => s.Pc(t).Ready? || s.Pc(t).HalfWritten?
    case FailMark(t) => s.Pc(t).Written?
    case Clear(t) => s.Pc(t).Written?
    case Release(t) => s.Pc(t).Cleared?
    case InstallFallback(serial) => Pem(DEFAULT, serial) !in s.issued
    case Hello(t, _) => s.Pc(t).Idle?
    case ReadCert(t) => s.Pc(t).Missed?
    case ReadKey(t) => s.Pc(t).CertRead?
    case Finish(t) => s.Pc(t).PairRead?
    case Reply(t) => s.Pc(t).Answered?
    case Crash => true
  }

  function Begin(s: State, host: string): Pc {
    if host in s.cache then Answered(host, Some(s.cache[host]))
    else if host == "" then Answered(host, s.fallback)
    else Missed(host, s.fallback)
  }

  function Step(s: State, e: Event): State
    requires Enabled(s, e)
  {
    match e
    case Enqueue(t, host) => s.At(t, Queued(host))
    case Acquire(t) =>
      var host := s.Pc(t).host;
      s.(locks := s.locks[host := t]).At(t, Working(host, s.Pair(host)))
    case Abandon(t) => s.Unlocked(t, s.Pc(t).host)
    case Obtain(t, serial) =>
      var pem := Pem(s.Pc(t).host, serial);
      s.(issued := s.issued + {pem}).At(t, Ready(pem, s.Pc(t).was))
    case RenameCert(t) =>
      var pem := s.Pc(t).pem;
      s.(certs := s.certs[pem.host := pem]).At(t, HalfWritten(pem, s.Pc(t).was))
    case RenameKey(t) =>
      var pem := s.Pc(t).pem;
      s.(keys := s.keys[pem.host := pem], complete := s.complete + {pem}).At(t, Written(pem))
    case FailWrite(t) => s.Unlocked(t, s.Pc(t).pem.host)
    case FailMark(t) => s.Unlocked(t, s.Pc(t).pem.host)
    case Clear(t) => s.(cache := s.cache - {s.Pc(t).pem.host}).At(t, Cleared(s.Pc(t).pem.host))
    case Release(t) => s.Unlocked(t, s.Pc(t).host)
    case InstallFallback(serial) =>
      var pem := Pem(DEFAULT, serial);
      if s.Pair(DEFAULT).Some? then s.(fallback := s.Pair(DEFAULT))
      else s.(certs := s.certs[DEFAULT := pem], keys := s.keys[DEFAULT := pem], fallback := Some(pem),
              issued := s.issued + {pem}, complete := s.complete + {pem})
    case Hello(t, serverName) => s.At(t, Begin(s, HostOf(serverName)))
    case ReadCert(t) =>
      var Missed(host, fallback) := s.Pc(t);
      s.At(t, CertRead(host, fallback, if host in s.certs then Some(s.certs[host]) else None))
    case ReadKey(t) =>
      var CertRead(host, fallback, cert) := s.Pc(t);
      var pair := if cert.Some? && host in s.keys && s.keys[host] == cert.value then cert else None;
      s.At(t, PairRead(host, fallback, pair))
    case Finish(t) =>
      var PairRead(host, fallback, pair) := s.Pc(t);
      if pair.Some? then s.(cache := s.cache[host := pair.value]).At(t, Answered(host, pair))
      else s.At(t, Answered(host, fallback))
    case Reply(t) => s.At(t, Idle)
    case Crash => s.(cache := map[], fallback := None, locks := map[], threads := map[])
  }

  predicate CanRun(s: State, events: seq<Event>)
    decreases |events|
  {
    events == [] || (Enabled(s, events[0]) && CanRun(Step(s, events[0]), events[1..]))
  }

  function Run(s: State, events: seq<Event>): State
    requires CanRun(s, events)
    decreases |events|
  {
    if events == [] then s else Run(Step(s, events[0]), events[1..])
  }

  // ---- the invariant ----

  /** A pair made for the host, with both files written. */
  predicate PairFor(s: State, host: string, pem: Pem) {
    pem.host == host && pem in s.complete
  }

  predicate FallbackOk(s: State, fallback: Option<Pem>) {
    fallback.Some? ==> PairFor(s, DEFAULT, fallback.value)
  }

  predicate AnswerOk(s: State, host: string, answer: Option<Pem>) {
    answer.Some? ==> PairFor(s, host, answer.value) || PairFor(s, DEFAULT, answer.value)
  }

  predicate FilesOk(s: State, host: string) {
    && (host in s.certs ==> s.certs[host].host == host)
    && (host in s.keys ==> PairFor(s, host, s.keys[host]))
  }

  predicate CacheOk(s: State, host: string) {
    host in s.cache ==> PairFor(s, host, s.cache[host])
  }

  predicate Holds(s: State, t: Thread, host: string) {
    host != DEFAULT && host in s.locks && s.locks[host] == t
  }

  /** What a thread may rely on between its steps. */
  predicate ThreadOk(s: State, t: Thread) {
    match s.Pc(t)
    case Idle => true
    case Queued(host) => host != DEFAULT
    case Working(host, was) => Holds(s, t, host) && s.Pair(host) == was
    case Ready(pem, was) =>
      Holds(s, t, pem.host) && s.Pair(pem.host) == was && pem in s.issued && pem !in s.complete
    case HalfWritten(pem, _) =>
      Holds(s, t, pem.host) && pem in s.issued && pem !in s.complete
      && pem.host in s.certs && s.certs[pem.host] == pem
    case Written(pem) => Holds(s, t, pem.host) && s.Pair(pem.host) == Some(pem) && pem in s.complete
    case Cleared(host) => Holds(s, t, host)
    case Missed(_, fallback) => FallbackOk(s, fallback)
    case CertRead(host, fallback, cert) => FallbackOk(s, fallback) && (cert.Some? ==> cert.value.host == host)
    case PairRead(host, fallback, pair) => FallbackOk(s, fallback) && (pair.Some? ==> PairFor(s, host, pair.value))
    case Answered(host, answer) => AnswerOk(s, host, answer)
  }

  ghost predicate Inv(s: State) {
    && s.complete <= s.issued
    && FallbackOk(s, s.fallback)
    && (forall h :: FilesOk(s, h) && CacheOk(s, h))
    && (forall t :: ThreadOk(s, t))
  }

  lemma StepFiles(s: State, e: Event, h: string)
    requires Inv(s) && Enabled(s, e)
    ensures FilesOk(Step(s, e), h)
  {
    assert FilesOk(s, h);
    Grows(s, e);
    if e.RenameCert? || e.RenameKey? {
      assert ThreadOk(s, e.t);
    }
  }

  lemma StepCache(s: State, e: Event, h: string)
    requires Inv(s) && Enabled(s, e)
    ensures CacheOk(Step(s, e), h)
  {
    assert CacheOk(s, h);
    Grows(s, e);
    if e.Finish? {
      assert ThreadOk(s, e.t);
    }
  }

  lemma StepFallback(s: State, e: Event)
    requires Inv(s) && Enabled(s, e)
    ensures Step(s, e).complete <= Step(s, e).issued
    ensures FallbackOk(Step(s, e), Step(s, e).fallback)
  {
    assert FilesOk(s, DEFAULT);
    if e.RenameKey? {
      assert ThreadOk(s, e.t);
    }
  }

  lemma Grows(s: State, e: Event)
    requires Enabled(s, e)
    ensures s.issued <= Step(s, e).issued && s.complete <= Step(s, e).complete
  {
  }

  predicate Reads(e: Event) {
    e.Hello? || e.ReadCert? || e.ReadKey? || e.Finish? || e.Reply?
  }

  lemma StepReader(s: State, e: Event)
    requires Inv(s) && Enabled(s, e) && Reads(e)
    ensures ThreadOk(Step(s, e), e.t)
  {
    assert ThreadOk(s, e.t);
    if e.Hello? {
      assert CacheOk(s, HostOf(e.serverName));
    } else if e.ReadCert? || e.ReadKey? {
      assert FilesOk(s, s.Pc(e.t).host);
    }
  }

  lemma StepSelf(s: State, e: Event)
    requires Inv(s) && Enabled(s, e) && !e.Crash? && !e.InstallFallback?
    ensures ThreadOk(Step(s, e), e.t)
  {
    assert ThreadOk(s, e.t);
    if Reads(e) {
      StepReader(s, e);
    }
  }

  predicate SameFiles(s: State, s': State, host: string) {
    && (host in s'.certs <==> host in s.certs) && (host in s.certs ==> s'.certs[host] == s.certs[host])
    && (host in s'.keys <==> host in s.keys) && (host in s.keys ==> s'.keys[host] == s.keys[host])
  }

  /** The lock keeps one host's files from every thread but its holder. */
  lemma LockedUntouched(s: State, e: Event, t: Thread, host: string)
    requires Inv(s) && Enabled(s, e) && !e.Crash? && (e.InstallFallback? || e.t != t) && Holds(s, t, host)
    ensures Holds(Step(s, e), t, host) && SameFiles(s, Step(s, e), host)
  {
    if !e.InstallFallback? {
      assert ThreadOk(s, e.t);
    }
  }

  lemma OnlyHolderCompletes(s: State, e: Event, t: Thread, pem: Pem)
    requires Inv(s) && Enabled(s, e) && !e.Crash? && (e.InstallFallback? || e.t != t) && Holds(s, t, pem.host)
    requires pem !in s.complete
    ensures pem !in Step(s, e).complete
  {
    if !e.InstallFallback? {
      assert ThreadOk(s, e.t);
    }
  }

  /** The host whose lock a thread holds, and the pair it is about to write. */
  function LockOf(pc: Pc): Option<string> {
    match pc
    case Working(host, _) => Some(host)
    case Ready(pem, _) => Some(pem.host)
    case HalfWritten(pem, _) => Some(pem.host)
    case Written(pem) => Some(pem.host)
    case Cleared(host) => Some(host)
    case _ => None
  }

  function PairOf(pc: Pc): Option<Pem> {
    match pc
    case Ready(pem, _) => Some(pem)
    case HalfWritten(pem, _) => Some(pem)
    case _ => None
  }

  /** Between the two states others have moved, and the thread has kept what is its own. */
  predicate Undisturbed(s: State, s': State, t: Thread) {
    var lock, pair := LockOf(s.Pc(t)), PairOf(s.Pc(t));
    && s'.Pc(t) == s.Pc(t) && s.issued <= s'.issued && s.complete <= s'.complete
    && (lock.Some? ==> Holds(s', t, lock.value) && SameFiles(s, s', lock.value))
    && (pair.Some? ==> pair.value !in s'.complete)
  }

  lemma UndisturbedOk(s: State, s': State, t: Thread)
    requires ThreadOk(s, t) && Undisturbed(s, s', t)
    ensures ThreadOk(s', t)
  {
  }

  lemma OthersMove(s: State, e: Event, t: Thread)
    requires Enabled(s, e) && !e.Crash? && (e.InstallFallback? || e.t != t)
    ensures Step(s, e).Pc(t) == s.Pc(t)
  {
  }

  lemma OkHolds(s: State, t: Thread)
    requires ThreadOk(s, t)
    ensures LockOf(s.Pc(t)).Some? ==> Holds(s, t, LockOf(s.Pc(t)).value)
    ensures PairOf(s.Pc(t)).Some? ==> PairOf(s.Pc(t)).value !in s.complete
    ensures PairOf(s.Pc(t)).Some? ==> LockOf(s.Pc(t)) == Some(PairOf(s.Pc(t)).value.host)
  {
  }

  lemma StepOther(s: State, e: Event, t: Thread)
    requires Inv(s) && Enabled(s, e) && !e.Crash? && (e.InstallFallback? || e.t != t)
    ensures ThreadOk(Step(s, e), t)
  {
    var lock, pair := LockOf(s.Pc(t)), PairOf(s.Pc(t));
    assert ThreadOk(s, t);
    OkHolds(s, t);
    Grows(s, e);
    OthersMove(s, e, t);
    if lock.Some? {
      LockedUntouched(s, e, t, lock.value);
    }
    if pair.Some? {
      OnlyHolderCompletes(s, e, t, pair.value);
    }
    UndisturbedOk(s, Step(s, e), t);
  }

  lemma StepInv(s: State, e: Event)
    requires Inv(s) && Enabled(s, e)
    ensures Inv(Step(s, e))
  {
    StepFallback(s, e);
    forall h
      ensures FilesOk(Step(s, e), h) && CacheOk(Step(s, e), h)
    {
      StepFiles(s, e, h);
      StepCache(s, e, h);
    }
    forall t
      ensures ThreadOk(Step(s, e), t)
    {
      if e.Crash? {
      } else if !e.InstallFallback? && e.t == t {
        StepSelf(s, e);
      } else {
        StepOther(s, e, t);
      }
    }
  }

  lemma {:induction false} RunInv(s: State, events: seq<Event>)
    requires Inv(s) && CanRun(s, events)
    ensures Inv(Run(s, events))
    decreases |events|
  {
    if events != [] {
      StepInv(s, events[0]);
      RunInv(Step(s, events[0]), events[1..]);
    }
  }

  // ---- the theorems ----

  /** In every interleaving a handshake is answered with nothing, with a complete pair made for
      its host, or with a complete fallback pair: never with halves of two issuances. */
  lemma EveryAnswerIsOnePair(events: seq<Event>, t: Thread)
    requires CanRun(EMPTY, events) && Run(EMPTY, events).Pc(t).Answered?
    ensures var s := Run(EMPTY, events); AnswerOk(s, s.Pc(t).host, s.Pc(t).answer)
  {
    RunInv(EMPTY, events);
    assert ThreadOk(Run(EMPTY, events), t);
  }

  // ---- locks ----

  /** A locked host is being worked on by the thread that locked it. */
  predicate LockUsed(s: State, host: string) {
    host in s.locks ==> LockOf(s.Pc(s.locks[host])) == Some(host)
  }

  lemma StepLockUsed(s: State, e: Event, host: string)
    requires Inv(s) && Enabled(s, e) && LockUsed(s, host)
    ensures LockUsed(Step(s, e), host)
  {
    if host in s.locks {
      assert ThreadOk(s, s.locks[host]);
    }
    if !e.InstallFallback? && !e.Crash? {
      assert ThreadOk(s, e.t);
    }
  }

  lemma {:induction false} RunLockUsed(s: State, events: seq<Event>, host: string)
    requires Inv(s) && CanRun(s, events) && LockUsed(s, host)
    ensures LockUsed(Run(s, events), host)
    decreases |events|
  {
    if events != [] {
      StepInv(s, events[0]);
      StepLockUsed(s, events[0], host);
      RunLockUsed(Step(s, events[0]), events[1..], host);
    }
  }

  /** In every interleaving an attempt that waits for its host can go ahead exactly if no other is at
      work on the host: however attempts end, none leaves the lock behind. */
  lemma WaitingCanGo(events: seq<Event>, t: Thread)
    requires CanRun(EMPTY, events) && Run(EMPTY, events).Pc(t).Queued?
    ensures var s := Run(EMPTY, events);
            Enabled(s, Acquire(t)) <==> forall u :: LockOf(s.Pc(u)) != Some(s.Pc(t).host)
  {
    RunInv(EMPTY, events);
    var s := Run(EMPTY, events);
    var host := s.Pc(t).host;
    RunLockUsed(EMPTY, events, host);
    if !Enabled(s, Acquire(t)) {
      assert LockOf(s.Pc(s.locks[host])) == Some(host);
    } else {
      forall u
        ensures LockOf(s.Pc(u)) != Some(host)
      {
        assert ThreadOk(s, u);
        OkHolds(s, u);
      }
    }
  }

  predicate TouchesCert(s: State, e: Event, host: string) {
    e.RenameCert? && s.Pc(e.t).Ready? && s.Pc(e.t).pem.host == host
  }

  predicate Quiet(s: State, events: seq<Event>, host: string)
    requires CanRun(s, events)
    decreases |events|
  {
    events == [] || (!TouchesCert(s, events[0], host) && Quiet(Step(s, events[0]), events[1..], host))
  }

  lemma QuietStep(s: State, e: Event, pem: Pem)
    requires Inv(s) && Enabled(s, e) && !TouchesCert(s, e, pem.host) && pem.host != DEFAULT
    requires s.Pair(pem.host) == Some(pem)
    ensures Step(s, e).Pair(pem.host) == Some(pem)
  {
    if e.RenameKey? {
      assert ThreadOk(s, e.t) && FilesOk(s, pem.host);
    }
  }

  lemma {:induction false} QuietKeepsPair(s: State, events: seq<Event>, pem: Pem)
    requires Inv(s) && CanRun(s, events) && Quiet(s, events, pem.host) && pem.host != DEFAULT
    requires s.Pair(pem.host) == Some(pem)
    ensures Run(s, events).Pair(pem.host) == Some(pem)
    decreases |events|
  {
    if events != [] {
      StepInv(s, events[0]);
      QuietStep(s, events[0], pem);
      QuietKeepsPair(Step(s, events[0]), events[1..], pem);
    }
  }

  /** Once an issuance has renamed both files, its pair is the one that loads, until another
      issuance of that host renames a certificate: whatever ran before or runs beside it. */
  lemma IssuanceOwnsDisk(before: seq<Event>, t: Thread, after: seq<Event>)
    requires CanRun(EMPTY, before) && Enabled(Run(EMPTY, before), RenameKey(t))
    requires CanRun(Step(Run(EMPTY, before), RenameKey(t)), after)
    requires Quiet(Step(Run(EMPTY, before), RenameKey(t)), after, Run(EMPTY, before).Pc(t).pem.host)
    ensures var s := Run(EMPTY, before);
            Run(Step(s, RenameKey(t)), after).Pair(s.Pc(t).pem.host) == Some(s.Pc(t).pem)
  {
    RunInv(EMPTY, before);
    var s := Run(EMPTY, before);
    StepInv(s, RenameKey(t));
    var s' := Step(s, RenameKey(t));
    assert ThreadOk(s, t) && ThreadOk(s', t);
    QuietKeepsPair(s', after, s.Pc(t).pem);
  }

  // ---- attempts that fail ----

  /** The event takes the attempt of a thread away from it, short of success. */
  predicate Ends(s: State, e: Event, t: Thread) {
    e.Crash? || ((e.Abandon? || e.FailWrite? || e.FailMark?) && e.t == t)
  }

  /** However an attempt ends, by a refusal, a failed write, the database or a crash: before its
      certificate is renamed the host keeps the pair that loaded when the attempt took the lock,
      between the two renames it is left without a pair that loads, and after both the new pair loads. */
  lemma FailureKeepsPairExactly(events: seq<Event>, e: Event, t: Thread)
    requires CanRun(EMPTY, events) && Enabled(Run(EMPTY, events), e) && Ends(Run(EMPTY, events), e, t)
    ensures var s, s' := Run(EMPTY, events), Step(Run(EMPTY, events), e);
            match s.Pc(t)
            case Working(host, was) => s'.Pair(host) == was
            case Ready(pem, was) => s'.Pair(pem.host) == was
            case HalfWritten(pem, _) => s'.Pair(pem.host) == None
            case Written(pem) => s'.Pair(pem.host) == Some(pem)
            case _ => true
  {
    RunInv(EMPTY, events);
    var s := Run(EMPTY, events);
    assert ThreadOk(s, t);
    if s.Pc(t).HalfWritten? {
      assert FilesOk(s, s.Pc(t).pem.host);
    }
  }

  function Locking(t: Thread, host: string): seq<Event> {
    [Enqueue(t, host), Acquire(t)]
  }

  function Ordering(t: Thread, serial: nat): seq<Event> {
    [Obtain(t, serial), RenameCert(t)]
  }

  function HalfRenewal(t: Thread, host: string, serial: nat): seq<Event> {
    Locking(t, host) + Ordering(t, serial)
  }

  predicate CanRenew(s: State, t: Thread, host: string, serial: nat) {
    s.Pc(t).Idle? && host != DEFAULT && host != "" && host !in s.locks && Pem(host, serial) !in s.issued
  }

  lemma LockingRuns(s: State, t: Thread, host: string)
    requires s.Pc(t).Idle? && host != DEFAULT && host != "" && host !in s.locks
    ensures CanRun(s, Locking(t, host))
    ensures Run(s, Locking(t, host)) ==
            s.(locks := s.locks[host := t], threads := s.threads[t := Working(host, s.Pair(host))])
  {
    var s1 := Step(s, Enqueue(t, host));
    Unroll(s1, [Acquire(t)]);
    Unroll(s, Locking(t, host));
    assert Step(s1, Acquire(t)).threads == s.threads[t := Working(host, s.Pair(host))];
  }

  lemma OrderingRuns(s: State, t: Thread, host: string, serial: nat, was: Option<Pem>)
    requires s.Pc(t) == Working(host, was) && Pem(host, serial) !in s.issued
    ensures CanRun(s, Ordering(t, serial))
    ensures var pem := Pem(host, serial);
            Run(s, Ordering(t, serial)) ==
            s.(issued := s.issued + {pem}, certs := s.certs[host := pem], threads := s.threads[t := HalfWritten(pem, was)])
  {
    var s1 := Step(s, Obtain(t, serial));
    Unroll(s1, [RenameCert(t)]);
    Unroll(s, Ordering(t, serial));
    assert Step(s1, RenameCert(t)).threads == s.threads[t := HalfWritten(Pem(host, serial), was)];
  }

  /** A host that is left with a new certificate and the old key, its lock held. */
  function HalfRenewed(s: State, t: Thread, pem: Pem): State {
    s.(locks := s.locks[pem.host := t], issued := s.issued + {pem}, certs := s.certs[pem.host := pem],
       threads := s.threads[t := HalfWritten(pem, s.Pair(pem.host))])
  }

  lemma HalfRenewedFrom(s: State, s2: State, s4: State, t: Thread, pem: Pem, pc: Pc)
    requires s2 == s.(locks := s.locks[pem.host := t], threads := s.threads[t := pc])
    requires s4 == s2.(issued := s2.issued + {pem}, certs := s2.certs[pem.host := pem],
                       threads := s2.threads[t := HalfWritten(pem, s.Pair(pem.host))])
    ensures s4 == HalfRenewed(s, t, pem)
  {
    var half := HalfWritten(pem, s.Pair(pem.host));
    assert s2.threads[t := half] == s.threads[t := half];
  }

  lemma HalfRenewalRuns(s: State, t: Thread, host: string, serial: nat)
    requires CanRenew(s, t, host, serial)
    ensures CanRun(s, HalfRenewal(t, host, serial))
    ensures Run(s, HalfRenewal(t, host, serial)) == HalfRenewed(s, t, Pem(host, serial))
  {
    LockingRuns(s, t, host);
    var s2 := Run(s, Locking(t, host));
    OrderingRuns(s2, t, host, serial, s.Pair(host));
    RunAppend(s, Locking(t, host), Ordering(t, serial));
    HalfRenewedFrom(s, s2, Run(s2, Ordering(t, serial)), t, Pem(host, serial), Working(host, s.Pair(host)));
  }

  lemma Unroll(s: State, events: seq<Event>)
    requires events != [] && Enabled(s, events[0])
    ensures CanRun(s, events) == CanRun(Step(s, events[0]), events[1..])
    ensures CanRun(s, events) ==> Run(s, events) == Run(Step(s, events[0]), events[1..])
  {
  }

  /** So from any state a failing renewal can remove a working certificate: its key is not written. */
  lemma FailureCanRemovePair(s: State, t: Thread, host: string, serial: nat)
    requires Inv(s) && CanRenew(s, t, host, serial)
    ensures CanRun(s, HalfRenewal(t, host, serial))
    ensures var s' := Run(s, HalfRenewal(t, host, serial));
            Enabled(s', FailWrite(t)) && Step(s', FailWrite(t)).Pair(host) == None
  {
    HalfRenewalRuns(s, t, host, serial);
    assert FilesOk(s, host);
  }

  lemma {:induction false} RunAppend(s: State, first: seq<Event>, rest: seq<Event>)
    requires CanRun(s, first) && CanRun(Run(s, first), rest)
    ensures CanRun(s, first + rest) && Run(s, first + rest) == Run(Run(s, first), rest)
    decreases |first|
  {
    if first == [] {
      assert first + rest == rest;
    } else {
      assert (first + rest)[0] == first[0] && (first + rest)[1..] == first[1..] + rest;
      RunAppend(Step(s, first[0]), first[1..], rest);
    }
  }

  function Installing(t: Thread): seq<Event> {
    [RenameKey(t), Clear(t), Release(t)]
  }

  function Renewal(t: Thread, host: string, serial: nat): seq<Event> {
    HalfRenewal(t, host, serial) + Installing(t)
  }

  lemma InstallingRuns(s: State, t: Thread, pem: Pem)
    requires s.Pc(t).HalfWritten? && s.Pc(t).pem == pem
    ensures CanRun(s, Installing(t))
    ensures Run(s, Installing(t)) ==
            s.(complete := s.complete + {pem}, keys := s.keys[pem.host := pem], cache := s.cache - {pem.host},
               threads := s.threads[t := Idle], locks := s.locks - {pem.host})
  {
    var s5 := Step(s, RenameKey(t));
    var s6 := Step(s5, Clear(t));
    Unroll(s6, [Release(t)]);
    Unroll(s5, [Clear(t), Release(t)]);
    Unroll(s, Installing(t));
    assert Step(s6, Release(t)).threads == s.threads[t := Idle];
  }

  /** A host with a new pair and its lock free again. */
  function Renewed(s: State, t: Thread, pem: Pem): State {
    s.(issued := s.issued + {pem}, complete := s.complete + {pem}, certs := s.certs[pem.host := pem],
       keys := s.keys[pem.host := pem], cache := s.cache - {pem.host}, threads := s.threads[t := Idle])
  }

  lemma RenewedFrom(s: State, s4: State, s7: State, t: Thread, pem: Pem)
    requires pem.host !in s.locks && s4 == HalfRenewed(s, t, pem)
    requires s7 == s4.(complete := s4.complete + {pem}, keys := s4.keys[pem.host := pem], cache := s4.cache - {pem.host},
                       threads := s4.threads[t := Idle], locks := s4.locks - {pem.host})
    ensures s7 == Renewed(s, t, pem)
  {
    assert s4.locks - {pem.host} == s.locks && s4.threads[t := Idle] == s.threads[t := Idle];
  }

  lemma RenewalRuns(s: State, t: Thread, host: string, serial: nat)
    requires CanRenew(s, t, host, serial)
    ensures CanRun(s, Renewal(t, host, serial))
    ensures Run(s, Renewal(t, host, serial)) == Renewed(s, t, Pem(host, serial))
  {
    HalfRenewalRuns(s, t, host, serial);
    var s4 := Run(s, HalfRenewal(t, host, serial));
    InstallingRuns(s4, t, Pem(host, serial));
    RunAppend(s, HalfRenewal(t, host, serial), Installing(t));
    RenewedFrom(s, s4, Run(s4, Installing(t)), t, Pem(host, serial));
  }

  /** A first renewal that works, and a second that fails between its renames. */
  lemma WorkingPairRemoved(host: string)
    requires host != DEFAULT && host != ""
    ensures CanRun(EMPTY, Renewal(0, host, 1))
    ensures var s := Run(EMPTY, Renewal(0, host, 1));
            && s.Pair(host) == Some(Pem(host, 1))
            && CanRun(s, HalfRenewal(0, host, 2))
            && var s' := Run(s, HalfRenewal(0, host, 2));
               Enabled(s', FailWrite(0)) && Step(s', FailWrite(0)).Pair(host) == None
  {
    RenewalRuns(EMPTY, 0, host, 1);
    RunInv(EMPTY, Renewal(0, host, 1));
    FailureCanRemovePair(Run(EMPTY, Renewal(0, host, 1)), 0, host, 2);
  }

  // ---- the cache against the disk ----

  /** The cache holds nothing else for the pair's host. */
  predicate CacheTrue(s: State, pem: Pem) {
    pem.host in s.cache ==> s.cache[pem.host] == pem
  }

  /** A handshake that has read another pair of the host and not yet cached it. */
  predicate StaleReader(s: State, u: Thread, pem: Pem) {
    s.Pc(u).PairRead? && s.Pc(u).host == pem.host && s.Pc(u).pair.Some? && s.Pc(u).pair.value != pem
  }

  ghost predicate NoStaleReader(s: State, pem: Pem) {
    forall u :: !StaleReader(s, u, pem)
  }

  ghost predicate StaysTrue(s: State, pem: Pem) {
    forall after :: CanRun(s, after) && Quiet(s, after, pem.host) ==> CacheTrue(Run(s, after), pem)
  }

  /** A handshake that has read an old certificate does no harm: the key it reads next is the new one. */
  lemma StepReaders(s: State, e: Event, pem: Pem, u: Thread)
    requires Enabled(s, e) && s.Pair(pem.host) == Some(pem) && !StaleReader(s, u, pem)
    ensures !StaleReader(Step(s, e), u, pem)
  {
  }

  lemma StepStaysTrue(s: State, e: Event, pem: Pem)
    requires Enabled(s, e) && s.Pair(pem.host) == Some(pem) && CacheTrue(s, pem) && NoStaleReader(s, pem)
    ensures CacheTrue(Step(s, e), pem) && NoStaleReader(Step(s, e), pem)
  {
    if e.Finish? {
      assert !StaleReader(s, e.t, pem);
    }
    forall u
      ensures !StaleReader(Step(s, e), u, pem)
    {
      StepReaders(s, e, pem, u);
    }
  }

  lemma {:induction false} RunStaysTrue(s: State, after: seq<Event>, pem: Pem)
    requires Inv(s) && CanRun(s, after) && Quiet(s, after, pem.host) && pem.host != DEFAULT
    requires s.Pair(pem.host) == Some(pem) && CacheTrue(s, pem) && NoStaleReader(s, pem)
    ensures CacheTrue(Run(s, after), pem)
    decreases |after|
  {
    if after != [] {
      StepInv(s, after[0]);
      QuietStep(s, after[0], pem);
      StepStaysTrue(s, after[0], pem);
      RunStaysTrue(Step(s, after[0]), after[1..], pem);
    }
  }

  /** The stale reader finishes. */
  lemma StaleReaderSpoils(s: State, u: Thread, pem: Pem)
    requires StaleReader(s, u, pem)
    ensures !StaysTrue(s, pem)
  {
    var after := [Finish(u)];
    Unroll(s, after);
    assert CanRun(s, after) && Quiet(s, after, pem.host) && Run(s, after) == Step(s, Finish(u));
    assert !CacheTrue(Run(s, after), pem);
  }

  /** In every reachable state in which a pair loads for a host, the cache will show no other pair
      for it, in any continuation until a certificate is renamed for that host, exactly if it shows
      no other now and no handshake stands between reading another pair and caching it. */
  lemma CacheStaysTrueExactly(before: seq<Event>, pem: Pem)
    requires CanRun(EMPTY, before) && pem.host != DEFAULT && Run(EMPTY, before).Pair(pem.host) == Some(pem)
    ensures var s := Run(EMPTY, before);
            StaysTrue(s, pem) <==> CacheTrue(s, pem) && NoStaleReader(s, pem)
  {
    var s := Run(EMPTY, before);
    RunInv(EMPTY, before);
    if CacheTrue(s, pem) && NoStaleReader(s, pem) {
      forall after | CanRun(s, after) && Quiet(s, after, pem.host)
        ensures CacheTrue(Run(s, after), pem)
      {
        RunStaysTrue(s, after, pem);
      }
    } else if CacheTrue(s, pem) {
      var u :| StaleReader(s, u, pem);
      StaleReaderSpoils(s, u, pem);
    } else {
      var none: seq<Event> := [];
      assert CanRun(s, none) && Quiet(s, none, pem.host) && Run(s, none) == s;
    }
  }

  /** So the entry deleted at the end of an issuance makes later handshakes read the new pair
      exactly if no handshake is about to cache an old one. */
  lemma ClearedCacheStaysTrueExactly(before: seq<Event>, t: Thread)
    requires CanRun(EMPTY, before) && Enabled(Run(EMPTY, before), Clear(t))
    ensures var s := Run(EMPTY, before);
            StaysTrue(Step(s, Clear(t)), s.Pc(t).pem) <==> NoStaleReader(s, s.Pc(t).pem)
  {
    RunInv(EMPTY, before);
    var s := Run(EMPTY, before);
    var s', pem := Step(s, Clear(t)), s.Pc(t).pem;
    assert ThreadOk(s, t);
    Unroll(s, [Clear(t)]);
    assert CanRun(s, [Clear(t)]) && Run(s, [Clear(t)]) == s';
    RunAppend(EMPTY, before, [Clear(t)]);
    CacheStaysTrueExactly(before + [Clear(t)], pem);
    assert forall u :: StaleReader(s', u, pem) <==> StaleReader(s, u, pem);
  }

  function Reading(u: Thread, name: string): seq<Event> {
    [Hello(u, name), ReadCert(u), ReadKey(u)]
  }

  lemma ReadingRuns(s: State, u: Thread, name: string, host: string)
    requires s.Pc(u).Idle? && HostOf(name) == host != "" && host !in s.cache && s.Pair(host).Some?
    ensures CanRun(s, Reading(u, name))
    ensures Run(s, Reading(u, name)) == s.(threads := s.threads[u := PairRead(host, s.fallback, s.Pair(host))])
  {
    var s2 := Step(s, Hello(u, name));
    var s3 := Step(s2, ReadCert(u));
    Unroll(s3, [ReadKey(u)]);
    Unroll(s2, [ReadCert(u), ReadKey(u)]);
    Unroll(s, Reading(u, name));
    assert Step(s3, ReadKey(u)).threads == s.threads[u := PairRead(host, s.fallback, s.Pair(host))];
  }

  /** The events in which a handshake puts the pair it read back over a finished renewal. */
  function Overtaken(t: Thread, u: Thread, name: string, host: string, serial: nat): seq<Event> {
    Reading(u, name) + Renewal(t, host, serial)
  }

  lemma OvertakenRuns(s: State, t: Thread, u: Thread, name: string, host: string, serial: nat)
    requires CanRenew(s, t, host, serial) && t != u
    requires s.Pc(u).Idle? && HostOf(name) == host && host !in s.cache && s.Pair(host).Some?
    ensures CanRun(s, Overtaken(t, u, name, host, serial))
    ensures var s' := Run(s, Overtaken(t, u, name, host, serial));
            && s'.Pair(host) == Some(Pem(host, serial))
            && s'.Pc(u) == PairRead(host, s.fallback, s.Pair(host))
  {
    ReadingRuns(s, u, name, host);
    var s3 := Run(s, Reading(u, name));
    RenewalRuns(s3, t, host, serial);
    RunAppend(s, Reading(u, name), Renewal(t, host, serial));
  }

  /** A handshake that holds another pair than the one on disk caches it. */
  lemma StaleFinish(s: State, u: Thread, fallback: Option<Pem>, stale: Pem, pem: Pem)
    requires s.Pc(u) == PairRead(pem.host, fallback, Some(stale)) && stale != pem
    ensures StaleReader(s, u, pem)
    ensures pem.host in Step(s, Finish(u)).cache && Step(s, Finish(u)).cache[pem.host] == stale
  {
  }

  /** A schedule that gets there: a handshake reads the first pair, a renewal runs to its end, and
      the handshake puts the first pair back. */
  lemma HandshakeCanCacheOldPair(name: string, host: string)
    requires HostOf(name) == host && host != DEFAULT && host != ""
    ensures var events := Renewal(0, host, 1) + Overtaken(0, 1, name, host, 2);
            && CanRun(EMPTY, events)
            && var s := Run(EMPTY, events);
               && StaleReader(s, 1, Pem(host, 2)) && s.Pair(host) == Some(Pem(host, 2))
               && host in Step(s, Finish(1)).cache && Step(s, Finish(1)).cache[host] == Pem(host, 1)
  {
    RenewalRuns(EMPTY, 0, host, 1);
    var s1 := Run(EMPTY, Renewal(0, host, 1));
    OvertakenRuns(s1, 0, 1, name, host, 2);
    RunAppend(EMPTY, Renewal(0, host, 1), Overtaken(0, 1, name, host, 2));
    StaleFinish(Run(s1, Overtaken(0, 1, name, host, 2)), 1, s1.fallback, Pem(host, 1), Pem(host, 2));
  }

  // ---- what a handshake is answered with ----

  /** The thread begins no other handshake. */
  predicate OneHandshake(during: seq<Event>, t: Thread) {
    forall e :: e in during ==> !(e.Hello? && e.t == t)
  }

  /** A pair loads for the host before and after every one of the events. */
  predicate LoadsThroughout(s: State, events: seq<Event>, host: string)
    requires CanRun(s, events)
    decreases |events|
  {
    s.Pair(host).Some? && (events == [] || LoadsThroughout(Step(s, events[0]), events[1..], host))
  }

  /** The pair on disk does not change without a moment at which none loads. */
  lemma PairNeverJumps(s: State, e: Event, host: string)
    requires Inv(s) && Enabled(s, e) && s.Pair(host).Some? && Step(s, e).Pair(host).Some?
    ensures Step(s, e).Pair(host) == s.Pair(host)
  {
    assert FilesOk(s, host);
    if e.RenameCert? || e.RenameKey? {
      assert ThreadOk(s, e.t);
    }
  }

  /** Where a handshake for a host stands that began with this pair on disk and this fallback. */
  predicate Underway(s: State, t: Thread, host: string, pair: Option<Pem>, fallback: Option<Pem>) {
    match s.Pc(t)
    case Missed(h, f) => h == host && f == fallback
    case CertRead(h, f, cert) => h == host && f == fallback && (pair.Some? ==> cert == pair)
    case PairRead(h, f, read) => h == host && f == fallback && (pair.Some? ==> read == pair)
    case Answered(h, answer) =>
      h == host && if pair.Some? then answer == pair else answer == fallback || (answer.Some? && answer.value.host == host)
    case _ => true
  }

  lemma UnderwaySelf(s: State, e: Event, host: string, pair: Option<Pem>, fallback: Option<Pem>)
    requires Inv(s) && Enabled(s, e) && !e.Hello? && !e.InstallFallback? && !e.Crash?
    requires Underway(s, e.t, host, pair, fallback) && (pair.Some? ==> s.Pair(host) == pair)
    ensures Underway(Step(s, e), e.t, host, pair, fallback)
  {
    assert ThreadOk(s, e.t);
  }

  lemma StepUnderway(s: State, e: Event, t: Thread, host: string, pair: Option<Pem>, fallback: Option<Pem>)
    requires Inv(s) && Enabled(s, e) && !(e.Hello? && e.t == t)
    requires Underway(s, t, host, pair, fallback) && (pair.Some? ==> s.Pair(host) == pair)
    ensures Underway(Step(s, e), t, host, pair, fallback)
  {
    if !e.Crash? && (e.InstallFallback? || e.t != t) {
      OthersMove(s, e, t);
    } else if !e.Crash? {
      UnderwaySelf(s, e, host, pair, fallback);
    }
  }

  lemma {:induction false} RunUnderway(s: State, during: seq<Event>, t: Thread, host: string, pair: Option<Pem>, fallback: Option<Pem>)
    requires Inv(s) && CanRun(s, during) && OneHandshake(during, t) && Underway(s, t, host, pair, fallback)
    requires pair.Some? ==> s.Pair(host) == pair && LoadsThroughout(s, during, host)
    ensures Underway(Run(s, during), t, host, pair, fallback)
    decreases |during|
  {
    if during != [] {
      var e := during[0];
      assert e in during;
      StepInv(s, e);
      StepUnderway(s, e, t, host, pair, fallback);
      if pair.Some? {
        PairNeverJumps(s, e, host);
      }
      RunUnderway(Step(s, e), during[1..], t, host, pair, fallback);
    }
  }

  predicate Handshaking(pc: Pc) {
    pc.Missed? || pc.CertRead? || pc.PairRead? || pc.Answered?
  }

  predicate AnsweredOr(s: State, t: Thread, host: string, answer: Option<Pem>) {
    s.Pc(t) == Answered(host, answer) || !Handshaking(s.Pc(t))
  }

  lemma StepAnswered(s: State, e: Event, t: Thread, host: string, answer: Option<Pem>)
    requires Enabled(s, e) && !(e.Hello? && e.t == t) && AnsweredOr(s, t, host, answer)
    ensures AnsweredOr(Step(s, e), t, host, answer)
  {
  }

  lemma {:induction false} AnswerStays(s: State, during: seq<Event>, t: Thread, host: string, answer: Option<Pem>)
    requires CanRun(s, during) && OneHandshake(during, t) && AnsweredOr(s, t, host, answer)
    ensures AnsweredOr(Run(s, during), t, host, answer)
    decreases |during|
  {
    if during != [] {
      assert during[0] in during;
      StepAnswered(s, during[0], t, host, answer);
      AnswerStays(Step(s, during[0]), during[1..], t, host, answer);
    }
  }

  /** In every interleaving: a host in the cache is answered with the cached pair; one that is not,
      with the pair on disk if one loads throughout the handshake; otherwise with a pair of the host
      or with the fallback there was when the handshake began. */
  lemma AnsweredExactly(before: seq<Event>, t: Thread, name: string, during: seq<Event>)
    requires CanRun(EMPTY, before) && Enabled(Run(EMPTY, before), Hello(t, name))
    requires CanRun(Step(Run(EMPTY, before), Hello(t, name)), during) && OneHandshake(during, t)
    requires Run(Step(Run(EMPTY, before), Hello(t, name)), during).Pc(t).Answered?
    ensures var s, host := Run(EMPTY, before), HostOf(name);
            var end := Run(Step(s, Hello(t, name)), during).Pc(t);
            && end.host == host
            && (host in s.cache ==> end.answer == Some(s.cache[host]))
            && (host !in s.cache && host == "" ==> end.answer == s.fallback)
            && (host !in s.cache && host != "" ==>
                  if LoadsThroughout(Step(s, Hello(t, name)), during, host) then end.answer == s.Pair(host)
                  else end.answer == s.fallback || (end.answer.Some? && end.answer.value.host == host))
  {
    var s, host := Run(EMPTY, before), HostOf(name);
    var s1 := Step(s, Hello(t, name));
    RunInv(EMPTY, before);
    StepInv(s, Hello(t, name));
    if host in s.cache {
      AnswerStays(s1, during, t, host, Some(s.cache[host]));
    } else if host == "" {
      AnswerStays(s1, during, t, host, s.fallback);
    } else if LoadsThroughout(s1, during, host) {
      RunUnderway(s1, during, t, host, s.Pair(host), s.fallback);
    } else {
      RunUnderway(s1, during, t, host, None, s.fallback);
    }
  }

  lemma {:induction false} QuietLoads(s: State, events: seq<Event>, pem: Pem)
    requires Inv(s) && CanRun(s, events) && Quiet(s, events, pem.host) && pem.host != DEFAULT && s.Pair(pem.host) == Some(pem)
    ensures LoadsThroughout(s, events, pem.host)
    decreases |events|
  {
    if events != [] {
      StepInv(s, events[0]);
      QuietStep(s, events[0], pem);
      QuietLoads(Step(s, events[0]), events[1..], pem);
    }
  }

  /** So a handshake that begins with a pair on disk for its host, and no other in the cache, is
      answered with that pair, unless a certificate is renamed for the host before the answer. */
  lemma LoadedIsAnswered(before: seq<Event>, t: Thread, name: string, during: seq<Event>, pem: Pem)
    requires CanRun(EMPTY, before) && Enabled(Run(EMPTY, before), Hello(t, name))
    requires CanRun(Step(Run(EMPTY, before), Hello(t, name)), during) && OneHandshake(during, t)
    requires Run(Step(Run(EMPTY, before), Hello(t, name)), during).Pc(t).Answered?
    requires pem.host == HostOf(name) && pem.host != "" && pem.host != DEFAULT
    requires Run(EMPTY, before).Pair(pem.host) == Some(pem) && CacheTrue(Run(EMPTY, before), pem)
    requires Quiet(Step(Run(EMPTY, before), Hello(t, name)), during, pem.host)
    ensures Run(Step(Run(EMPTY, before), Hello(t, name)), during).Pc(t).answer == Some(pem)
  {
    var s := Run(EMPTY, before);
    RunInv(EMPTY, before);
    StepInv(s, Hello(t, name));
    QuietLoads(Step(s, Hello(t, name)), during, pem);
    AnsweredExactly(before, t, name, during);
  }

  /** Left alone, a handshake for a host with a pair on disk gets to its answer and caches it. */
  lemma HandshakeRuns(s: State, t: Thread, name: string, host: string)
    requires s.Pc(t).Idle? && HostOf(name) == host != "" && host !in s.cache && s.Pair(host).Some?
    ensures CanRun(s, Reading(t, name) + [Finish(t)])
    ensures var s' := Run(s, Reading(t, name) + [Finish(t)]);
            && s'.Pc(t) == Answered(host, s.Pair(host)) && host in s'.cache && s'.cache[host] == s.Pair(host).value
            && Enabled(s', Reply(t)) && Step(s', Reply(t)) == s'.(threads := s'.threads[t := Idle])
  {
    ReadingRuns(s, t, name, host);
    var s3 := Run(s, Reading(t, name));
    Unroll(s3, [Finish(t)]);
    RunAppend(s, Reading(t, name), [Finish(t)]);
  }

  /** Installing a fallback leaves the one that is on disk, or puts a new one there. */
  lemma FallbackInstalled(s: State, serial: nat)
    requires Enabled(s, InstallFallback(serial))
    ensures var s' := Step(s, InstallFallback(serial));
            && s'.fallback.Some? && s'.fallback == s'.Pair(DEFAULT)
            && (s.Pair(DEFAULT).Some? ==> s'.Pair(DEFAULT) == s.Pair(DEFAULT))
            && s'.cache == s.cache && s'.threads == s.threads
  {
  }

  /** A crash loses what is in memory, so that every host is read from disk again, and no file. */
  lemma CrashKeepsFiles(s: State, t: Thread, host: string)
    ensures var s' := Step(s, Crash);
            && s'.certs == s.certs && s'.keys == s.keys && s'.Pair(host) == s.Pair(host)
            && host !in s'.cache && s'.fallback == None && host !in s'.locks && s'.Pc(t) == Idle
  {
  }

  /** Server names that differ in case, or in one dot at the end, are one host. */
  lemma HostNames(name: string, other: string)
    requires name == "" || name[|name| - 1] != '.'
    requires other == name || other == name + "."
    ensures HostOf(other) == HostOf(ToLower(name)) && HostOf(name) == ToLower(name)
  {
    ToLowerIdempotent(name);
    if other != name {
      assert other[..|other| - 1] == name;
    }
    if name != "" {
      assert ToLower(name)[|name| - 1] == LowerChar(name[|name| - 1]);
    }
  }

  // ---- one call at a time ----

  /** Where writing a pair stops. */
  datatype Fault = NoFault | AtCert | AtKey

  class Manager {
    var certs: Files
    var keys: Files
    var cache: Files
    var fallback: Option<Pem>

    constructor ()
      ensures certs == keys == cache == map[] && fallback == None
    {
      certs, keys, cache, fallback := map[], map[], map[], None;
    }

    /** The cache shows what is on disk. */
    ghost predicate Coherent()
      reads this
    {
      forall host :: host in cache ==> Load(certs, keys, host) == Some(cache[host])
    }

    method WritePEMPair(pem: Pem, fault: Fault) returns (ok: bool)
      modifies this`certs, this`keys
      ensures ok <==> fault.NoFault?
      ensures certs == if fault.AtCert? then old(certs) else old(certs)[pem.host := pem]
      ensures keys == if fault.NoFault? then old(keys)[pem.host := pem] else old(keys)
    {
      if fault.AtCert? {
        return false;
      }
      certs := certs[pem.host := pem];
      if fault.AtKey? {
        return false;
      }
      keys := keys[pem.host := pem];
      return true;
    }

    /** `obtained` is None when the preflight or the authority refuses; `marked` is the database's answer. */
    method IssueNow(host: string, obtained: Option<Pem>, fault: Fault, marked: bool) returns (ok: bool)
      requires obtained.Some? ==> obtained.value.host == host
      modifies this`certs, this`keys, this`cache
      ensures ok <==> obtained.Some? && fault.NoFault? && marked
      ensures ok ==> Load(certs, keys, host) == obtained && cache == old(cache) - {host}
      ensures !ok ==> cache == old(cache)
      ensures obtained == None || fault.AtCert? ==> certs == old(certs) && keys == old(keys)
      ensures forall h :: h != host ==> Load(certs, keys, h) == old(Load(certs, keys, h))
      ensures old(Coherent()) && (ok || obtained == None || fault.AtCert? || host !in old(cache)) ==> Coherent()
    {
      if obtained.None? {
        return false;
      }
      ok := WritePEMPair(obtained.value, fault);
      if !ok {
        return;
      }
      if !marked {
        return false;
      }
      cache := cache - {host};
    }

    method GetCertificate(serverName: string) returns (r: Option<Pem>)
      modifies this`cache
      ensures var host := HostOf(serverName);
              && r == (if host in old(cache) then Some(old(cache)[host])
                       else if host != "" && Load(certs, keys, host).Some? then Load(certs, keys, host)
                       else fallback)
              && cache == (if host !in old(cache) && host != "" && Load(certs, keys, host).Some?
                           then old(cache)[host := Load(certs, keys, host).value] else old(cache))
      ensures old(Coherent()) ==> Coherent()
      ensures old(Coherent()) && HostOf(serverName) != "" && Load(certs, keys, HostOf(serverName)).Some? ==>
        r == Load(certs, keys, HostOf(serverName))
    {
      var host := HostOf(serverName);
      if host in cache {
        return Some(cache[host]);
      }
      if host != "" {
        var pair := Load(certs, keys, host);
        if pair.Some? {
          cache := cache[host := pair.value];
          return pair;
        }
      }
      return fallback;
    }
  }
}
