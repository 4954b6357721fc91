/**
  The credential-rotation protocol over every interleaving: the token managers, the
  background writer and its flush, panel servers that hand up or remove logins,
  `diagnose`, and the token service they share (internal/gateway/refresh.go,
  cmd/clawdh-server/db.go, cmd/clawdh-server/dbwriter.go, cmd/clawdh-server/diagnose.go).

  Each step is one actor's lock-protected section, one answer of the token service
  or one committed write of the panel row. Every read of the row may be stale: an
  actor may read any blob the account has ever held.
 */
module Rotation {
  import opened Wrappers
  import opened Times
  import opened Credentials

  type AccountId = nat
  type ActorId = nat

  /** A manager for an account; `unqueued` is a rotation obtained and not yet handed to the writer. */
  datatype Manager = Manager(account: AccountId, cred: Credential, unqueued: Option<Credential>)

  /** A running flush: what it has still to write, and the account whose write has just committed. */
  datatype Flush = Idle | Writing(todo: map<AccountId, Credential>, committed: Option<AccountId>)

  /** A rotation `diagnose` has obtained and not yet stored. */
  datatype Probe = Probe(account: AccountId, cred: Credential)

  datatype State = State(
    now: Instant,
    live: set<string>,                         // refresh tokens the service still accepts
    minted: set<string>,                       // every refresh token there has ever been
    row: map<AccountId, Blob>,                 // the logins in the panel row
    past: map<AccountId, set<Blob>>,           // every blob each account has ever held
    managers: map<ActorId, Manager>,           // every manager still in use by some goroutine
    open: map<AccountId, ActorId>,             // the ones the upstream hands out
    queue: map<AccountId, Credential>,         // w.creds
    flush: Flush,
    probes: map<ActorId, Probe>,
    newest: map<AccountId, Credential>)        // the newest rotation obtained since the login was last handed up

  datatype Step =
    | OpenManager(m: ActorId, a: AccountId, read: Blob)
    | Forget(a: AccountId)
    | Adopt(m: ActorId, read: Blob)
    | Refresh(m: ActorId, got: Credential, at: Instant)
    | ReplyLost(m: ActorId, token: string, at: Instant)
    | Enqueue(m: ActorId)
    | FlushBegin
    | FlushCommit(a: AccountId)
    | FlushSettle
    | FlushEnd
    | HandUp(a: AccountId, blob: Blob)
    | AddAccount(a: AccountId, blob: Blob)
    | RemoveAccount(a: AccountId)
    | ProbeRefresh(p: ActorId, a: AccountId, read: Blob, got: Credential, at: Instant)
    | ProbeCommit(p: ActorId)
    | ProbeFails(p: ActorId)
    | SignIn(token: string, at: Instant)
    | ElsewhereRefresh(spent: string, token: string, at: Instant)

  /** The service issues a token nobody has held, at a later instant, for one fixed lifetime. */
  predicate Mints(s: State, token: string, at: Instant) {
    token != "" && token !in s.minted && s.now < at
  }

  predicate IssuedAt(c: Credential, at: Instant, lifetime: int) {
    c.access != "" && c.expires == at + lifetime
  }

  /** What a machine can hand up: tokens already issued, expiring a lifetime after some past instant. */
  predicate Plausible(s: State, b: Blob, lifetime: nat) {
    var c := ParseCredential(b);
    (c.refresh == "" || c.refresh in s.minted) && c.expires <= s.now + lifetime
  }

  predicate Enabled(s: State, step: Step, lifetime: nat) {
    match step
    case OpenManager(m, a, read) => m !in s.managers && a !in s.open && a in s.past && read in s.past[a]
    case Forget(a) => true
    case Adopt(m, read) =>
      && m in s.managers && s.managers[m].unqueued.None?
      && s.managers[m].account in s.past && read in s.past[s.managers[m].account]
      && NewerThan(ParseCredential(read), s.managers[m].cred)
    case Refresh(m, got, at) =>
      && m in s.managers && s.managers[m].unqueued.None?
      && s.managers[m].cred.refresh in s.live
      && Mints(s, got.refresh, at) && IssuedAt(got, at, lifetime)
    case ReplyLost(m, token, at) =>
      && m in s.managers && s.managers[m].unqueued.None?
      && s.managers[m].cred.refresh in s.live && Mints(s, token, at)
    case Enqueue(m) => m in s.managers && s.managers[m].unqueued.Some?
    case FlushBegin => s.flush.Idle?
    case FlushCommit(a) => s.flush.Writing? && s.flush.committed.None? && a in s.flush.todo
    case FlushSettle => s.flush.Writing? && s.flush.committed.Some?
    case FlushEnd => s.flush.Writing?
    case HandUp(a, blob) => a in s.row && Plausible(s, blob, lifetime)
    case AddAccount(a, blob) => a !in s.past && Plausible(s, blob, lifetime)
    case RemoveAccount(a) => a in s.row
    case ProbeRefresh(p, a, read, got, at) =>
      && p !in s.probes && a in s.past && read in s.past[a]
      && ParseCredential(read).refresh in s.live
      && Mints(s, got.refresh, at) && IssuedAt(got, at, lifetime)
    case ProbeCommit(p) => p in s.probes
    case ProbeFails(p) => p in s.probes
    case SignIn(token, at) => Mints(s, token, at)
    case ElsewhereRefresh(spent, token, at) => spent in s.live && Mints(s, token, at)
  }

  function Exchange(s: State, spent: set<string>, token: string, at: Instant): State {
    s.(now := at, live := s.live - spent + {token}, minted := s.minted + {token})
  }

  /** A committed `storeCredential`: a removed account has nothing to keep. */
  function Stored(s: State, a: AccountId, c: Credential): State {
    if a in s.row then Put(s, a, StoreDecision(s.row[a], c)) else s
  }

  function Put(s: State, a: AccountId, blob: Blob): State {
    s.(row := s.row[a := blob], past := s.past[a := (if a in s.past then s.past[a] else {}) + {blob}])
  }

  function Next(s: State, step: Step, lifetime: nat): State
    requires Enabled(s, step, lifetime)
  {
    match step
    case OpenManager(m, a, read) =>
      s.(managers := s.managers[m := Manager(a, ParseCredential(read), None)], open := s.open[a := m])
    case Forget(a) => s.(open := s.open - {a})
    case Adopt(m, read) => s.(managers := s.managers[m := s.managers[m].(cred := ParseCredential(read))])
    case Refresh(m, got, at) =>
      var mgr := s.managers[m];
      Exchange(s, {mgr.cred.refresh}, got.refresh, at).(
        managers := s.managers[m := mgr.(cred := got, unqueued := Some(got))],
        newest := s.newest[mgr.account := got])
    case ReplyLost(m, token, at) => Exchange(s, {s.managers[m].cred.refresh}, token, at)
    case Enqueue(m) =>
      var mgr := s.managers[m];
      s.(queue := s.queue[mgr.account := mgr.unqueued.value], managers := s.managers[m := mgr.(unqueued := None)])
    case FlushBegin => s.(flush := Writing(s.queue, None))
    case FlushCommit(a) => Stored(s, a, s.flush.todo[a]).(flush := s.flush.(committed := Some(a)))
    case FlushSettle =>
      var a := s.flush.committed.value;
      s.(flush := Writing(s.flush.todo - {a}, None),
         queue := if a in s.queue && a in s.flush.todo && s.queue[a] == s.flush.todo[a] then s.queue - {a} else s.queue)
    case FlushEnd => s.(flush := Idle)
    case HandUp(a, blob) => Put(s, a, blob).(newest := s.newest - {a})
    case AddAccount(a, blob) => Put(s, a, blob)
    case RemoveAccount(a) => s.(row := s.row - {a})
    case ProbeRefresh(p, a, read, got, at) =>
      Exchange(s, {ParseCredential(read).refresh}, got.refresh, at).(probes := s.probes[p := Probe(a, got)])
    case ProbeCommit(p) => Stored(s, s.probes[p].account, s.probes[p].cred).(probes := s.probes - {p})
    case ProbeFails(p) => s.(probes := s.probes - {p})
    case SignIn(token, at) => Exchange(s, {}, token, at)
    case ElsewhereRefresh(spent, token, at) => Exchange(s, {spent}, token, at)
  }

  /** The protocol starts with nothing read, held or queued. */
  predicate Init(s: State) {
    && s.now >= 0 && "" !in s.live && s.live <= s.minted
    && s.row == map[] && s.past == map[] && s.managers == map[] && s.open == map[]
    && s.queue == map[] && s.flush.Idle? && s.probes == map[] && s.newest == map[]
  }
  
  // ------------------------------------------------------------ nothing is lost

  /** A credential the gateway or `diagnose` obtained: it can be refreshed and is not from the future. */
  predicate Genuine(s: State, c: Credential, lifetime: nat) {
    c.refresh != "" && c.refresh in s.minted && 0 < c.expires <= s.now + lifetime
  }

  predicate ServiceSound(s: State) {
    s.now >= 0 && "" !in s.live && s.live <= s.minted
  }

  ghost predicate RowSound(s: State, lifetime: nat) {
    && (forall a :: a in s.row ==> a in s.past && s.row[a] in s.past[a])
    && (forall a, b :: a in s.past && b in s.past[a] ==> Plausible(s, b, lifetime))
  }

  predicate ManagerSound(s: State, m: Manager, lifetime: nat) {
    && m.account in s.past
    && (m.cred.refresh == "" || m.cred.refresh in s.minted)
    && (m.unqueued.Some? ==> m.unqueued.value == m.cred && Genuine(s, m.cred, lifetime))
  }

  ghost predicate ManagersSound(s: State, lifetime: nat) {
    forall m :: m in s.managers ==> ManagerSound(s, s.managers[m], lifetime)
  }

  ghost predicate WriterSound(s: State, lifetime: nat) {
    && (forall a :: a in s.queue ==> a in s.past && Genuine(s, s.queue[a], lifetime))
    && (s.flush.Writing? ==> forall a :: a in s.flush.todo ==> a in s.past && Genuine(s, s.flush.todo[a], lifetime))
    && (s.flush.Writing? && s.flush.committed.Some? ==> s.flush.committed.value in s.flush.todo)
  }

  ghost predicate ProbesSound(s: State, lifetime: nat) {
    forall p :: p in s.probes ==> s.probes[p].account in s.past && Genuine(s, s.probes[p].cred, lifetime)
  }

  ghost predicate NewestSound(s: State, lifetime: nat) {
    forall a :: a in s.newest ==> Genuine(s, s.newest[a], lifetime)
  }

  /** What every reachable state satisfies, whatever the actors do. */
  ghost predicate Sound(s: State, lifetime: nat) {
    && ServiceSound(s) && RowSound(s, lifetime) && ManagersSound(s, lifetime)
    && WriterSound(s, lifetime) && ProbesSound(s, lifetime) && NewestSound(s, lifetime)
  }

  lemma StoredIsPlausible(s: State, a: AccountId, c: Credential, lifetime: nat)
    requires RowSound(s, lifetime) && Genuine(s, c, lifetime) && a in s.row
    ensures Plausible(s, StoreDecision(s.row[a], c), lifetime)
  {
    UpdateThenParse(s.row[a], c);
    StampBounds(c.expires);
    assert Plausible(s, s.row[a], lifetime);
  }

  lemma PutSound(s: State, a: AccountId, blob: Blob, lifetime: nat)
    requires RowSound(s, lifetime) && Plausible(s, blob, lifetime)
    ensures RowSound(Put(s, a, blob), lifetime)
  {
    var s' := Put(s, a, blob);
    forall x, b | x in s'.past && b in s'.past[x]
      ensures Plausible(s', b, lifetime)
    {
      assert Plausible(s, b, lifetime);
    }
  }

  /** Time only passes and tokens are only added, so what was plausible stays so. */
  lemma RowSoundLater(s: State, s': State, lifetime: nat)
    requires RowSound(s, lifetime) && s'.row == s.row && s'.past == s.past
    requires s.now <= s'.now && s.minted <= s'.minted
    ensures RowSound(s', lifetime)
  {
    forall x, b | x in s'.past && b in s'.past[x]
      ensures Plausible(s', b, lifetime)
    {
      assert Plausible(s, b, lifetime);
    }
  }

  lemma RowSoundNext(s: State, step: Step, lifetime: nat)
    requires Sound(s, lifetime) && Enabled(s, step, lifetime)
    ensures RowSound(Next(s, step, lifetime), lifetime)
  {
    var s' := Next(s, step, lifetime);
    match step
    case FlushCommit(a) =>
      if a in s.row {
        StoredIsPlausible(s, a, s.flush.todo[a], lifetime);
        PutSound(s, a, StoreDecision(s.row[a], s.flush.todo[a]), lifetime);
      }
      RowSoundLater(Stored(s, a, s.flush.todo[a]), s', lifetime);
    case ProbeCommit(p) =>
      var a, c := s.probes[p].account, s.probes[p].cred;
      if a in s.row {
        StoredIsPlausible(s, a, c, lifetime);
        PutSound(s, a, StoreDecision(s.row[a], c), lifetime);
      }
      RowSoundLater(Stored(s, a, c), s', lifetime);
    case HandUp(a, blob) => PutSound(s, a, blob, lifetime); RowSoundLater(Put(s, a, blob), s', lifetime);
    case AddAccount(a, blob) => PutSound(s, a, blob, lifetime);
    case RemoveAccount(a) =>
      forall x, b | x in s'.past && b in s'.past[x]
        ensures Plausible(s', b, lifetime)
      {
        assert Plausible(s, b, lifetime);
      }
    case _ => RowSoundLater(s, s', lifetime);
  }

  lemma ManagersSoundNext(s: State, step: Step, lifetime: nat)
    requires Sound(s, lifetime) && Enabled(s, step, lifetime)
    ensures ManagersSound(Next(s, step, lifetime), lifetime)
  {
    var s' := Next(s, step, lifetime);
    forall m | m in s'.managers
      ensures ManagerSound(s', s'.managers[m], lifetime)
    {
      if m in s.managers {
        assert ManagerSound(s, s.managers[m], lifetime);
      }
      if step.Adopt? || step.OpenManager? {
        assert Plausible(s, step.read, lifetime);
      }
    }
  }

  lemma WriterSoundNext(s: State, step: Step, lifetime: nat)
    requires Sound(s, lifetime) && Enabled(s, step, lifetime)
    ensures WriterSound(Next(s, step, lifetime), lifetime)
  {
    if step.Enqueue? {
      assert ManagerSound(s, s.managers[step.m], lifetime);
    }
  }

  lemma SoundNext(s: State, step: Step, lifetime: nat)
    requires Sound(s, lifetime) && Enabled(s, step, lifetime)
    ensures Sound(Next(s, step, lifetime), lifetime)
  {
    RowSoundNext(s, step, lifetime);
    ManagersSoundNext(s, step, lifetime);
    WriterSoundNext(s, step, lifetime);
  }

  // ------------------------------------------------------------ over every run

  function Run(s: State, steps: seq<Step>, lifetime: nat): State
    requires Possible(s, steps, lifetime)
    decreases |steps|
  {
    if steps == [] then s else Run(Next(s, steps[0], lifetime), steps[1..], lifetime)
  }

  predicate Possible(s: State, steps: seq<Step>, lifetime: nat)
    decreases |steps|
  {
    steps == [] || (Enabled(s, steps[0], lifetime) && Possible(Next(s, steps[0], lifetime), steps[1..], lifetime))
  }
}
