/**
  The refresh protocol of `agents/qwen_oauth_token_manager.py`, as a step machine.

  Callers are threads; each belongs to one operating-system process.  They share one clock, one
  lock file and one credentials file.  A caller takes its process's thread lock, then competes for
  the lock file, and then reloads, checks, refreshes and saves.  Testing the deadline, opening, stat and
  unlink of the lock file, the clock reading that gives its age, and every message to the token server are
  steps of their own, so anything may happen in between.  Single steps are: `open` and `write` of the lock
  file; a reload, with its clock reading and its look at the credentials file; and saving that file with
  the note of it in the memory cache.
 */
module RefreshLock {
  import opened Basics

  const LOCK_TIMEOUT_MS: int := 35_000
  const LOCK_STALE_MS: int := 120_000
  const TOKEN_REFRESH_BUFFER_MS: int := 30_000
  const CACHE_CHECK_INTERVAL_MS: int := 5_000

  // ----- Credentials and the per-process memory cache

  datatype Credentials = Credentials(accessToken: string, expiryDate: Option<int>)

  datatype CredentialsFile = CredentialsFile(content: Credentials, mtime: int)

  datatype CacheEntry = CacheEntry(cached: Option<Credentials>, fileMtime: int, lastCheckMs: int)

  const EMPTY_ENTRY := CacheEntry(None, 0, 0)

  predicate IsTokenValid(c: Credentials, now: int) {
    c.accessToken != "" && c.expiryDate.Some? && now < c.expiryDate.value - TOKEN_REFRESH_BUFFER_MS
  }

  /** What a reload leaves in the memory cache and in the caller's credentials. */
  function Reload(force: bool, now: int, entry: CacheEntry, file: Option<CredentialsFile>, held: Credentials)
    : (CacheEntry, Credentials)
  {
    if !force && now - entry.lastCheckMs < CACHE_CHECK_INTERVAL_MS then
      (entry, if entry.cached.Some? then entry.cached.value else held)
    else if file.None? then
      (entry.(lastCheckMs := now, fileMtime := 0), held)
    else if force || file.value.mtime > entry.fileMtime then
      (CacheEntry(Some(file.value.content), file.value.mtime, now), file.value.content)
    else
      (entry.(lastCheckMs := now), held)
  }

  // ----- States

  /** Stages between getting hold of the lock file (or going on without it) and leaving. */
  datatype Stage = Reloading | Checking | Sending | Awaiting | Saving(issued: Credentials) | Leaving

  datatype Phase =
    | Idle
    | WantThreadLock(force: bool)
    | Prechecking(force: bool)
    | Contending(started: int)              // about to test the deadline
    | Opening(started: int)                 // about to open the lock file
    | Collided(started: int)                // the lock file existed; about to stat it
    | Statted(started: int, mtime: int)     // about to read the clock and compute the age
    | Breaking(started: int)                // found it stale; about to unlink it
    | ForcedStat | ForcedBreak | ForcedOpen // the deadline has passed
    | Refreshing(since: int, locked: bool, stage: Stage)
    | Releasing                             // has unlinked the lock file; about to release the thread lock

  datatype Event = Requested(at: int) | Granted(expiry: int)

  datatype State = State(
    clock: int,
    phases: seq<Phase>,
    threadLocks: set<nat>,          // processes whose thread lock is taken
    lockFile: Option<int>,          // modification time, when it exists
    file: Option<CredentialsFile>,
    held: seq<Credentials>,         // each caller's own credentials
    caches: map<nat, CacheEntry>,   // each process's memory cache
    history: seq<Event>)            // traffic with the token server, oldest first

  /** What the surroundings are allowed to do during a run. */
  datatype Env = Env(
    processOf: seq<nat>,  // the process of each caller
    maxHold: nat,         // longest time a caller stays in the refresh section
    timeouts: bool,       // may a waiter reach its deadline?
    crashes: bool,        // may a process die while one of its callers is in the refresh section?
    lostSaves: bool)      // may saving the credentials file fail?

  predicate HoldsThreadLock(p: Phase) {
    !p.Idle? && !p.WantThreadLock?
  }

  predicate Waiting(p: Phase) {
    p.Contending? || p.Opening? || p.Collided? || p.Statted? || p.Breaking?
  }

  predicate Sized(env: Env, s: State) {
    |s.phases| == |s.held| == |env.processOf|
  }

  /** The promises the surroundings make about the time a caller spends in a phase. */
  predicate OnTime(env: Env, clock: int, p: Phase) {
    && (p.Refreshing? ==> clock - p.since <= env.maxHold)
    && (Waiting(p) && !env.timeouts ==> clock - p.started < LOCK_TIMEOUT_MS)
  }

  ghost predicate Permitted(env: Env, s: State) {
    forall i :: 0 <= i < |s.phases| ==> OnTime(env, s.clock, s.phases[i])
  }

  // ----- Steps

  datatype Reply = Grant(token: string, expiresIn: int) | InvalidToken | Failure

  /** The outcome of whatever a step does not decide itself. */
  datatype Choice = Go | Call(force: bool) | Answer(reply: Reply) | SaveFails

  datatype Step = Tick(ms: nat) | Act(caller: nat, choice: Choice) | Crash(process: nat)

  function EntryOf(s: State, process: nat): CacheEntry {
    if process in s.caches then s.caches[process] else EMPTY_ENTRY
  }

  function Move(s: State, i: nat, p: Phase): State
    requires i < |s.phases|
  {
    s.(phases := s.phases[i := p])
  }

  function Unlock(env: Env, s: State, i: nat): State
    requires Sized(env, s) && i < |s.phases|
  {
    Move(s, i, Idle).(threadLocks := s.threadLocks - {env.processOf[i]})
  }

  /** A reload by caller i, followed by a change of phase. */
  function Reloaded(env: Env, s: State, i: nat, force: bool): State
    requires Sized(env, s) && i < |s.phases|
  {
    var (entry, creds) := Reload(force, s.clock, EntryOf(s, env.processOf[i]), s.file, s.held[i]);
    s.(caches := s.caches[env.processOf[i] := entry], held := s.held[i := creds])
  }

  /** One step of caller i; None when it is blocked or the choice does not fit. */
  function Perform(env: Env, s: State, i: nat, c: Choice): Option<State>
    requires Sized(env, s) && i < |s.phases|
  {
    var process := env.processOf[i];
    match s.phases[i]
    case Idle =>
      if !c.Call? then None else
        var t := Reloaded(env, s, i, false);
        if !c.force && IsTokenValid(t.held[i], s.clock) then Some(t) else Some(Move(t, i, WantThreadLock(c.force)))
    case WantThreadLock(force) =>
      if !c.Go? || process in s.threadLocks then None
      else Some(Move(s, i, Prechecking(force)).(threadLocks := s.threadLocks + {process}))
    case Prechecking(force) =>
      if !c.Go? then None else
        var t := Reloaded(env, s, i, true);
        if !force && IsTokenValid(t.held[i], s.clock) then Some(Unlock(env, t, i))
        else Some(Move(t, i, Contending(s.clock)))
    case Contending(started) =>
      if !c.Go? then None
      else Some(Move(s, i, if s.clock - started >= LOCK_TIMEOUT_MS then ForcedStat else Opening(started)))
    case Opening(started) =>
      if !c.Go? then None
      else if s.lockFile.Some? then Some(Move(s, i, Collided(started)))
      else Some(Move(s, i, Refreshing(s.clock, true, Reloading)).(lockFile := Some(s.clock)))
    case Collided(started) =>
      if !c.Go? then None
      else if s.lockFile.None? then Some(Move(s, i, Contending(started)))
      else Some(Move(s, i, Statted(started, s.lockFile.value)))
    case Statted(started, mtime) =>
      if !c.Go? then None
      else Some(Move(s, i, if s.clock - mtime < LOCK_STALE_MS then Contending(started) else Breaking(started)))
    case Breaking(started) =>
      if !c.Go? then None else Some(Move(s, i, Contending(started)).(lockFile := None))
    case ForcedStat =>
      if !c.Go? then None else Some(Move(s, i, if s.lockFile.None? then ForcedOpen else ForcedBreak))
    case ForcedBreak =>
      if !c.Go? then None else Some(Move(s, i, ForcedOpen).(lockFile := None))
    case ForcedOpen =>
      if !c.Go? then None
      else if s.lockFile.Some? then Some(Move(s, i, Refreshing(s.clock, false, Reloading)))
      else Some(Move(s, i, Refreshing(s.clock, true, Reloading)).(lockFile := Some(s.clock)))
    case Refreshing(since, locked, stage) =>
      PerformInside(env, s, i, c)
    case Releasing =>
      if !c.Go? then None else Some(Unlock(env, s, i))
  }

  /** One step of a caller inside the refresh section; it is the same whatever `force` was. */
  function PerformInside(env: Env, s: State, i: nat, c: Choice): Option<State>
    requires Sized(env, s) && i < |s.phases| && s.phases[i].Refreshing?
  {
    var process := env.processOf[i];
    var p := s.phases[i];
    match p.stage
    case Reloading =>
      if !c.Go? then None else Some(Move(Reloaded(env, s, i, true), i, p.(stage := Checking)))
    case Checking =>
      if !c.Go? then None
      else Some(Move(s, i, p.(stage := if IsTokenValid(s.held[i], s.clock) then Leaving else Sending)))
    case Sending =>
      if !c.Go? then None
      else Some(Move(s, i, p.(stage := Awaiting)).(history := s.history + [Requested(s.clock)]))
    case Awaiting =>
      if !c.Answer? then None else (
        match c.reply
        case Grant(token, expiresIn) =>
          if token == "" then None else
            var expiry := s.clock + expiresIn * 1000;
            var issued := Credentials(token, Some(expiry));
            Some(Move(s, i, p.(stage := Saving(issued))).(
                 held := s.held[i := issued], history := s.history + [Granted(expiry)]))
        case InvalidToken =>
          Some(Move(s, i, p.(stage := Leaving)).(file := None, caches := s.caches - {process}))
        case Failure =>
          Some(Move(s, i, p.(stage := Leaving)))
      )
    case Saving(issued) =>
      if !c.Go? && !(c.SaveFails? && env.lostSaves) then None else
        var file := if c.Go? then Some(CredentialsFile(issued, s.clock)) else s.file;
        var entry := CacheEntry(Some(issued), if file.Some? then file.value.mtime else 0, s.clock);
        Some(Move(s, i, p.(stage := Leaving)).(file := file, caches := s.caches[process := entry]))
    case Leaving =>
      if !c.Go? then None
      else if p.locked then Some(Move(s, i, Releasing).(lockFile := None))
      else Some(Move(s, i, Releasing))
  }

  /** One of the callers of the process is in the refresh section. */
  predicate Holds(env: Env, s: State, process: nat)
    requires Sized(env, s)
  {
    exists k :: 0 <= k < |s.phases| && env.processOf[k] == process && s.phases[k].Refreshing?
  }

  function Apply(env: Env, s: State, step: Step): Option<State>
    requires Sized(env, s)
  {
    match step
    case Tick(ms) => Some(s.(clock := s.clock + ms))
    case Act(i, c) => if i < |s.phases| then Perform(env, s, i, c) else None
    case Crash(process) =>
      if !env.crashes && Holds(env, s, process) then None else
        Some(s.(phases := seq(|s.phases|, k requires 0 <= k < |s.phases| =>
                    if env.processOf[k] == process then Idle else s.phases[k]),
                threadLocks := s.threadLocks - {process},
                caches := s.caches - {process}))
  }

  // ----- Runs

  ghost predicate Initial(env: Env, s: State) {
    && Sized(env, s)
    && (forall i :: 0 <= i < |s.phases| ==> s.phases[i].Idle?)
    && s.threadLocks == {} && s.lockFile.None? && s.history == []
  }

  lemma ApplyKeepsSize(env: Env, s: State, step: Step)
    requires Sized(env, s) && Apply(env, s, step).Some?
    ensures Sized(env, Apply(env, s, step).value)
  {
  }

  /** The state after the given steps, when all of them are possible and every state is permitted. */
  ghost function Execute(env: Env, s: State, steps: seq<Step>): (r: Option<State>)
    requires Sized(env, s)
    ensures r.Some? ==> Sized(env, r.value)
    decreases |steps|
  {
    if steps == [] then Some(s) else
      var before := Execute(env, s, steps[..|steps| - 1]);
      if before.None? then None else
        var after := Apply(env, before.value, steps[|steps| - 1]);
        if after.Some? && Permitted(env, after.value) then ApplyKeepsSize(env, before.value, steps[|steps| - 1]); after
        else None
  }

  ghost predicate Reachable(env: Env, s: State) {
    exists start, steps :: Initial(env, start) && Execute(env, start, steps) == Some(s)
  }

  // ----- The properties

  ghost predicate MutuallyExclusive(s: State) {
    forall i, j :: 0 <= i < j < |s.phases| ==> !(s.phases[i].Refreshing? && s.phases[j].Refreshing?)
  }

  /** The lock file exists exactly when a caller is in the refresh section. */
  ghost predicate LockFileTellsTheTruth(s: State) {
    s.lockFile.Some? <==> exists i :: 0 <= i < |s.phases| && s.phases[i].Refreshing?
  }

  /** No request is sent while a token granted earlier is still good. */
  ghost predicate OneRefreshPerWindow(s: State) {
    forall i, j :: 0 <= i < j < |s.history| && s.history[i].Granted? && s.history[j].Requested? ==>
      s.history[j].at >= s.history[i].expiry - TOKEN_REFRESH_BUFFER_MS
  }

  /** The surroundings under which the lock file works. */
  predicate LockIsSafe(env: Env) {
    !env.timeouts && !env.crashes && env.maxHold + LOCK_TIMEOUT_MS <= LOCK_STALE_MS
  }

  predicate SeveralProcesses(env: Env) {
    exists a, b :: 0 <= a < |env.processOf| && 0 <= b < |env.processOf| && env.processOf[a] != env.processOf[b]
  }
}
