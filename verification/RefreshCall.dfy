/**
  One call of `get_valid_credentials` in the step machine, from the first look at the memory cache to the
  release of the thread lock: what its steps come to when nobody competes.
 */
module RefreshCall {
  import opened Basics
  import opened RefreshLock
  import opened RefreshLockRuns

  /** Under the file lock, a caller goes on to send a request exactly when its token is empty, has no expiry,
      or has less than 30 s left. */
  lemma SendsExactlyWhenLapsed(env: Env, s: State, i: nat)
    requires Sized(env, s) && i < |s.phases| && s.phases[i].Refreshing? && s.phases[i].stage.Checking?
    ensures
      var lapsed := s.held[i].accessToken == "" || s.held[i].expiryDate.None?
              || s.clock >= s.held[i].expiryDate.value - 30_000;
      && Perform(env, s, i, Go).Some?
      && Perform(env, s, i, Go).value
         == s.(phases := s.phases[i := s.phases[i].(stage := if lapsed then Sending else Leaving)])
  {
  }

  /** The steps of caller i change nothing of the others. */
  ghost predicate Beside(env: Env, s: State, t: State, i: nat)
    requires Sized(env, s) && Sized(env, t) && i < |s.phases|
  {
    && t.clock == s.clock && t.phases == s.phases[i := t.phases[i]]
    && (forall k :: 0 <= k < |s.held| && k != i ==> t.held[k] == s.held[k])
  }

  /** Caller i is idle, and neither lock is taken. */
  ghost predicate Unopposed(env: Env, s: State, i: nat) {
    && Underway(env, s) && i < |s.phases| && s.phases[i].Idle?
    && env.processOf[i] !in s.threadLocks && s.lockFile.None?
  }

  /** What caller i sees in its first, unforced look. */
  function Seen(env: Env, s: State, i: nat): Credentials
    requires Sized(env, s) && i < |s.phases|
  {
    Reload(false, s.clock, EntryOf(s, env.processOf[i]), s.file, s.held[i]).1
  }

  /** The first look: the call ends, or goes on to the thread lock. */
  lemma FirstLook(env: Env, s: State, i: nat, force: bool) returns (t: State)
    requires Unopposed(env, s, i)
    ensures Underway(env, t) && Beside(env, s, t, i) && t.held[i] == Seen(env, s, i)
    ensures t.phases[i] == if !force && IsTokenValid(t.held[i], s.clock) then Idle else WantThreadLock(force)
    ensures t.file == s.file && t.history == s.history && t.lockFile == s.lockFile && t.threadLocks == s.threadLocks
  {
    hide IsTokenValid, Reload;
    t := Do(env, s, i, Call(force));
  }

  /** The second look, under the thread lock: the call ends, or goes on to the lock file. */
  lemma SecondLook(env: Env, s: State, i: nat, force: bool) returns (t: State)
    requires Underway(env, s) && i < |s.phases| && s.phases[i] == WantThreadLock(force)
    requires env.processOf[i] !in s.threadLocks
    ensures Underway(env, t) && Beside(env, s, t, i)
    ensures t.held[i] == if s.file.Some? then s.file.value.content else s.held[i]
    ensures t.file == s.file && t.history == s.history && t.lockFile == s.lockFile
    ensures if !force && IsTokenValid(t.held[i], s.clock)
            then t.phases[i].Idle? && t.threadLocks == s.threadLocks
            else t.phases[i] == Contending(s.clock) && t.threadLocks == s.threadLocks + {env.processOf[i]}
  {
    hide IsTokenValid;
    t := Do(env, s, i, Go);
    t := Do(env, t, i, Go);
  }

  /** The third look, under the lock file. */
  lemma ThirdLook(env: Env, s: State, i: nat) returns (t: State)
    requires Underway(env, s) && i < |s.phases| && s.phases[i] == Contending(s.clock) && s.lockFile.None?
    ensures Underway(env, t) && Beside(env, s, t, i)
    ensures t.held[i] == if s.file.Some? then s.file.value.content else s.held[i]
    ensures t.phases[i]
            == Refreshing(s.clock, true, if IsTokenValid(t.held[i], s.clock) then Leaving else Sending)
    ensures t.file == s.file && t.history == s.history && t.threadLocks == s.threadLocks && t.lockFile.Some?
  {
    hide IsTokenValid;
    t := Open(env, s, i);
    t := Do(env, t, i, Go);
    t := Do(env, t, i, Go);
  }

  /** What the server answers, and whether saving works. */
  datatype Service = Service(reply: Reply, saveWorks: bool)

  ghost predicate CanServe(env: Env, service: Service) {
    (service.reply.Grant? ==> service.reply.token != "") && (!service.saveWorks ==> env.lostSaves)
  }

  /** What a request of caller i has come to, given the credentials it had before. */
  ghost predicate Answered(env: Env, s: State, t: State, i: nat, before: Credentials, service: Service)
    requires Sized(env, t) && i < |t.phases|
  {
    match service.reply
    case Grant(token, expiresIn) =>
      var expiry := s.clock + expiresIn * 1000;
      && t.held[i] == Credentials(token, Some(expiry))
      && t.history == s.history + [Requested(s.clock), Granted(expiry)]
      && t.file == (if service.saveWorks then Some(CredentialsFile(t.held[i], s.clock)) else s.file)
      && EntryOf(t, env.processOf[i])
         == CacheEntry(Some(t.held[i]), if t.file.Some? then t.file.value.mtime else 0, s.clock)
    case InvalidToken =>
      && t.held[i] == before && t.history == s.history + [Requested(s.clock)] && t.file.None?
      && EntryOf(t, env.processOf[i]) == CacheEntry(None, 0, 0)
    case Failure =>
      t.held[i] == before && t.history == s.history + [Requested(s.clock)] && t.file == s.file
  }

  /** The answer to the request of caller i, which it has sent in state s, and what is saved. */
  lemma Settle(env: Env, s: State, sent: State, i: nat, service: Service) returns (t: State)
    requires Underway(env, sent) && i < |sent.phases| && CanServe(env, service)
    requires sent.phases[i] == Refreshing(sent.clock, true, Awaiting)
    requires sent.clock == s.clock && sent.file == s.file && sent.history == s.history + [Requested(s.clock)]
    ensures Underway(env, t) && Beside(env, sent, t, i) && t.phases[i] == Refreshing(s.clock, true, Leaving)
    ensures t.lockFile == sent.lockFile && t.threadLocks == sent.threadLocks
    ensures Answered(env, s, t, i, sent.held[i], service)
  {
    hide IsTokenValid, Reload;
    t := Do(env, sent, i, Answer(service.reply));
    if service.reply.Grant? {
      t := Do(env, t, i, if service.saveWorks then Go else SaveFails);
    }
  }

  /** The request and its answer. */
  lemma Exchange(env: Env, s: State, i: nat, service: Service) returns (t: State)
    requires Underway(env, s) && i < |s.phases| && CanServe(env, service)
    requires s.phases[i] == Refreshing(s.clock, true, Sending)
    ensures Underway(env, t) && Beside(env, s, t, i) && t.phases[i] == Refreshing(s.clock, true, Leaving)
    ensures t.lockFile == s.lockFile && t.threadLocks == s.threadLocks
    ensures Answered(env, s, t, i, s.held[i], service)
  {
    hide IsTokenValid, Reload, Answered;
    t := Do(env, s, i, Go);
    t := Settle(env, s, t, i, service);
  }

  /** From the contest for the lock file to the end of the call. */
  lemma UnderLockFile(env: Env, s: State, i: nat, service: Service) returns (t: State)
    requires Underway(env, s) && i < |s.phases| && CanServe(env, service)
    requires s.phases[i] == Contending(s.clock) && s.lockFile.None?
    ensures Underway(env, t) && Beside(env, s, t, i) && t.phases[i].Idle? && t.lockFile.None?
    ensures t.threadLocks == s.threadLocks - {env.processOf[i]}
    ensures
      var saved := if s.file.Some? then s.file.value.content else s.held[i];
      if IsTokenValid(saved, s.clock) then t.file == s.file && t.history == s.history && t.held[i] == saved
      else Answered(env, s, t, i, saved, service)
  {
    hide Reload, IsTokenValid;
    t := ThirdLook(env, s, i);
    if t.phases[i].stage.Sending? {
      t := Exchange(env, t, i, service);
    }
    t := Leave(env, t, i);
  }

  /** A call without competitors.  Its steps come to what `TokenManager` says of the method: a request is sent
      exactly when the saved token, or without a file the token first seen, is no longer good, and the call is
      forced or the token first seen is no longer good either.  The call ends with both locks free. */
  lemma UnopposedCall(env: Env, s: State, i: nat, force: bool, service: Service) returns (t: State)
    requires Unopposed(env, s, i) && CanServe(env, service)
    ensures Unopposed(env, t, i) && Beside(env, s, t, i) && t.threadLocks == s.threadLocks
    ensures
      var good := (c: Credentials) =>
          c.accessToken != "" && c.expiryDate.Some? && s.clock < c.expiryDate.value - 30_000;
      var seen := Seen(env, s, i);
      var saved := if s.file.Some? then s.file.value.content else seen;
      if good(saved) || (!force && good(seen)) then
        && t.file == s.file && t.history == s.history
        && t.held[i] == if !force && good(seen) then seen else saved
      else Answered(env, s, t, i, saved, service)
  {
    hide Reload, Answered;
    t := FirstLook(env, s, i, force);
    if !t.phases[i].Idle? {
      ghost var first := t;
      t := SecondLook(env, t, i, force);
      if !t.phases[i].Idle? {
        ghost var second := t;
        t := UnderLockFile(env, t, i, service);
        AnsweredSince(env, s, second, t, i, second.held[i], service);
        assert t.threadLocks == s.threadLocks;
      }
    }
  }

  lemma AnsweredSince(env: Env, s: State, u: State, t: State, i: nat, before: Credentials, service: Service)
    requires Sized(env, t) && i < |t.phases|
    requires u.clock == s.clock && u.history == s.history && u.file == s.file
    ensures Answered(env, u, t, i, before, service) <==> Answered(env, s, t, i, before, service)
  {
  }

  // ----- A waiter whose patience is over

  /** How many steps a caller whose 35 s are over has at most before it, up to the refresh section. */
  function StepsToGo(p: Phase, now: int): nat {
    match p
    case Contending(started) => if now - started >= 35_000 then 4 else 0
    case ForcedStat => 3
    case ForcedBreak => 2
    case ForcedOpen => 1
    case _ => 0
  }

  /** Nobody waits for the lock file beyond the deadline: whatever the others do meanwhile, each step is
      possible and brings the caller nearer, until it is in the refresh section, with a lock file of its own or
      beside that of another. */
  lemma DeadlineIsKept(env: Env, s: State, i: nat)
    requires Sized(env, s) && i < |s.phases| && StepsToGo(s.phases[i], s.clock) > 0
    ensures
      && Perform(env, s, i, Go).Some?
      && var t := Perform(env, s, i, Go).value;
      && StepsToGo(t.phases[i], t.clock) < StepsToGo(s.phases[i], s.clock)
      && (StepsToGo(t.phases[i], t.clock) == 0 ==>
            && t.phases[i] == Refreshing(s.clock, s.lockFile.None?, Reloading)
            && t.lockFile == if s.lockFile.None? then Some(s.clock) else s.lockFile)
  {
  }

  /** A caller in the refresh section removes the lock file only when it leaves and has created one. */
  lemma OnlyOwnersRemove(env: Env, s: State, i: nat, c: Choice)
    requires Sized(env, s) && i < |s.phases| && s.phases[i].Refreshing? && Perform(env, s, i, c).Some?
    ensures
      var t := Perform(env, s, i, c).value;
      t.lockFile == if t.phases[i].Releasing? && s.phases[i].locked then None else s.lockFile
  {
    hide IsTokenValid, Reload;
  }

  // ----- The death of a process

  /** What a process loses with its death are its callers, its thread lock and its memory cache; the files, the
      lock file among them, stay as they are, and so does everything of the other processes. */
  lemma WhatDeathTakes(env: Env, s: State, process: nat)
    requires Sized(env, s) && Apply(env, s, Crash(process)).Some?
    ensures
      var t := Apply(env, s, Crash(process)).value;
      && Sized(env, t) && t.lockFile == s.lockFile && t.file == s.file && t.history == s.history
      && t.clock == s.clock && t.held == s.held
      && (forall k :: 0 <= k < |s.phases| ==>
            t.phases[k] == if env.processOf[k] == process then Idle else s.phases[k])
      && (forall p: nat :: p in t.threadLocks <==> p in s.threadLocks && p != process)
      && EntryOf(t, process) == CacheEntry(None, 0, 0)
      && (forall p: nat :: p != process ==> EntryOf(t, p) == EntryOf(s, p))
  {
  }
}
