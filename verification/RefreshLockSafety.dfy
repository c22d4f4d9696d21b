/** What every run of the refresh protocol keeps. */
module RefreshLockSafety {
  import opened Basics
  import opened RefreshLock

  // ----- Induction over runs

  /** An invariant of all permitted steps holds in every reachable state. */
  lemma {:induction false} InvariantHolds(env: Env, inv: State -> bool, start: State, steps: seq<Step>)
    requires Sized(env, start) && inv(start)
    requires forall s, step ::
      (Sized(env, s) && inv(s) && (s == start || Permitted(env, s)) && Apply(env, s, step).Some?
       && Permitted(env, Apply(env, s, step).value)) ==> inv(Apply(env, s, step).value)
    requires Execute(env, start, steps).Some?
    ensures inv(Execute(env, start, steps).value)
    ensures steps == [] || Permitted(env, Execute(env, start, steps).value)
    decreases |steps|
  {
    if steps != [] {
      InvariantHolds(env, inv, start, steps[..|steps| - 1]);
    }
  }

  // ----- Threads of one process

  ghost predicate ThreadLocksHeld(env: Env, s: State) {
    && Sized(env, s)
    && (forall i :: 0 <= i < |s.phases| && HoldsThreadLock(s.phases[i]) ==> env.processOf[i] in s.threadLocks)
    && (forall i, j :: 0 <= i < j < |s.phases| && HoldsThreadLock(s.phases[i]) && HoldsThreadLock(s.phases[j])
          ==> env.processOf[i] != env.processOf[j])
  }

  /** A step of one caller changes no other phase, and no thread lock but its own. */
  lemma OwnThreadLockOnly(env: Env, s: State, i: nat, c: Choice)
    requires Sized(env, s) && i < |s.phases| && Perform(env, s, i, c).Some?
    ensures
      var t := Perform(env, s, i, c).value;
      && Sized(env, t) && (forall k :: 0 <= k < |s.phases| && k != i ==> t.phases[k] == s.phases[k])
      && (HoldsThreadLock(t.phases[i]) ==> HoldsThreadLock(s.phases[i]) || env.processOf[i] !in s.threadLocks)
      && ((t.threadLocks == s.threadLocks && (HoldsThreadLock(t.phases[i]) ==> HoldsThreadLock(s.phases[i])))
          || t.threadLocks == s.threadLocks + {env.processOf[i]}
          || (t.threadLocks == s.threadLocks - {env.processOf[i]} && HoldsThreadLock(s.phases[i])
              && !HoldsThreadLock(t.phases[i])))
  {
    hide Reload, IsTokenValid;
  }

  lemma ThreadLocksKept(env: Env, s: State, step: Step)
    requires ThreadLocksHeld(env, s) && Apply(env, s, step).Some?
    ensures ThreadLocksHeld(env, Apply(env, s, step).value)
  {
    if step.Act? {
      OwnThreadLockOnly(env, s, step.caller, step.choice);
      OwnLockKept(env, s, Perform(env, s, step.caller, step.choice).value, step.caller);
    }
  }

  lemma OwnLockKept(env: Env, s: State, t: State, i: nat)
    requires ThreadLocksHeld(env, s) && Sized(env, t) && i < |s.phases|
    requires forall k :: 0 <= k < |s.phases| && k != i ==> t.phases[k] == s.phases[k]
    requires HoldsThreadLock(t.phases[i]) ==> HoldsThreadLock(s.phases[i]) || env.processOf[i] !in s.threadLocks
    requires || (t.threadLocks == s.threadLocks && (HoldsThreadLock(t.phases[i]) ==> HoldsThreadLock(s.phases[i])))
             || t.threadLocks == s.threadLocks + {env.processOf[i]}
             || (t.threadLocks == s.threadLocks - {env.processOf[i]} && HoldsThreadLock(s.phases[i])
                 && !HoldsThreadLock(t.phases[i]))
    ensures ThreadLocksHeld(env, t)
  {
  }

  /** Whatever times out or crashes, two threads of one process never refresh at the same time. */
  lemma ThreadsOfOneProcessExclude(env: Env, s: State, i: nat, j: nat)
    requires Reachable(env, s) && i < j < |s.phases| && |env.processOf| == |s.phases|
    requires env.processOf[i] == env.processOf[j]
    ensures !(s.phases[i].Refreshing? && s.phases[j].Refreshing?)
  {
    var start, steps :| Initial(env, start) && Execute(env, start, steps) == Some(s);
    forall s, step | ThreadLocksHeld(env, s) && Apply(env, s, step).Some?
      ensures ThreadLocksHeld(env, Apply(env, s, step).value)
    {
      ThreadLocksKept(env, s, step);
    }
    InvariantHolds(env, s => ThreadLocksHeld(env, s), start, steps);
  }

  // ----- Processes

  /** What a phase may be while the surroundings keep their promises. */
  ghost predicate PhaseInv(env: Env, s: State, p: Phase) {
    match p
    case Contending(started) => started <= s.clock
    case Opening(started) => started <= s.clock
    case Collided(started) => started <= s.clock
    case Statted(started, mtime) => started <= s.clock && started <= mtime + env.maxHold
    case Refreshing(since, locked, _) => locked && since <= s.clock && s.lockFile == Some(since)
    case _ => !p.Breaking? && !p.ForcedStat? && !p.ForcedBreak? && !p.ForcedOpen?
  }

  ghost predicate LockInv(env: Env, s: State) {
    && Sized(env, s)
    && (forall i :: 0 <= i < |s.phases| ==> PhaseInv(env, s, s.phases[i]))
    && MutuallyExclusive(s)
    && LockFileTellsTheTruth(s)
  }

  lemma InitialLockInv(env: Env, s: State)
    requires Initial(env, s)
    ensures LockInv(env, s) && Permitted(env, s)
  {
  }

  lemma LockInvKept(env: Env, s: State, step: Step)
    requires LockIsSafe(env) && LockInv(env, s) && Permitted(env, s) && Apply(env, s, step).Some?
    ensures LockInv(env, Apply(env, s, step).value)
  {
    var t := Apply(env, s, step).value;
    if step.Act? {
      LockInvKeptByCaller(env, s, step.caller, step.choice);
    } else if step.Crash? {
      LockInvKeptByCrash(env, s, step.process);
    } else {
      assert t.phases == s.phases && t.lockFile == s.lockFile;
      assert forall i :: 0 <= i < |s.phases| ==> PhaseInv(env, s, s.phases[i]) ==> PhaseInv(env, t, t.phases[i]);
    }
  }

  /** What the death of a process that does not hold the lock file leaves as it is. */
  ghost predicate CrashStep(s: State, t: State)
    requires |t.phases| == |s.phases|
  {
    && t.clock == s.clock && t.lockFile == s.lockFile && t.file == s.file && t.held == s.held && t.history == s.history
    && (forall k :: 0 <= k < |s.phases| ==> t.phases[k] == s.phases[k] || t.phases[k].Idle?)
    && (forall k :: 0 <= k < |s.phases| && s.phases[k].Refreshing? ==> t.phases[k] == s.phases[k])
  }

  lemma CrashIsLocal(env: Env, s: State, process: nat)
    requires Sized(env, s) && !Holds(env, s, process)
    ensures
      var t := Apply(env, s, Crash(process));
      t.Some? && Sized(env, t.value) && CrashStep(s, t.value)
  {
  }

  lemma LockInvKeptByCrash(env: Env, s: State, process: nat)
    requires LockInv(env, s) && !Holds(env, s, process)
    ensures LockInv(env, Apply(env, s, Crash(process)).value)
  {
    CrashIsLocal(env, s, process);
    var t := Apply(env, s, Crash(process)).value;
    forall k | 0 <= k < |t.phases| ensures PhaseInv(env, t, t.phases[k]) {
      assert PhaseInv(env, s, s.phases[k]);
    }
    if s.lockFile.Some? {
      var k :| 0 <= k < |s.phases| && s.phases[k].Refreshing?;
      assert t.phases[k].Refreshing?;
    }
  }

  lemma LockInvKeptByCaller(env: Env, s: State, i: nat, c: Choice)
    requires LockIsSafe(env) && LockInv(env, s) && Permitted(env, s)
    requires i < |s.phases| && Perform(env, s, i, c).Some?
    ensures LockInv(env, Perform(env, s, i, c).value)
  {
    var t := Perform(env, s, i, c).value;
    CallerPhaseStaysSound(env, s, i, c);
    forall k | 0 <= k < |t.phases| ensures PhaseInv(env, t, t.phases[k]) {
      assert PhaseInv(env, s, s.phases[k]);
    }
    if s.lockFile.Some? {
      var k :| 0 <= k < |s.phases| && s.phases[k].Refreshing?;
      assert t.lockFile.Some? ==> t.phases[k].Refreshing?;
    }
  }

  /** The lock file appears when a caller enters the empty section, goes when it leaves, and stays
      otherwise. */
  ghost predicate SoundStep(env: Env, s: State, t: State, i: nat)
    requires Sized(env, s) && i < |s.phases|
  {
    && Sized(env, t) && t.clock == s.clock && t.phases == s.phases[i := t.phases[i]]
    && PhaseInv(env, t, t.phases[i])
    && (t.lockFile != s.lockFile ==> s.phases[i].Refreshing? != t.phases[i].Refreshing?)
    && (s.phases[i].Refreshing? && !t.phases[i].Refreshing? ==> t.lockFile.None?)
    && (!s.phases[i].Refreshing? && t.phases[i].Refreshing? ==> s.lockFile.None?)
    && (t.phases[i].Refreshing? ==> t.lockFile.Some?)
  }

  lemma CallerPhaseStaysSound(env: Env, s: State, i: nat, c: Choice)
    requires LockIsSafe(env) && LockInv(env, s) && Permitted(env, s)
    requires i < |s.phases| && Perform(env, s, i, c).Some?
    ensures SoundStep(env, s, Perform(env, s, i, c).value, i)
  {
    if s.phases[i].Refreshing? {
      InsideStaysSound(env, s, i, c);
    } else {
      OutsideStaysSound(env, s, i, c);
    }
  }

  lemma InsideStaysSound(env: Env, s: State, i: nat, c: Choice)
    requires LockInv(env, s) && i < |s.phases| && s.phases[i].Refreshing? && PerformInside(env, s, i, c).Some?
    ensures SoundStep(env, s, PerformInside(env, s, i, c).value, i)
  {
    assert PhaseInv(env, s, s.phases[i]);
  }

  lemma OutsideStaysSound(env: Env, s: State, i: nat, c: Choice)
    requires LockIsSafe(env) && LockInv(env, s) && Permitted(env, s)
    requires i < |s.phases| && !s.phases[i].Refreshing? && Perform(env, s, i, c).Some?
    ensures SoundStep(env, s, Perform(env, s, i, c).value, i)
  {
    assert PhaseInv(env, s, s.phases[i]);
    if s.phases[i].Collided? && s.lockFile.Some? {
      var k :| 0 <= k < |s.phases| && s.phases[k].Refreshing?;
      assert PhaseInv(env, s, s.phases[k]);
    }
  }

  /** While the surroundings keep their promises, at most one caller of any process refreshes, and
      the lock file exists exactly as long as one does; waiting and idle processes may die meanwhile. */
  lemma LockFileExcludes(env: Env, s: State)
    requires LockIsSafe(env) && Reachable(env, s)
    ensures LockInv(env, s) && MutuallyExclusive(s) && LockFileTellsTheTruth(s)
  {
    var start, steps :| Initial(env, start) && Execute(env, start, steps) == Some(s);
    InitialLockInv(env, start);
    forall s, step | LockInv(env, s) && Permitted(env, s) && Apply(env, s, step).Some?
      ensures LockInv(env, Apply(env, s, step).value)
    {
      LockInvKept(env, s, step);
    }
    InvariantHolds(env, s => LockInv(env, s), start, steps);
  }

  // ----- The token server sees one refresh per validity window

  predicate Elapsed(s: State, expiry: int) {
    s.clock >= expiry - TOKEN_REFRESH_BUFFER_MS
  }

  predicate Carries(c: Credentials, expiry: int) {
    c.accessToken != "" && c.expiryDate == Some(expiry)
  }

  ghost predicate AllElapsed(s: State) {
    forall k :: 0 <= k < |s.history| && s.history[k].Granted? ==> Elapsed(s, s.history[k].expiry)
  }

  ghost predicate AllElapsedOr(s: State, c: Credentials) {
    forall k :: 0 <= k < |s.history| && s.history[k].Granted? ==>
      Elapsed(s, s.history[k].expiry) || Carries(c, s.history[k].expiry)
  }

  /** The grants on record are past their window, or the newest one is where the next caller looks. */
  ghost predicate StageInv(s: State, i: nat)
    requires i < |s.phases| && |s.held| == |s.phases| && s.phases[i].Refreshing?
  {
    match s.phases[i].stage
    case Checking => if s.file.Some? then s.held[i] == s.file.value.content else AllElapsed(s)
    case Sending => AllElapsed(s)
    case Awaiting => AllElapsed(s)
    case Saving(issued) => AllElapsedOr(s, issued)
    case _ => true
  }

  ghost predicate SavingNow(s: State) {
    exists i :: 0 <= i < |s.phases| && s.phases[i].Refreshing? && s.phases[i].stage.Saving?
  }

  ghost predicate WindowInv(env: Env, s: State) {
    && LockInv(env, s)
    && OneRefreshPerWindow(s)
    && (forall i :: 0 <= i < |s.phases| && s.phases[i].Refreshing? ==> StageInv(s, i))
    && (SavingNow(s) || AllElapsed(s) || (s.file.Some? && AllElapsedOr(s, s.file.value.content)))
  }

  lemma WindowInvKept(env: Env, s: State, step: Step)
    requires LockIsSafe(env) && !env.lostSaves
    requires WindowInv(env, s) && Permitted(env, s) && Apply(env, s, step).Some?
    ensures WindowInv(env, Apply(env, s, step).value)
  {
    LockInvKept(env, s, step);
    if step.Tick? {
      WindowInvKeptByTime(env, s, step.ms);
    } else if step.Crash? {
      WindowInvKeptByCrash(env, s, step.process);
    } else if s.phases[step.caller].Refreshing? {
      WindowInvKeptInside(env, s, step.caller, step.choice);
    } else {
      WindowInvKeptOutside(env, s, step.caller, step.choice);
    }
  }

  lemma WindowInvKeptByCrash(env: Env, s: State, process: nat)
    requires WindowInv(env, s) && !Holds(env, s, process)
    ensures WindowInv(env, Apply(env, s, Crash(process)).value)
  {
    CrashIsLocal(env, s, process);
    LockInvKeptByCrash(env, s, process);
    var t := Apply(env, s, Crash(process)).value;
    forall k | 0 <= k < |t.phases| && t.phases[k].Refreshing? ensures StageInv(t, k) {
      assert StageInv(s, k);
    }
    if SavingNow(s) {
      var k :| 0 <= k < |s.phases| && s.phases[k].Refreshing? && s.phases[k].stage.Saving?;
      assert t.phases[k].stage.Saving?;
    }
  }

  lemma WindowInvKeptByTime(env: Env, s: State, ms: nat)
    requires WindowInv(env, s) && LockInv(env, s.(clock := s.clock + ms))
    ensures WindowInv(env, s.(clock := s.clock + ms))
  {
    var t := s.(clock := s.clock + ms);
    assert forall e :: Elapsed(s, e) ==> Elapsed(t, e);
    assert AllElapsed(s) ==> AllElapsed(t);
    forall c | AllElapsedOr(s, c) ensures AllElapsedOr(t, c) {
    }
    forall i | 0 <= i < |t.phases| && t.phases[i].Refreshing? ensures StageInv(t, i) {
      assert StageInv(s, i);
    }
    if SavingNow(s) {
      var i :| 0 <= i < |s.phases| && s.phases[i].Refreshing? && s.phases[i].stage.Saving?;
      assert t.phases[i].stage.Saving?;
    }
  }

  /** Outside the refresh section nobody writes the file or talks to the server. */
  ghost predicate OutsideStep(s: State, t: State, i: nat)
    requires i < |s.phases| == |s.held|
  {
    && |t.phases| == |t.held| == |s.phases| && t.history == s.history && t.file == s.file && t.clock == s.clock
    && (forall k :: 0 <= k < |s.phases| && k != i ==> t.phases[k] == s.phases[k] && t.held[k] == s.held[k])
    && (t.phases[i].Refreshing? ==> t.phases[i].stage.Reloading?)
  }

  lemma OutsideTouchesNothing(env: Env, s: State, i: nat, c: Choice)
    requires Sized(env, s) && i < |s.phases| && !s.phases[i].Refreshing? && Perform(env, s, i, c).Some?
    ensures OutsideStep(s, Perform(env, s, i, c).value, i)
  {
  }

  lemma WindowInvKeptOutside(env: Env, s: State, i: nat, c: Choice)
    requires WindowInv(env, s) && i < |s.phases| && !s.phases[i].Refreshing?
    requires Perform(env, s, i, c).Some? && LockInv(env, Perform(env, s, i, c).value)
    ensures WindowInv(env, Perform(env, s, i, c).value)
  {
    OutsideTouchesNothing(env, s, i, c);
    WindowInvFramed(env, s, Perform(env, s, i, c).value, i);
  }

  lemma WindowInvFramed(env: Env, s: State, t: State, i: nat)
    requires WindowInv(env, s) && i < |s.phases| && !s.phases[i].Refreshing?
    requires OutsideStep(s, t, i) && LockInv(env, t)
    ensures WindowInv(env, t)
  {
    forall k | 0 <= k < |t.phases| && t.phases[k].Refreshing? ensures StageInv(t, k) {
      if k != i {
        assert StageInv(s, k);
      }
    }
    if SavingNow(s) {
      var k :| 0 <= k < |s.phases| && s.phases[k].Refreshing? && s.phases[k].stage.Saving?;
      assert t.phases[k].stage.Saving?;
    }
  }

  lemma WindowInvKeptInside(env: Env, s: State, i: nat, c: Choice)
    requires LockIsSafe(env) && !env.lostSaves && WindowInv(env, s) && i < |s.phases| && s.phases[i].Refreshing?
    requires Perform(env, s, i, c).Some? && LockInv(env, Perform(env, s, i, c).value)
    ensures WindowInv(env, Perform(env, s, i, c).value)
  {
    var t := PerformInside(env, s, i, c).value;
    assert StageInv(s, i);
    assert forall k :: 0 <= k < |s.phases| && k != i ==> !s.phases[k].Refreshing? && t.phases[k] == s.phases[k];
    assert SavingNow(s) <==> s.phases[i].stage.Saving?;
    match s.phases[i].stage
    case Reloading =>
    case Checking =>
    case Sending =>
    case Awaiting =>
      if c.reply.Grant? {
        assert t.phases[i].stage.Saving?;
      }
    case Saving(issued) =>
    case Leaving =>
  }

  /** With a safe lock and working saves, a request is never sent before the window of every earlier
      grant is over, whatever the callers' force flags. */
  lemma RefreshesOncePerWindow(env: Env, s: State)
    requires LockIsSafe(env) && !env.lostSaves && Reachable(env, s)
    ensures OneRefreshPerWindow(s)
  {
    var start, steps :| Initial(env, start) && Execute(env, start, steps) == Some(s);
    InitialLockInv(env, start);
    assert WindowInv(env, start);
    forall s, step | WindowInv(env, s) && Permitted(env, s) && Apply(env, s, step).Some?
      ensures WindowInv(env, Apply(env, s, step).value)
    {
      WindowInvKept(env, s, step);
    }
    InvariantHolds(env, s => WindowInv(env, s), start, steps);
  }
}
