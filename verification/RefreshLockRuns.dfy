/**
  Runs in which the refresh protocol goes wrong, one for each promise the surroundings may break,
  and with them the exact conditions under which it works.
 */
module RefreshLockRuns {
  import opened Basics
  import opened RefreshLock
  import opened RefreshLockSafety

  const NOTHING := Credentials("", None)

  ghost predicate Underway(env: Env, s: State) {
    Sized(env, s) && Reachable(env, s) && Permitted(env, s)
  }

  /** Caller k finds no credentials anywhere. */
  ghost predicate Blank(env: Env, s: State, k: nat)
    requires Sized(env, s) && k < |s.held|
  {
    s.file.None? && s.held[k] == NOTHING && EntryOf(s, env.processOf[k]).cached.None?
  }

  ghost predicate SameCallers(env: Env, s: State, t: State, i: nat)
    requires Sized(env, s) && Sized(env, t) && i < |s.phases|
  {
    && t.clock == s.clock && t.phases == s.phases[i := t.phases[i]]
    && (forall k :: 0 <= k < |s.held| && Blank(env, s, k) ==> Blank(env, t, k))
  }

  // ----- Building runs

  lemma Start(env: Env) returns (s: State)
    ensures Underway(env, s) && s.clock == 0 && s.threadLocks == {} && s.lockFile.None? && s.history == []
    ensures forall k :: 0 <= k < |s.phases| ==> s.phases[k].Idle? && Blank(env, s, k)
  {
    var n := |env.processOf|;
    s := State(0, seq(n, _ => Idle), {}, None, None, seq(n, _ => NOTHING), map[], []);
    assert Initial(env, s);
    assert Execute(env, s, []) == Some(s);
  }

  lemma Extend(env: Env, s: State, step: Step) returns (t: State)
    requires Sized(env, s) && Reachable(env, s)
    requires Apply(env, s, step).Some? && Permitted(env, Apply(env, s, step).value)
    ensures t == Apply(env, s, step).value && Underway(env, t)
  {
    var start, steps :| Initial(env, start) && Execute(env, start, steps) == Some(s);
    var longer := steps + [step];
    assert longer[..|longer| - 1] == steps;
    t := Apply(env, s, step).value;
    assert Execute(env, start, longer) == Some(t);
  }

  /** A step of one caller takes no time and leaves the phases of the others alone. */
  lemma StepIsLocal(env: Env, s: State, i: nat, c: Choice)
    requires Sized(env, s) && i < |s.phases| && Perform(env, s, i, c).Some?
    ensures
      var t := Perform(env, s, i, c).value;
      t.clock == s.clock && |t.phases| == |s.phases|
      && forall k :: 0 <= k < |s.phases| && k != i ==> t.phases[k] == s.phases[k]
  {
    hide Reload, IsTokenValid;
    if s.phases[i].Refreshing? {
      InsideIsLocal(env, s, i, c);
    } else {
      hide PerformInside;
    }
  }

  lemma InsideIsLocal(env: Env, s: State, i: nat, c: Choice)
    requires Sized(env, s) && i < |s.phases| && s.phases[i].Refreshing? && PerformInside(env, s, i, c).Some?
    ensures
      var t := PerformInside(env, s, i, c).value;
      t.clock == s.clock && |t.phases| == |s.phases|
      && forall k :: 0 <= k < |s.phases| && k != i ==> t.phases[k] == s.phases[k]
  {
    hide Reload, IsTokenValid;
  }

  lemma Do(env: Env, s: State, i: nat, c: Choice) returns (t: State)
    requires Underway(env, s) && i < |s.phases| && Perform(env, s, i, c).Some?
    requires OnTime(env, s.clock, Perform(env, s, i, c).value.phases[i])
    ensures t == Perform(env, s, i, c).value && Underway(env, t)
  {
    t := Perform(env, s, i, c).value;
    StepIsLocal(env, s, i, c);
    assert Permitted(env, t) by {
      forall k | 0 <= k < |t.phases| ensures OnTime(env, t.clock, t.phases[k]) {
        assert OnTime(env, s.clock, s.phases[k]);
      }
    }
    var u := Extend(env, s, Act(i, c));
  }

  lemma Wait(env: Env, s: State, ms: nat) returns (t: State)
    requires Underway(env, s)
    requires forall k :: 0 <= k < |s.phases| ==> OnTime(env, s.clock + ms, s.phases[k])
    ensures t == s.(clock := s.clock + ms) && Underway(env, t)
    ensures forall k :: 0 <= k < |s.held| && Blank(env, s, k) ==> Blank(env, t, k)
  {
    t := Extend(env, s, Tick(ms));
  }

  /** A caller with no credentials gets as far as the lock file. */
  lemma Enter(env: Env, s: State, i: nat) returns (t: State)
    requires Underway(env, s) && i < |s.phases| && s.phases[i].Idle? && Blank(env, s, i)
    requires env.processOf[i] !in s.threadLocks
    ensures Underway(env, t) && SameCallers(env, s, t, i) && t.phases[i] == Contending(s.clock)
    ensures t.threadLocks == s.threadLocks + {env.processOf[i]}
    ensures t.lockFile == s.lockFile && t.history == s.history
  {
    t := Do(env, s, i, Call(false));
    t := Do(env, t, i, Go);
    t := Do(env, t, i, Go);
  }

  lemma Open(env: Env, s: State, i: nat) returns (t: State)
    requires Underway(env, s) && i < |s.phases| && s.phases[i].Contending? && s.lockFile.None?
    requires s.clock - s.phases[i].started < LOCK_TIMEOUT_MS
    ensures Underway(env, t) && SameCallers(env, s, t, i)
    ensures t.phases[i] == Refreshing(s.clock, true, Reloading) && t.lockFile == Some(s.clock)
    ensures t.threadLocks == s.threadLocks && t.history == s.history && t.held == s.held && t.file == s.file
  {
    t := Do(env, s, i, Go);
    t := Do(env, t, i, Go);
  }

  /** A caller collides with the lock file and looks at its age. */
  lemma Look(env: Env, s: State, i: nat) returns (t: State)
    requires Underway(env, s) && i < |s.phases| && s.phases[i] == Contending(s.clock) && s.lockFile.Some?
    ensures Underway(env, t) && SameCallers(env, s, t, i)
    ensures t.phases[i] == Statted(s.clock, s.lockFile.value)
    ensures t.lockFile == s.lockFile && t.threadLocks == s.threadLocks && t.history == s.history
  {
    t := Do(env, s, i, Go);
    t := Do(env, t, i, Go);
    t := Do(env, t, i, Go);
  }

  /** A waiter whose deadline has passed removes the lock file and creates its own. */
  lemma ForceIn(env: Env, s: State, i: nat) returns (t: State)
    requires Underway(env, s) && i < |s.phases| && s.phases[i].Contending? && s.lockFile.Some?
    requires s.clock - s.phases[i].started >= LOCK_TIMEOUT_MS
    ensures Underway(env, t) && SameCallers(env, s, t, i)
    ensures t.phases[i] == Refreshing(s.clock, true, Reloading)
  {
    t := Do(env, s, i, Go);
    t := Do(env, t, i, Go);
    t := Do(env, t, i, Go);
    t := Do(env, t, i, Go);
  }

  /** A waiter reads the clock and finds the lock file stale. */
  lemma FindStale(env: Env, s: State, i: nat) returns (t: State)
    requires Underway(env, s) && i < |s.phases| && s.phases[i].Statted?
    requires s.clock - s.phases[i].mtime >= LOCK_STALE_MS
    ensures Underway(env, t) && SameCallers(env, s, t, i) && t.phases[i] == Breaking(s.phases[i].started)
    ensures t.lockFile == s.lockFile && t.threadLocks == s.threadLocks && t.history == s.history
  {
    assert OnTime(env, s.clock, s.phases[i]);
    t := Do(env, s, i, Go);
  }

  /** A waiter removes the lock file it found stale, whoever owns it by now, and creates its own. */
  lemma BreakIn(env: Env, s: State, i: nat) returns (t: State)
    requires Underway(env, s) && i < |s.phases| && s.phases[i].Breaking?
    requires s.clock - s.phases[i].started < LOCK_TIMEOUT_MS
    ensures Underway(env, t) && SameCallers(env, s, t, i)
    ensures t.phases[i] == Refreshing(s.clock, true, Reloading) && t.lockFile == Some(s.clock)
    ensures t.threadLocks == s.threadLocks && t.history == s.history
  {
    t := Do(env, s, i, Go);
    t := Open(env, t, i);
  }

  /** The only busy process dies; its lock file stays. */
  lemma Die(env: Env, s: State, i: nat) returns (t: State)
    requires Underway(env, s) && env.crashes && i < |s.phases|
    requires forall k :: 0 <= k < |s.phases| && k != i ==> s.phases[k].Idle?
    requires s.threadLocks == {env.processOf[i]}
    ensures Underway(env, t) && t.clock == s.clock && t.threadLocks == {} && t.lockFile == s.lockFile
    ensures forall k :: 0 <= k < |t.phases| ==> t.phases[k].Idle?
    ensures forall k :: 0 <= k < |t.phases| && Blank(env, s, k) ==> Blank(env, t, k)
  {
    t := Extend(env, s, Crash(env.processOf[i]));
  }

  /** A caller with no credentials gets as far as sending its request. */
  lemma Prepare(env: Env, s: State, i: nat) returns (t: State)
    requires Underway(env, s) && i < |s.phases| && Blank(env, s, i)
    requires s.phases[i].Refreshing? && s.phases[i].stage.Reloading?
    ensures Underway(env, t) && SameCallers(env, s, t, i)
    ensures t.phases[i] == s.phases[i].(stage := Sending)
    ensures t.lockFile == s.lockFile && t.threadLocks == s.threadLocks && t.history == s.history
  {
    t := Do(env, s, i, Go);
    t := Do(env, t, i, Go);
  }

  /** A caller that holds the lock file removes it and releases its thread lock. */
  lemma Leave(env: Env, s: State, i: nat) returns (t: State)
    requires Underway(env, s) && i < |s.phases| && s.phases[i].Refreshing?
    requires s.phases[i].stage.Leaving? && s.phases[i].locked
    ensures Underway(env, t) && SameCallers(env, s, t, i) && t.phases[i].Idle? && t.lockFile.None?
    ensures t.threadLocks == s.threadLocks - {env.processOf[i]} && t.history == s.history
    ensures t.file == s.file && t.held == s.held && t.caches == s.caches
  {
    t := Do(env, s, i, Go);
    t := Do(env, t, i, Go);
  }

  /** The server turns the request down, and the caller leaves with nothing. */
  lemma GiveUp(env: Env, s: State, i: nat) returns (t: State)
    requires Underway(env, s) && i < |s.phases| && Blank(env, s, i)
    requires s.phases[i].Refreshing? && s.phases[i].stage.Reloading? && s.phases[i].locked
    ensures Underway(env, t) && SameCallers(env, s, t, i) && t.phases[i].Idle? && t.lockFile.None?
    ensures t.threadLocks == s.threadLocks - {env.processOf[i]}
  {
    t := Prepare(env, s, i);
    t := Do(env, t, i, Go);
    t := Do(env, t, i, Answer(Failure));
    t := Leave(env, t, i);
  }

  // ----- Two callers in the refresh section

  ghost predicate Overlap(env: Env, s: State, a: nat, b: nat) {
    && Underway(env, s) && a < |s.phases| && b < |s.phases| && a != b
    && s.phases[a].Refreshing? && s.phases[a].stage.Reloading? && Blank(env, s, a)
    && s.phases[b].Refreshing? && s.phases[b].stage.Reloading? && Blank(env, s, b)
  }

  /** A waiter whose deadline has passed removes the lock file of whoever holds it. */
  lemma OverlapByTimeout(env: Env, a: nat, b: nat) returns (s: State)
    requires a < |env.processOf| && b < |env.processOf| && env.processOf[a] != env.processOf[b]
    requires env.timeouts
    ensures Overlap(env, s, a, b)
  {
    s := Start(env);
    s := Enter(env, s, b);
    s := Wait(env, s, LOCK_TIMEOUT_MS);
    s := Enter(env, s, a);
    s := Open(env, s, a);
    s := ForceIn(env, s, b);
  }

  /** Only the callers a and b are at work, and neither has credentials. */
  ghost predicate OnlyTwo(env: Env, s: State, a: nat, b: nat) {
    && Underway(env, s) && a < |s.phases| && b < |s.phases| && env.processOf[a] != env.processOf[b]
    && Blank(env, s, a) && Blank(env, s, b)
    && forall k :: 0 <= k < |s.phases| && k != a && k != b ==> s.phases[k].Idle?
  }

  /** A process has died with the lock file in place. */
  lemma Abandon(env: Env, a: nat, b: nat) returns (s: State)
    requires a < |env.processOf| && b < |env.processOf| && env.processOf[a] != env.processOf[b]
    requires env.crashes
    ensures OnlyTwo(env, s, a, b) && s.phases[a].Idle? && s.phases[b].Idle? && s.threadLocks == {}
    ensures s.clock == LOCK_STALE_MS && s.lockFile == Some(0)
  {
    s := Start(env);
    s := Enter(env, s, a);
    s := Open(env, s, a);
    s := Die(env, s, a);
    s := Wait(env, s, LOCK_STALE_MS);
  }

  lemma BothLook(env: Env, s: State, a: nat, b: nat) returns (t: State)
    requires OnlyTwo(env, s, a, b) && s.phases[a].Idle? && s.phases[b].Idle? && s.threadLocks == {}
    requires s.lockFile.Some?
    ensures OnlyTwo(env, t, a, b) && t.clock == s.clock && t.lockFile == s.lockFile
    ensures t.phases[a] == Statted(s.clock, s.lockFile.value) && t.phases[b] == Statted(s.clock, s.lockFile.value)
  {
    t := Enter(env, s, a);
    t := Enter(env, t, b);
    t := Look(env, t, a);
    t := Look(env, t, b);
  }

  /** Two waiters find the lock file of a dead process; the slower one removes the faster one's. */
  lemma OverlapByCrash(env: Env, a: nat, b: nat) returns (s: State)
    requires a < |env.processOf| && b < |env.processOf| && env.processOf[a] != env.processOf[b]
    requires env.crashes
    ensures Overlap(env, s, a, b)
  {
    s := Abandon(env, a, b);
    s := BothLook(env, s, a, b);
    s := FindStale(env, s, a);
    s := FindStale(env, s, b);
    s := BreakIn(env, s, a);
    s := BreakIn(env, s, b);
  }

  /** One caller holds the lock file for a while, and another looks at it. */
  lemma HoldAndLook(env: Env, a: nat, b: nat, held: nat) returns (s: State)
    requires a < |env.processOf| && b < |env.processOf| && env.processOf[a] != env.processOf[b]
    requires held <= env.maxHold
    ensures OnlyTwo(env, s, a, b) && s.clock == held && s.lockFile == Some(0)
    ensures s.phases[a] == Refreshing(0, true, Reloading) && s.phases[b] == Statted(held, 0)
    ensures s.threadLocks == {env.processOf[a], env.processOf[b]}
  {
    s := Start(env);
    s := Enter(env, s, a);
    s := Open(env, s, a);
    s := Wait(env, s, held);
    s := Enter(env, s, b);
    s := Look(env, s, b);
  }

  /** The holder leaves and comes back just when the file the other one saw would have become stale. */
  lemma LeaveAndReturn(env: Env, s: State, a: nat, b: nat, ms: nat) returns (t: State)
    requires OnlyTwo(env, s, a, b) && s.threadLocks == {env.processOf[a], env.processOf[b]}
    requires s.phases[a].Refreshing? && s.phases[a].stage.Reloading? && s.phases[a].locked
    requires s.phases[b] == Statted(s.clock, 0) && ms < LOCK_TIMEOUT_MS
    ensures OnlyTwo(env, t, a, b) && t.clock == s.clock + ms
    ensures t.phases[a].Refreshing? && t.phases[a].stage.Reloading? && t.phases[b] == s.phases[b]
  {
    t := GiveUp(env, s, a);
    t := Wait(env, t, ms);
    t := Enter(env, t, a);
    t := Open(env, t, a);
  }

  /** A waiter looks at a lock file shortly before it is released, is suspended before it reads the
      clock, takes the old file for a stale one, and removes the file of the next holder. */
  lemma OverlapBySlowHolder(env: Env, a: nat, b: nat) returns (s: State)
    requires a < |env.processOf| && b < |env.processOf| && env.processOf[a] != env.processOf[b]
    requires env.maxHold + LOCK_TIMEOUT_MS > LOCK_STALE_MS
    ensures Overlap(env, s, a, b)
  {
    var held := LOCK_STALE_MS - LOCK_TIMEOUT_MS + 1;
    s := HoldAndLook(env, a, b, held);
    s := LeaveAndReturn(env, s, a, b, LOCK_STALE_MS - held);
    s := FindStale(env, s, b);
    s := BreakIn(env, s, b);
  }

  lemma OverlapHappens(env: Env) returns (s: State, a: nat, b: nat)
    requires SeveralProcesses(env) && !LockIsSafe(env)
    ensures Overlap(env, s, a, b)
  {
    a, b :| a < |env.processOf| && b < |env.processOf| && env.processOf[a] != env.processOf[b];
    if env.timeouts {
      s := OverlapByTimeout(env, a, b);
    } else if env.crashes {
      s := OverlapByCrash(env, a, b);
    } else {
      s := OverlapBySlowHolder(env, a, b);
    }
  }

  /** With callers in two or more processes, the lock file excludes in every run exactly when no
      waiter reaches its deadline, no process dies while a caller of its is in the refresh section, and
      the section is left early enough for a waiter's whole patience to pass before the lock file looks
      stale.  Processes without a caller in the section may die at any time. */
  lemma MutualExclusionExactly(env: Env)
    requires SeveralProcesses(env)
    ensures (forall s :: Reachable(env, s) ==> MutuallyExclusive(s))
            <==> !env.timeouts && !env.crashes && env.maxHold + 35_000 <= 120_000
  {
    if LockIsSafe(env) {
      forall s | Reachable(env, s) ensures MutuallyExclusive(s) {
        LockFileExcludes(env, s);
      }
    } else {
      var s, a, b := OverlapHappens(env);
      assert Reachable(env, s) && !MutuallyExclusive(s);
    }
  }

  // ----- Two requests within one validity window

  const TOKEN := "t"
  const LIFETIME_S := 3600

  lemma AskedAgain(s: State, n: nat)
    requires 0 < n < |s.history|
    requires s.history[n - 1] == Granted(s.clock + LIFETIME_S * 1000) && s.history[n] == Requested(s.clock)
    ensures !OneRefreshPerWindow(s)
  {
  }

  /** A caller with no credentials goes all the way to sending its request. */
  lemma Approach(env: Env, s: State, i: nat) returns (t: State)
    requires Underway(env, s) && i < |s.phases| && s.phases[i].Idle? && Blank(env, s, i)
    requires env.processOf[i] !in s.threadLocks && s.lockFile.None?
    ensures Underway(env, t) && SameCallers(env, s, t, i) && t.phases[i] == Refreshing(s.clock, true, Sending)
    ensures t.threadLocks == s.threadLocks + {env.processOf[i]} && t.history == s.history && t.file.None?
  {
    t := Enter(env, s, i);
    t := Open(env, t, i);
    t := Prepare(env, t, i);
  }

  /** A caller sends its request and is granted a token. */
  lemma Obtain(env: Env, s: State, a: nat) returns (t: State)
    requires Underway(env, s) && a < |s.phases| && s.phases[a].Refreshing? && s.phases[a].stage.Sending?
    ensures Underway(env, t) && t.clock == s.clock && t.file == s.file && t.caches == s.caches
    ensures t.lockFile == s.lockFile && t.threadLocks == s.threadLocks
    ensures exists issued :: t.phases == s.phases[a := s.phases[a].(stage := Saving(issued))]
    ensures forall k :: 0 <= k < |s.held| && k != a ==> t.held[k] == s.held[k]
    ensures t.history == s.history + [Requested(s.clock), Granted(s.clock + LIFETIME_S * 1000)]
  {
    t := Do(env, s, a, Go);
    t := Do(env, t, a, Answer(Grant(TOKEN, LIFETIME_S)));
    assert t.phases == s.phases[a := t.phases[a]];
  }

  /** Two callers that overlap both get as far as sending their requests. */
  lemma BothPrepare(env: Env, s: State, a: nat, b: nat) returns (t: State)
    requires Overlap(env, s, a, b)
    ensures Underway(env, t) && a < |t.phases| && b < |t.phases|
    ensures t.phases[a].Refreshing? && t.phases[a].stage.Sending?
            && t.phases[b].Refreshing? && t.phases[b].stage.Sending?
  {
    t := Prepare(env, s, a);
    t := Prepare(env, t, b);
  }

  /** Two callers that overlap both ask for a token. */
  lemma OverlapWastesATokenWindow(env: Env, s: State, a: nat, b: nat) returns (t: State)
    requires Overlap(env, s, a, b)
    ensures Reachable(env, t) && !OneRefreshPerWindow(t)
  {
    t := BothPrepare(env, s, a, b);
    t := Obtain(env, t, a);
    t := Do(env, t, b, Go);
    AskedAgain(t, |t.history| - 1);
  }

  /** A caller is granted a token, fails to save it, and leaves. */
  lemma LeaveUnsaved(env: Env, s: State, a: nat, b: nat) returns (t: State)
    requires Underway(env, s) && a < |s.phases| && b < |s.phases| && env.processOf[a] != env.processOf[b]
    requires env.lostSaves && s.file.None? && Blank(env, s, b)
    requires s.phases[a].Refreshing? && s.phases[a].locked && s.phases[a].stage.Sending?
    ensures Underway(env, t) && t.clock == s.clock && t.phases == s.phases[a := Idle] && Blank(env, t, b)
    ensures t.lockFile.None? && t.threadLocks == s.threadLocks - {env.processOf[a]}
    ensures t.history == s.history + [Requested(s.clock), Granted(s.clock + LIFETIME_S * 1000)]
  {
    t := Obtain(env, s, a);
    t := Do(env, t, a, SaveFails);
    t := Leave(env, t, a);
  }

  lemma FirstSaveIsLost(env: Env, a: nat, b: nat) returns (t: State)
    requires a < |env.processOf| && b < |env.processOf| && env.processOf[a] != env.processOf[b]
    requires env.lostSaves
    ensures Underway(env, t) && t.phases[b].Idle? && Blank(env, t, b) && t.lockFile.None? && t.threadLocks == {}
    ensures t.history == [Requested(t.clock), Granted(t.clock + LIFETIME_S * 1000)]
  {
    t := Start(env);
    t := Approach(env, t, a);
    assert Blank(env, t, b);
    t := LeaveUnsaved(env, t, a, b);
  }

  /** A caller that cannot save its token leaves the next process to ask again. */
  lemma LostSaveWastesATokenWindow(env: Env, a: nat, b: nat) returns (t: State)
    requires a < |env.processOf| && b < |env.processOf| && env.processOf[a] != env.processOf[b]
    requires env.lostSaves
    ensures Reachable(env, t) && !OneRefreshPerWindow(t)
  {
    t := FirstSaveIsLost(env, a, b);
    t := Approach(env, t, b);
    t := Do(env, t, b, Go);
    AskedAgain(t, 2);
  }

  /** With callers in two or more processes, every run sends one refresh per validity window exactly
      when the lock file excludes and saves work.  The callers' force flags do not matter. */
  lemma OneRefreshPerWindowExactly(env: Env)
    requires SeveralProcesses(env)
    ensures (forall s :: Reachable(env, s) ==> OneRefreshPerWindow(s))
            <==> !env.timeouts && !env.crashes && env.maxHold + 35_000 <= 120_000 && !env.lostSaves
  {
    if !LockIsSafe(env) {
      var s, a, b := OverlapHappens(env);
      var t := OverlapWastesATokenWindow(env, s, a, b);
    } else if env.lostSaves {
      var a, b :| 0 <= a < |env.processOf| && 0 <= b < |env.processOf| && env.processOf[a] != env.processOf[b];
      var t := LostSaveWastesATokenWindow(env, a, b);
    } else {
      forall s | Reachable(env, s) ensures OneRefreshPerWindow(s) {
        RefreshesOncePerWindow(env, s);
      }
    }
  }
}
