/** The indexer's task left to itself (src/search_db/indexer.rs): every pass that nothing disturbs brings the system
  * to rest, unless the startup scan, which is never repeated, has missed a file that nobody has marked since. */
module CatchingUp {
  import opened Collisions
  import opened IndexRuns
  import opened Lines
  import opened Maintenance
  import opened Rebuild
  import opened RebuildCases
  import opened SearchTables
  import opened SystemCases
  import opened TextOrder

  /** An action of the indexer's task that nothing disturbs: no writer acts, nothing fails, nothing is unlinked, a
    * path is skipped only when its file is gone, and the scan ends when it has come by every file. */
  ghost predicate Quiet(s: System, a: Action) {
    && CanAct(s, a) && NotWrapped(s, a)
    && (a.Snapshot? || a.Stat? || a.ScanStat? || a.Read? || a.Commit? || a.Clear? || a.Finish? || a.CleanUp?
        || (a.Skip? && a.path !in s.fs) || (a.EndScan? && s.fs.Keys <= s.visited))
  }

  ghost predicate QuietRun(r: Reader, states: seq<System>, actions: seq<Action>) {
    && |states| == |actions| + 1
    && forall i :: 0 <= i < |actions| ==> Quiet(states[i], actions[i]) && states[i + 1] == Act(r, states[i], actions[i])
  }

  lemma {:induction false} QuietKeeps(r: Reader, s: System, a: Action)
    requires SysInv(r, s) && Quiet(s, a)
    ensures var s' := Act(r, s, a);
      && SysInv(r, s') && s'.fs == s.fs && s'.writers == s.writers
      && (!a.Snapshot? ==> s'.marks == s.marks)
      && (!s.scanning ==> !s'.scanning)
  {
    hide SysInv, IngestFile, Cleanup;
    ActKeeps(r, s, a);
  }

  // ---------------------------------------------------------------- what the scan has missed

  predicate InScan(phase: Phase, path: Path) {
    (phase.Statted? || phase.HasRead?) && phase.scan && phase.path == path
  }

  /** A file of an earlier run that the scan has passed by without indexing it and that nobody has marked since. */
  ghost predicate Missed(s: System, path: Path) {
    && path in s.fs && path in s.unscanned && path !in s.dirty
    && (s.scanning ==> path in s.visited) && !InScan(s.phase, path)
  }

  /** When the indexer is left to itself, what is missed stays missed and nothing else becomes so. */
  lemma {:induction false} QuietKeepsMissed(r: Reader, s: System, a: Action, path: Path)
    requires SysInv(r, s) && Quiet(s, a)
    ensures Missed(Act(r, s, a), path) <==> Missed(s, path)
  {
    hide Inv, NotLost, Counted, Traced, Resumable, Settled, IngestFile, Cleanup, Pending, NotWrapped;
    if a.Commit? && !s.phase.scan {
      ReadIsDirty(r, s);
    }
  }

  /** How a file comes to be missed: taking its size or reading it fails during the scan. */
  lemma {:induction false} FailedScanMisses(r: Reader, s: System, path: Path)
    requires Starts(r, s) && path in s.fs
    ensures CanAct(s, ScanStat(path)) && CanAct(Act(r, s, ScanStat(path)), Fail)
    ensures Missed(Act(r, Act(r, s, ScanStat(path)), Fail), path)
  {
    hide Inv;
  }

  // ---------------------------------------------------------------- every undisturbed pass

  /** Since the last snapshot nothing was marked, and only what is left of the snapshot is dirty. */
  ghost predicate OnlyTodoDirty(s: System) {
    && !s.scanning && s.marks == map[]
    && forall path :: path in s.fs && path in s.dirty ==> path in Todo(s.phase)
  }

  lemma {:induction false} QuietKeepsTodo(r: Reader, s: System, a: Action)
    requires SysInv(r, s) && Quiet(s, a)
    requires a.Snapshot? || OnlyTodoDirty(s)
    ensures OnlyTodoDirty(Act(r, s, a))
  {
    hide Inv, NotLost, Counted, Settled, CompleteLines, IngestFile, Cleanup, Pending;
    if a.Clear? {
      ClearsIffMultiple(r, s);
    }
  }

  /** What holds all along an undisturbed run, and from its snapshot on. */
  lemma {:induction false} RunKeepsQuiet(r: Reader, states: seq<System>, actions: seq<Action>, k: nat, n: nat, path: Path)
    requires QuietRun(r, states, actions) && SysInv(r, states[0])
    requires k < |actions| && actions[k].Snapshot? && n <= |actions|
    ensures SysInv(r, states[n]) && states[n].fs == states[0].fs && states[n].writers == states[0].writers
    ensures Missed(states[n], path) <==> Missed(states[0], path)
    ensures n > k ==> OnlyTodoDirty(states[n])
  {
    hide SysInv, CanAct, NotWrapped, Act, OnlyTodoDirty, Missed;
    if n > 0 {
      RunKeepsQuiet(r, states, actions, k, n - 1, path);
      QuietKeeps(r, states[n - 1], actions[n - 1]);
      QuietKeepsMissed(r, states[n - 1], actions[n - 1], path);
      if n > k {
        QuietKeepsTodo(r, states[n - 1], actions[n - 1]);
      }
    }
  }

  /** From the snapshot on, whatever order an undisturbed pass takes its paths in: once nothing of the snapshot is
    * left, no present file is dirty. */
  lemma {:induction false} EveryPassClears(r: Reader, states: seq<System>, actions: seq<Action>, k: nat, path: Path)
    requires QuietRun(r, states, actions) && SysInv(r, states[0])
    requires k < |actions| && actions[k].Snapshot? && Todo(states[|actions|].phase) == map[]
    ensures SysInv(r, states[|actions|]) && states[|actions|].fs == states[0].fs
    ensures path in states[0].fs ==> path !in states[|actions|].dirty
  {
    hide SysInv, CanAct, NotWrapped, Act;
    RunKeepsQuiet(r, states, actions, k, |actions|, path);
  }

  /** A whole pass, undisturbed: it snapshots, deals with all of the snapshot, and cleans up last. */
  ghost predicate WholePass(r: Reader, states: seq<System>, actions: seq<Action>, k: nat) {
    && QuietRun(r, states, actions)
    && k < |actions| && actions[k].Snapshot? && actions[|actions| - 1].CleanUp?
    && Todo(states[|actions|].phase) == map[]
  }

  ghost predicate NonePending(s: System) {
    forall path :: path in s.fs ==> !Pending(s, path)
  }

  /** Every whole pass that nothing disturbs, from whatever reachable state in which no writer is between a newline
    * and its mark, ends at rest exactly when no file was missed. */
  lemma {:induction false} EveryWholePassRestsIff(r: Reader, states: seq<System>, actions: seq<Action>, k: nat)
    requires WholePass(r, states, actions, k) && SysInv(r, states[0]) && NonePending(states[0])
    ensures Quiescent(states[|actions|]) <==> forall path :: !Missed(states[0], path)
  {
    hide SysInv, CanAct, NotWrapped, Act, Pending, NoDeletedOwner;
    var n := |actions|;
    var end := states[n];
    forall path
      ensures path in end.fs ==> path !in end.dirty && !Pending(end, path)
      ensures path in end.fs && path in end.unscanned <==> Missed(states[0], path)
    {
      RunKeepsQuiet(r, states, actions, k, n, path);
      SameWriters(states[0], end, path);
      CleanUpEndsResting(r, states[n - 1], actions[n - 1]);
    }
    forall key ensures NoDeletedOwner(Archive(end), key) {
      RunKeepsQuiet(r, states, actions, k, n - 1, "");
      CleanedUp(r, states[n - 1], actions[n - 1], key);
    }
  }

  lemma {:induction false} SameWriters(s: System, t: System, path: Path)
    requires s.writers == t.writers
    ensures Pending(s, path) <==> Pending(t, path)
  {
  }

  lemma {:induction false} CleanUpEndsResting(r: Reader, s: System, a: Action)
    requires CanAct(s, a) && a.CleanUp?
    ensures Act(r, s, a).phase.Resting? && !Act(r, s, a).scanning
  {
    hide Cleanup;
  }

  lemma {:induction false} CleanedUp(r: Reader, s: System, a: Action, key: Key)
    requires SysInv(r, s) && CanAct(s, a) && a.CleanUp?
    ensures NoDeletedOwner(Archive(Act(r, s, a)), key)
  {
    hide SysInv, NoDeletedOwner, Cleanup;
    SysInvHasInv(r, s);
    CleanUpRemovesDeletedOwners(r, Archive(s), key);
  }

  // ---------------------------------------------------------------- a pass can always be finished

  ghost predicate LeadsBy(r: Reader, s: System, t: System, states: seq<System>, actions: seq<Action>) {
    QuietRun(r, states, actions) && states[0] == s && states[|actions|] == t
  }

  /** Undisturbed actions lead from one state to another. */
  ghost predicate Leads(r: Reader, s: System, t: System) {
    exists states, actions :: LeadsBy(r, s, t, states, actions)
  }

  lemma {:induction false} LeadsNowhere(r: Reader, s: System)
    ensures Leads(r, s, s)
  {
    assert LeadsBy(r, s, s, [s], []);
  }

  lemma {:induction false} LeadsOn(r: Reader, s: System, t: System, a: Action)
    requires Leads(r, s, t) && Quiet(t, a)
    ensures Leads(r, s, Act(r, t, a))
  {
    hide CanAct, NotWrapped, Act;
    var states, actions :| LeadsBy(r, s, t, states, actions);
    assert LeadsBy(r, s, Act(r, t, a), states + [Act(r, t, a)], actions + [a]);
  }

  /** No count of marks has come round to a positive multiple of 2^64. */
  ghost predicate Unwrapped(s: System) {
    forall path :: MarksOf(s, path) == 0 || MarksOf(s, path) % Recording.GENERATIONS != 0
  }

  ghost predicate Onwards(r: Reader, s: System, t: System) {
    && Leads(r, s, t) && SysInv(r, t) && Unwrapped(t)
    && t.fs == s.fs && t.writers == s.writers
  }

  lemma {:induction false} GoOn(r: Reader, s: System, t: System, a: Action)
    requires Onwards(r, s, t) && Quiet(t, a)
    ensures Onwards(r, s, Act(r, t, a))
  {
    hide SysInv, CanAct, NotWrapped, Leads;
    LeadsOn(r, s, t, a);
    QuietKeeps(r, t, a);
    if a.Snapshot? {
      assert Act(r, t, a).marks == map[];
    } else {
      hide Act;
      assert forall path :: MarksOf(Act(r, t, a), path) == MarksOf(t, path);
    }
  }

  /** Reads and commits a file whose size has been taken. */
  lemma {:induction false} ReadAndCommit(r: Reader, s: System, t: System) returns (u: System)
    requires Onwards(r, s, t) && t.phase.Statted?
    ensures Onwards(r, s, u) && u.scanning == t.scanning && u.visited == t.visited
    ensures u.phase == (if t.phase.scan then Resting else Committed(t.phase.todo, t.phase.path))
  {
    hide Onwards, Unwrapped, SysInv, IngestFile;
    StattedPresent(r, s, t);
    GoOn(r, s, t, Read);
    var v := Act(r, t, Read);
    GoOn(r, s, v, Commit);
    u := Act(r, v, Commit);
  }

  lemma {:induction false} StattedPresent(r: Reader, s: System, t: System)
    requires Onwards(r, s, t) && t.phase.Statted?
    ensures t.phase.path in t.fs
  {
    hide Inv, NotLost, Counted;
  }

  lemma {:induction false} ClearCommitted(r: Reader, s: System, t: System) returns (u: System)
    requires Onwards(r, s, t) && t.phase.Committed?
    ensures Onwards(r, s, u) && u.phase == Passing(t.phase.todo - {t.phase.path}) && u.scanning == t.scanning
  {
    hide SysInv, Leads;
    assert NotWrapped(t, Clear);
    GoOn(r, s, t, Clear);
    u := Act(r, t, Clear);
  }

  /** Deals with one path of the snapshot. */
  lemma {:induction false} OnePath(r: Reader, s: System, t: System, path: Path) returns (u: System)
    requires Onwards(r, s, t) && t.phase.Passing? && path in t.phase.todo
    ensures Onwards(r, s, u) && u.phase == Passing(t.phase.todo - {path}) && u.scanning == t.scanning
  {
    hide Leads, Unwrapped, SysInv, IngestFile;
    if path in t.fs {
      GoOn(r, s, t, Stat(path));
      u := ReadAndCommit(r, s, Act(r, t, Stat(path)));
      u := ClearCommitted(r, s, u);
    } else {
      GoOn(r, s, t, Skip(path));
      u := Act(r, t, Skip(path));
    }
  }

  lemma {:induction false} FinishPass(r: Reader, s: System, t: System) returns (u: System)
    requires Onwards(r, s, t) && t.phase.Passing?
    ensures Onwards(r, s, u) && u.phase.Resting? && u.scanning == t.scanning
    decreases |t.phase.todo|
  {
    hide Onwards;
    var todo := t.phase.todo;
    if path :| path in todo {
      u := OnePath(r, s, t, path);
      assert |todo - {path}| < |todo| by {
        assert (todo - {path}).Keys == todo.Keys - {path};
      }
      u := FinishPass(r, s, u);
    } else {
      GoOn(r, s, t, Finish);
      u := Act(r, t, Finish);
    }
  }

  /** Whatever the indexer is in the middle of, it can be brought to an end. */
  lemma {:induction false} FinishPhase(r: Reader, s: System, t: System) returns (u: System)
    requires Onwards(r, s, t)
    ensures Onwards(r, s, u) && u.phase.Resting?
  {
    hide Onwards, IngestFile;
    u := t;
    if u.phase.Statted? {
      u := ReadAndCommit(r, s, u);
    } else if u.phase.HasRead? {
      GoOn(r, s, u, Commit);
      u := Act(r, u, Commit);
    }
    if u.phase.Committed? {
      u := ClearCommitted(r, s, u);
    }
    if u.phase.Passing? {
      u := FinishPass(r, s, u);
    }
  }

  /** Comes by every file the scan has not come by yet, and ends the scan. */
  lemma {:induction false} FinishScan(r: Reader, s: System, t: System) returns (u: System)
    requires Onwards(r, s, t) && t.phase.Resting?
    ensures Onwards(r, s, u) && u.phase.Resting? && !u.scanning
    decreases t.fs.Keys - t.visited
  {
    hide Leads, Unwrapped, SysInv;
    if !t.scanning {
      u := t;
    } else if path :| path in t.fs.Keys && path !in t.visited {
      GoOn(r, s, t, ScanStat(path));
      u := ReadAndCommit(r, s, Act(r, t, ScanStat(path)));
      u := FinishScan(r, s, u);
    } else {
      GoOn(r, s, t, EndScan);
      u := Act(r, t, EndScan);
    }
  }

  lemma {:induction false} JoinRuns(
      r: Reader, states: seq<System>, actions: seq<Action>, more: seq<System>, moreActions: seq<Action>)
    returns (all: seq<System>, steps: seq<Action>)
    requires QuietRun(r, states, actions) && QuietRun(r, more, moreActions) && more[0] == states[|actions|]
    ensures QuietRun(r, all, steps) && all[0] == states[0] && all[|steps|] == more[|moreActions|]
    ensures steps == actions + moreActions
  {
    hide CanAct, NotWrapped, Act;
    all, steps := states + more[1..], actions + moreActions;
    forall i | 0 <= i < |steps| ensures Quiet(all[i], steps[i]) && all[i + 1] == Act(r, all[i], steps[i]) {
      if i >= |actions| {
        var k := i - |actions|;
        assert all[i] == more[k] && all[i + 1] == more[k + 1] && steps[i] == moreActions[k];
      }
    }
  }

  /** From every reachable state there is an undisturbed whole pass. */
  lemma {:induction false} WholePassExists(r: Reader, s: System)
    returns (states: seq<System>, actions: seq<Action>, k: nat)
    requires SysInv(r, s) && Unwrapped(s)
    ensures WholePass(r, states, actions, k) && states[0] == s
  {
    hide SysInv, Unwrapped, Act, CanAct, NotWrapped;
    LeadsNowhere(r, s);
    var t := FinishPhase(r, s, s);
    t := FinishScan(r, s, t);
    states, actions :| LeadsBy(r, s, t, states, actions);
    k := |actions|;
    var more, moreActions := SnapshotToCleanUp(r, s, t);
    states, actions := JoinRuns(r, states, actions, more, moreActions);
  }

  lemma {:induction false} OneQuietAction(r: Reader, t: System, a: Action)
    returns (states: seq<System>, actions: seq<Action>)
    requires t.phase.Resting? && !t.scanning && (a.Snapshot? || a.CleanUp?)
    ensures Quiet(t, a) && QuietRun(r, states, actions)
    ensures states == [t, Act(r, t, a)] && actions == [a]
  {
    hide Cleanup;
    states, actions := [t, Act(r, t, a)], [a];
  }

  lemma {:induction false} QuietWitness(r: Reader, s: System, t: System)
    returns (states: seq<System>, actions: seq<Action>)
    requires Leads(r, s, t)
    ensures QuietRun(r, states, actions) && states[0] == s && states[|actions|] == t
  {
    hide CanAct, NotWrapped, Act;
    states, actions :| LeadsBy(r, s, t, states, actions);
  }

  lemma {:induction false} SnapshotToCleanUp(r: Reader, s: System, t: System)
    returns (states: seq<System>, actions: seq<Action>)
    requires Onwards(r, s, t) && t.phase.Resting? && !t.scanning
    ensures QuietRun(r, states, actions) && states[0] == t && |actions| > 0
    ensures actions[0].Snapshot? && actions[|actions| - 1].CleanUp? && Todo(states[|actions|].phase) == map[]
  {
    hide SysInv, Unwrapped, Quiet, Leads;
    var first, firstAction := OneQuietAction(r, t, Snapshot);
    GoOn(r, s, t, Snapshot);
    var snapped := Act(r, t, Snapshot);
    assert !snapped.scanning;
    LeadsNowhere(r, snapped);
    var u := FinishPass(r, snapped, snapped);
    var last, lastAction := OneQuietAction(r, u, Action.CleanUp);
    assert Todo(last[1].phase) == map[];
    hide Act, CanAct;
    states, actions := QuietWitness(r, snapped, u);
    states, actions := JoinRuns(r, first, firstAction, states, actions);
    states, actions := JoinRuns(r, states, actions, last, lastAction);
  }

  /** Left to itself, the indexer can come to rest exactly when no file was missed. */
  lemma {:induction false} RestIsReachableIff(r: Reader, s: System)
    requires SysInv(r, s) && Unwrapped(s) && NonePending(s)
    ensures (exists end :: Leads(r, s, end) && Quiescent(end)) <==> forall path :: !Missed(s, path)
  {
    hide SysInv, Quiescent, Missed, Unwrapped, NonePending, CanAct, NotWrapped, Act;
    var states, actions, k := WholePassExists(r, s);
    EveryWholePassRestsIff(r, states, actions, k);
    assert LeadsBy(r, s, states[|actions|], states, actions);
    if end :| Leads(r, s, end) && Quiescent(end) {
      var more, moreActions :| LeadsBy(r, s, end, more, moreActions);
      forall path ensures !Missed(s, path) {
        MissedStays(r, more, moreActions, |moreActions|, path);
        RestMissesNothing(end, path);
      }
    }
  }

  lemma {:induction false} MissedStays(r: Reader, states: seq<System>, actions: seq<Action>, n: nat, path: Path)
    requires QuietRun(r, states, actions) && SysInv(r, states[0]) && n <= |actions|
    ensures SysInv(r, states[n]) && (Missed(states[n], path) <==> Missed(states[0], path))
  {
    hide SysInv, CanAct, NotWrapped, Act, Missed;
    if n > 0 {
      MissedStays(r, states, actions, n - 1, path);
      QuietKeeps(r, states[n - 1], actions[n - 1]);
      QuietKeepsMissed(r, states[n - 1], actions[n - 1], path);
    }
  }

  lemma {:induction false} RestMissesNothing(s: System, path: Path)
    requires Quiescent(s)
    ensures !Missed(s, path)
  {
    hide NoDeletedOwner, Pending;
  }

  // ---------------------------------------------------------------- catching up with a rebuild

  lemma {:induction false} RunsOn(
      r: Reader, states: seq<System>, actions: seq<Action>, more: seq<System>, moreActions: seq<Action>)
    returns (all: seq<System>, steps: seq<Action>)
    requires SystemRun(r, states, actions) && QuietRun(r, more, moreActions) && more[0] == states[|actions|]
    ensures SystemRun(r, all, steps) && all[0] == states[0] && all[|steps|] == more[|moreActions|]
    ensures steps == actions + moreActions
  {
    hide CanAct, NotWrapped, Act, Maintenance.Starts;
    all, steps := states + more[1..], actions + moreActions;
    forall i | 0 <= i < |steps|
      ensures CanAct(all[i], steps[i]) && all[i + 1] == Act(r, all[i], steps[i]) && NotWrapped(all[i], steps[i])
    {
      if i >= |actions| {
        var k := i - |actions|;
        assert all[i] == more[k] && all[i + 1] == more[k + 1] && steps[i] == moreActions[k];
        assert Quiet(more[k], moreActions[k]);
      }
    }
  }

  /** From every reachable state in which no writer is between a newline and its mark and no file was missed, every
    * undisturbed whole pass makes the index show, under every key that only one file can have, what a rebuild would
    * show. */
  lemma {:induction false} EveryWholePassEqualsRebuild(
      r: Reader, states: seq<System>, actions: seq<Action>, more: seq<System>, moreActions: seq<Action>, k: nat,
      paths: set<Path>, order: seq<Path>, key: Key)
    requires SystemRun(r, states, actions)
    requires Within(Archive(states[0]), paths) && OpensWithin(actions, paths) && Uncontested(r, paths, key)
    requires Faithful(r, Archive(states[0]), key)
    requires WholePass(r, more, moreActions, k) && more[0] == states[|actions|]
    requires NonePending(more[0]) && forall path :: !Missed(more[0], path)
    requires forall path :: path in order <==> path in more[|moreActions|].fs
    ensures var end := more[|moreActions|];
      Shows(end.tables, key) == Shows(Rebuilt(r, end.fs, order).tables, key)
  {
    hide SysInv, CanAct, Act, NotWrapped, Quiescent, Within, Uncontested, Faithful, Shows, Rebuilt, NonePending, Missed,
      Maintenance.Starts;
    RunKeepsInvariant(r, states, actions, |actions|);
    EveryWholePassRestsIff(r, more, moreActions, k);
    var all, steps := RunsOn(r, states, actions, more, moreActions);
    forall i | 0 <= i < |moreActions| ensures !moreActions[i].Open? {
      assert Quiet(more[i], moreActions[i]);
    }
    CollisionFreeSystemEqualsRebuild(r, all, steps, |steps|, paths, order, key);
  }
}
