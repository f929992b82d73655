/** The interleaved writers and indexer over the two kinds of archive in which no hazard can arise: there the
  * index at rest equals a rebuild with no assumption about single steps. */
module SystemCases {
  import opened Collisions
  import opened IndexRuns
  import opened Maintenance
  import opened Rebuild
  import opened RebuildCases
  import opened SearchTables
  import opened TextOrder

  /** A run from a process start in which no path is cleared after a positive multiple of 2^64 marks. */
  ghost predicate SystemRun(r: Reader, states: seq<System>, actions: seq<Action>) {
    && Maintenance.Runs(r, states, actions) && Maintenance.Starts(r, states[0])
    && forall i :: 0 <= i < |actions| ==> NotWrapped(states[i], actions[i])
  }

  /** What the archive side of one action is, in a reachable state. */
  lemma {:induction false} ReachableEvent(r: Reader, states: seq<System>, actions: seq<Action>, n: nat)
    requires SystemRun(r, states, actions) && n < |actions|
    ensures CanAct(states[n], actions[n]) && SysInv(r, states[n]) && Inv(r, Archive(states[n]))
    ensures var e := EventOf(states[n], actions[n]);
      if e.Some? then Enabled(Archive(states[n]), e.value) && Archive(states[n + 1]) == Step(r, Archive(states[n]), e.value)
      else Archive(states[n + 1]) == Archive(states[n])
  {
    hide SysInv, CanAct, Act, EventOf, Enabled, Step, NotWrapped, Maintenance.Starts;
    RunKeepsInvariant(r, states, actions, n);
    ActRefines(r, states[n], actions[n]);
    SysInvHasInv(r, states[n]);
  }

  // ---------------------------------------------------------------- archives without collisions

  ghost predicate OpensWithin(actions: seq<Action>, paths: set<Path>) {
    forall i :: 0 <= i < |actions| && actions[i].Open? ==> actions[i].path in paths
  }

  lemma {:induction false} AppendsWithin(s: System, a: Action, paths: set<Path>)
    requires CanAct(s, a) && Within(Archive(s), paths) && (a.Open? ==> a.path in paths)
    ensures var e := EventOf(s, a); e.Some? && e.value.Append? ==> e.value.path in paths
  {
  }

  lemma {:induction false} SystemStaysWithin(
      r: Reader, states: seq<System>, actions: seq<Action>, n: nat, paths: set<Path>)
    requires SystemRun(r, states, actions) && n < |states|
    requires Within(Archive(states[0]), paths) && OpensWithin(actions, paths)
    ensures Within(Archive(states[n]), paths)
  {
    hide SysInv, CanAct, Act, EventOf, Enabled, Step, Within, Inv, SystemRun, Maintenance.Starts;
    if n > 0 {
      SystemStaysWithin(r, states, actions, n - 1, paths);
      RunShape(r, states, actions);
      ReachableEvent(r, states, actions, n - 1);
      AppendsWithin(states[n - 1], actions[n - 1], paths);
      var e := EventOf(states[n - 1], actions[n - 1]);
      if e.Some? {
        StepWithin(r, Archive(states[n - 1]), e.value, paths);
      }
    }
  }

  lemma {:induction false} RunShape(r: Reader, states: seq<System>, actions: seq<Action>)
    requires SystemRun(r, states, actions)
    ensures |states| == |actions| + 1
  {
  }

  /** Writers and indexer over a key that only one file can have: whenever they come to rest, the index shows under
    * the key what a rebuild from the files of that moment would show. */
  lemma {:induction false} CollisionFreeSystemEqualsRebuild(
      r: Reader, states: seq<System>, actions: seq<Action>, n: nat, paths: set<Path>, order: seq<Path>, key: Key)
    requires SystemRun(r, states, actions) && n < |states|
    requires Within(Archive(states[0]), paths) && OpensWithin(actions, paths) && Uncontested(r, paths, key)
    requires Faithful(r, Archive(states[0]), key)
    requires Quiescent(states[n]) && forall path :: path in order <==> path in states[n].fs
    ensures Shows(states[n].tables, key) == Shows(Rebuilt(r, states[n].fs, order).tables, key)
  {
    hide SysInv, CanAct, Act, EventOf, Enabled, Step, Within, Inv, Hazard, Uncontested, OpensWithin, Faithful, Quiescent,
      Shows, Rebuilt, Maintenance.Runs, Maintenance.Starts;
    RunShape(r, states, actions);
    forall i | 0 <= i < |actions| && CanAct(states[i], actions[i]) && EventOf(states[i], actions[i]).Some?
      ensures !Hazard(r, Archive(states[i]), EventOf(states[i], actions[i]).value, key)
    {
      ReachableEvent(r, states, actions, i);
      SystemStaysWithin(r, states, actions, i, paths);
      UncontestedNoHazard(r, Archive(states[i]), EventOf(states[i], actions[i]).value, paths, key);
    }
    QuiescentEqualsRebuild(r, states, actions, n, order, key);
  }

  // ---------------------------------------------------------------- archives whose files begin with an EIT

  /** The archive side of an action unlinks no file of the key, and commits such a file first with an EIT present
    * record read. */
  ghost predicate EitFirstAction(r: Reader, s: System, a: Action, key: Key) {
    CanAct(s, a) && EventOf(s, a).Some? ==> EitFirst(r, Archive(s), EventOf(s, a).value, key)
  }

  ghost predicate EitFirstRun(r: Reader, states: seq<System>, actions: seq<Action>, key: Key) {
    |states| == |actions| + 1 && forall i :: 0 <= i < |actions| ==> EitFirstAction(r, states[i], actions[i], key)
  }

  lemma {:induction false} SystemKeepsOwning(r: Reader, states: seq<System>, actions: seq<Action>, n: nat, key: Key)
    requires SystemRun(r, states, actions) && n < |states| && EitFirstRun(r, states, actions, key)
    requires EveryRowOwns(r, Archive(states[0]), key)
    ensures EveryRowOwns(r, Archive(states[n]), key)
  {
    hide SysInv, CanAct, Act, EventOf, Enabled, Step, EveryRowOwns, Inv, EitFirst, Maintenance.Runs, Maintenance.Starts;
    if n > 0 {
      RunShape(r, states, actions);
      SystemKeepsOwning(r, states, actions, n - 1, key);
      ReachableEvent(r, states, actions, n - 1);
      var e := EventOf(states[n - 1], actions[n - 1]);
      if e.Some? {
        StepKeepsOwning(r, Archive(states[n - 1]), e.value, key);
      }
    }
  }

  lemma {:induction false} EitFirstSystemStaysFaithful(
      r: Reader, states: seq<System>, actions: seq<Action>, n: nat, key: Key)
    requires SystemRun(r, states, actions) && n < |states| && EitFirstRun(r, states, actions, key)
    requires EveryRowOwns(r, Archive(states[0]), key) && Faithful(r, Archive(states[0]), key)
    ensures Faithful(r, Archive(states[n]), key)
  {
    hide SysInv, CanAct, Act, EventOf, Enabled, Step, EveryRowOwns, Inv, Hazard, EitFirst, Faithful, Maintenance.Runs,
      Maintenance.Starts;
    RunShape(r, states, actions);
    forall i | 0 <= i < |actions| && CanAct(states[i], actions[i]) && EventOf(states[i], actions[i]).Some?
      ensures !Hazard(r, Archive(states[i]), EventOf(states[i], actions[i]).value, key)
    {
      ReachableEvent(r, states, actions, i);
      SystemKeepsOwning(r, states, actions, i, key);
      EitFirstNoHazard(r, Archive(states[i]), EventOf(states[i], actions[i]).value, key);
    }
    SystemStaysFaithful(r, states, actions, n, key);
  }

  /** Writers and indexer over files that are first indexed with an EIT present record, colliding or not: at rest the
    * index equals a rebuild under every key of which either no file was ever unlinked or none is left. */
  lemma {:induction false} EitFirstSystemEqualsRebuild(
      r: Reader, states: seq<System>, actions: seq<Action>, n: nat, order: seq<Path>, key: Key)
    requires SystemRun(r, states, actions) && n < |states|
    requires
      || (EitFirstRun(r, states, actions, key) && EveryRowOwns(r, Archive(states[0]), key)
          && Faithful(r, Archive(states[0]), key))
      || NoneLeft(r, Archive(states[n]), key)
    requires Quiescent(states[n]) && forall path :: path in order <==> path in states[n].fs
    ensures Shows(states[n].tables, key) == Shows(Rebuilt(r, states[n].fs, order).tables, key)
  {
    hide SysInv, EveryRowOwns, Inv, EitFirstRun, Faithful, Quiescent, CaughtUp, Shows, Rebuilt, ArchiveShows, Maintenance.Runs,
      Maintenance.Starts;
    var s := Archive(states[n]);
    RunKeepsInvariant(r, states, actions, n);
    SysInvHasInv(r, states[n]);
    if NoneLeft(r, s, key) {
      GoneIsFaithful(r, s, key);
    } else {
      EitFirstSystemStaysFaithful(r, states, actions, n, key);
    }
    QuiescentCaughtUp(r, states[n]);
    FaithfulShowsArchive(r, s, key);
    RebuildShowsArchive(r, s.fs, order, key);
  }
}
