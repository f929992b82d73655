/** Binding a Unix socket under an advisory lock (src/serve.rs): any number of processes step through locking,
  * inspecting, probing, unlinking and binding one path, and may crash at any point. */
module SocketBind {
  import opened Wrappers

  /** What is at the socket path. A socket file remembers the listener it was bound for, dead or alive. */
  datatype PathEntry = Missing | NotASocket | Socket(listener: nat)

  /** Where a process is. From `Locked` to `Dropping` it holds the lock; `Dying` has lost it to a crash while its
    * listener is still open, since a dying process closes its files one after another. */
  datatype Stage =
    | Idle
    | Locked
    | FoundSocket
    | FoundStale
    | PathFree
    | Serving(listener: nat)
    | Dropping
    | Dying(listener: nat)

  /** `live` maps each open listener to its process. */
  datatype State = State(entry: PathEntry, live: map<nat, nat>, holder: Option<nat>, stages: map<nat, Stage>, nextListener: nat)

  datatype Action =
    | TryLock(p: nat)
    | Stat(p: nat)
    | Connect(p: nat)
    | Remove(p: nat)
    | Bind(p: nat)
    | CloseListener(p: nat)
    | ReleaseLock(p: nat)
    | CrashLosingLock(p: nat)
    | FinishCrash(p: nat)
    | CreateOther
    | RemoveOther

  function StageOf(s: State, p: nat): Stage {
    if p in s.stages then s.stages[p] else Idle
  }

  predicate CanAct(s: State, a: Action) {
    match a
    case TryLock(p) => StageOf(s, p).Idle?
    case Stat(p) => StageOf(s, p).Locked?
    case Connect(p) => StageOf(s, p).FoundSocket?
    case Remove(p) => StageOf(s, p).FoundStale?
    case Bind(p) => StageOf(s, p).PathFree?
    case CloseListener(p) => StageOf(s, p).Serving?
    case ReleaseLock(p) => StageOf(s, p).Dropping?
    case CrashLosingLock(p) => s.holder == Some(p)
    case FinishCrash(p) => StageOf(s, p).Dying?
    case CreateOther => s.entry.Missing?
    case RemoveOther => s.entry.NotASocket?
  }

  function Go(s: State, p: nat, stage: Stage): State {
    s.(stages := s.stages[p := stage])
  }

  /** An error return drops the lock file and with it the lock. */
  function Fail(s: State, p: nat): State {
    Go(s, p, Idle).(holder := None)
  }

  function Act(s: State, a: Action): State
    requires CanAct(s, a)
  {
    match a
    case TryLock(p) => if s.holder.None? then Go(s, p, Locked).(holder := Some(p)) else s
    case Stat(p) =>
      match s.entry {
        case Missing => Go(s, p, PathFree)
        case NotASocket => Fail(s, p)
        case Socket(_) => Go(s, p, FoundSocket)
      }
    case Connect(p) =>
      match s.entry {
        case Missing => Fail(s, p)
        case NotASocket => Go(s, p, FoundStale)
        case Socket(listener) => if listener in s.live then Fail(s, p) else Go(s, p, FoundStale)
      }
    case Remove(p) => if s.entry.Missing? then Fail(s, p) else Go(s, p, PathFree).(entry := Missing)
    case Bind(p) =>
      if s.entry.Missing? then
        Go(s, p, Serving(s.nextListener)).(
          entry := Socket(s.nextListener), live := s.live[s.nextListener := p], nextListener := s.nextListener + 1)
      else Fail(s, p)
    case CloseListener(p) => Go(s, p, Dropping).(live := s.live - {StageOf(s, p).listener})
    case ReleaseLock(p) => Fail(s, p)
    case CrashLosingLock(p) =>
      if StageOf(s, p).Serving? then Go(s, p, Dying(StageOf(s, p).listener)).(holder := None) else Fail(s, p)
    case FinishCrash(p) => Go(s, p, Idle).(live := s.live - {StageOf(s, p).listener})
    case CreateOther => s.(entry := NotASocket)
    case RemoveOther => s.(entry := Missing)
  }

  ghost predicate Runs(states: seq<State>, actions: seq<Action>) {
    && |states| == |actions| + 1
    && forall i :: 0 <= i < |actions| ==> CanAct(states[i], actions[i]) && states[i + 1] == Act(states[i], actions[i])
  }

  /** Nobody holds the lock or listens; a socket file may have been left by an earlier boot. */
  ghost predicate Starts(s: State) {
    && s.live == map[] && s.holder.None? && s.stages == map[]
    && (s.entry.Socket? ==> s.entry.listener < s.nextListener)
  }

  // ---------------------------------------------------------------- the invariant

  predicate HoldsLock(stage: Stage) {
    !stage.Idle? && !stage.Dying?
  }

  ghost predicate ProcessHolds(s: State, p: nat) {
    var stage := StageOf(s, p);
    && (HoldsLock(stage) <==> s.holder == Some(p))
    && (stage.FoundStale? ==> s.entry.Socket? ==> s.entry.listener !in s.live)
    && (stage.Serving? || stage.Dying? ==> stage.listener in s.live && s.live[stage.listener] == p)
  }

  ghost predicate Inv(s: State) {
    && (forall listener :: listener in s.live ==> s.entry == Socket(listener) && listener < s.nextListener)
    && (forall p :: ProcessHolds(s, p))
    && (s.entry.Socket? ==> s.entry.listener < s.nextListener)
  }

  lemma {:induction false} ActKeepsProcess(s: State, a: Action, p: nat)
    requires Inv(s) && CanAct(s, a)
    ensures ProcessHolds(Act(s, a), p)
  {
    assert ProcessHolds(s, p);
    if !a.CreateOther? && !a.RemoveOther? {
      assert ProcessHolds(s, a.p);
    }
  }

  lemma {:induction false} ActKeepsListeners(s: State, a: Action)
    requires Inv(s) && CanAct(s, a)
    ensures var s' := Act(s, a);
      && (forall listener :: listener in s'.live ==> s'.entry == Socket(listener) && listener < s'.nextListener)
      && (s'.entry.Socket? ==> s'.entry.listener < s'.nextListener)
  {
    if !a.CreateOther? && !a.RemoveOther? {
      assert ProcessHolds(s, a.p);
    }
  }

  lemma {:induction false} RunKeeps(states: seq<State>, actions: seq<Action>, n: nat)
    requires Runs(states, actions) && Starts(states[0]) && n < |states|
    ensures Inv(states[n])
  {
    hide CanAct, Act;
    if n > 0 {
      RunKeeps(states, actions, n - 1);
      var s, a := states[n - 1], actions[n - 1];
      ActKeepsListeners(s, a);
      forall p ensures ProcessHolds(Act(s, a), p) {
        ActKeepsProcess(s, a, p);
      }
    }
  }

  /** In every reachable state at most one listener is live, a live listener is reached through the path, and
    * removing the path never removes the socket of a live one. */
  lemma {:induction false} OneLiveListener(states: seq<State>, actions: seq<Action>, n: nat, a: nat, b: nat, p: nat)
    requires Runs(states, actions) && Starts(states[0]) && n < |states|
    ensures var s := states[n];
      && (a in s.live && b in s.live ==> a == b)
      && (StageOf(s, p).Serving? ==> s.entry == Socket(StageOf(s, p).listener) && s.holder == Some(p))
      && (CanAct(s, Remove(p)) ==> forall listener :: listener in s.live ==> s.entry != Socket(listener))
  {
    hide Act;
    RunKeeps(states, actions, n);
    assert ProcessHolds(states[n], p);
  }

  /** What stands in the way is left as it is: a file that is no socket, a listener that answers and a path that has
    * changed meanwhile make a process give up its attempt, and the lock with it. */
  lemma {:induction false} RefusesWithoutTouching(s: State, a: Action, p: nat)
    requires Inv(s) && CanAct(s, a)
    requires
      || (a == Stat(p) && s.entry.NotASocket?)
      || (a == Connect(p) && (s.entry.Missing? || (s.entry.Socket? && s.entry.listener in s.live)))
      || (a == Remove(p) && s.entry.Missing?)
      || (a == Bind(p) && !s.entry.Missing?)
    ensures var s' := Act(s, a);
      s'.entry == s.entry && s'.live == s.live && StageOf(s', p).Idle? && s.holder == Some(p) && s'.holder.None?
  {
    assert ProcessHolds(s, p);
  }

  /** Two processes never hold the lock at once. */
  lemma {:induction false} OneLockHolder(states: seq<State>, actions: seq<Action>, n: nat, p: nat, q: nat)
    requires Runs(states, actions) && Starts(states[0]) && n < |states|
    requires HoldsLock(StageOf(states[n], p)) && HoldsLock(StageOf(states[n], q))
    ensures p == q
  {
    hide Act, CanAct;
    RunKeeps(states, actions, n);
    assert ProcessHolds(states[n], p) && ProcessHolds(states[n], q);
  }

  /** A socket left behind by a crash does not block the path: once the lock is free and the old listener gone,
    * an idle process gets through to serving. */
  lemma {:induction false} StaleSocketIsReplaced(s: State, p: nat) returns (probing: State, free: State, end: State)
    requires s.holder.None? && s.live == map[] && s.entry.Socket? && StageOf(s, p).Idle?
    ensures CanAct(s, TryLock(p)) && CanAct(Act(s, TryLock(p)), Stat(p))
    ensures probing == Act(Act(s, TryLock(p)), Stat(p))
    ensures CanAct(probing, Connect(p)) && CanAct(Act(probing, Connect(p)), Remove(p))
    ensures free == Act(Act(probing, Connect(p)), Remove(p))
    ensures CanAct(free, Bind(p)) && end == Act(free, Bind(p))
    ensures StageOf(end, p).Serving? && end.entry == Socket(StageOf(end, p).listener) && StageOf(end, p).listener in end.live
  {
    probing := Act(Act(s, TryLock(p)), Stat(p));
    free := Act(Act(probing, Connect(p)), Remove(p));
    end := Act(free, Bind(p));
  }
}
