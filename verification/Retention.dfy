/** Garbage collection of expired archive files while streams open new ones (src/archive.rs). A writer names its
  * file after an earlier clock reading and activates it later; collection takes its cutoff, then snapshots the
  * active files, then unlinks one expired file after another. */
module Retention {
  /** Times are nanoseconds on one clock. */
  const SECOND: int := 1_000_000_000

  /** A filename carries its recording start in whole seconds; `tag` is the rest of the path. */
  datatype Name = Name(startedAt: int, tag: nat)

  /** A writer that has read the clock to name its file, and one that has created the file. */
  datatype Opening = Naming(at: int) | Created(at: int, file: Name)

  datatype Collection = Idle | Cut(cutoff: int) | Collecting(cutoff: int, spared: set<Name>)

  datatype State = State(
    now: int,
    files: set<Name>,
    openings: map<nat, Opening>,
    active: map<nat, Name>,
    collection: Collection)

  datatype Action =
    | Tick(elapsed: nat)
    | ReadClock(writer: nat)
    | Create(writer: nat, tag: nat)
    | GiveUp(writer: nat)
    | Activate(writer: nat, stream: nat)
    | Deactivate(stream: nat)
    | StartCollection
    | SnapshotActive
    | Remove(file: Name)
    | EndCollection

  function StartedAt(at: int): int {
    at / SECOND
  }

  predicate IsExpired(file: Name, cutoff: int) {
    file.startedAt * SECOND < cutoff
  }

  function ActiveFiles(active: map<nat, Name>): set<Name> {
    set stream | stream in active :: active[stream]
  }

  predicate Able(s: State, a: Action) {
    match a
    case Tick(_) => true
    case ReadClock(w) => w !in s.openings
    case Create(w, tag) =>
      w in s.openings && s.openings[w].Naming? && Name(StartedAt(s.openings[w].at), tag) !in s.files
    case GiveUp(w) => w in s.openings
    case Activate(w, _) => w in s.openings && s.openings[w].Created?
    case Deactivate(_) => true
    case StartCollection => s.collection.Idle?
    case SnapshotActive => s.collection.Cut?
    case Remove(file) =>
      s.collection.Collecting? && file in s.files && IsExpired(file, s.collection.cutoff) && file !in s.collection.spared
    case EndCollection => !s.collection.Idle?
  }

  /** `delay` bounds the time from a writer's clock reading to its activation. */
  predicate CanAct(s: State, a: Action, delay: nat) {
    Able(s, a) && (a.Activate? ==> s.now <= s.openings[a.writer].at + delay)
  }

  function Act(s: State, a: Action, retention: nat): State
    requires Able(s, a)
  {
    match a
    case Tick(elapsed) => s.(now := s.now + elapsed)
    case ReadClock(w) => s.(openings := s.openings[w := Naming(s.now)])
    case Create(w, tag) =>
      var at := s.openings[w].at;
      var file := Name(StartedAt(at), tag);
      s.(files := s.files + {file}, openings := s.openings[w := Created(at, file)])
    case GiveUp(w) => s.(openings := s.openings - {w})
    case Activate(w, stream) => s.(active := s.active[stream := s.openings[w].file], openings := s.openings - {w})
    case Deactivate(stream) => s.(active := s.active - {stream})
    case StartCollection => s.(collection := Cut(s.now - retention))
    case SnapshotActive => s.(collection := Collecting(s.collection.cutoff, ActiveFiles(s.active)))
    case Remove(file) => s.(files := s.files - {file})
    case EndCollection => s.(collection := Idle)
  }

  ghost predicate Runs(states: seq<State>, actions: seq<Action>, retention: nat, delay: nat) {
    && |states| == |actions| + 1
    && forall i :: 0 <= i < |actions| ==>
      CanAct(states[i], actions[i], delay) && states[i + 1] == Act(states[i], actions[i], retention)
  }

  ghost predicate Starts(s: State) {
    s.openings == map[] && s.active == map[] && s.collection == Idle
  }

  /** Every active file exists. */
  ghost predicate ActiveExist(s: State) {
    forall stream :: stream in s.active ==> s.active[stream] in s.files
  }

  // ---------------------------------------------------------------- the invariant

  /** A writer whose file can still be activated. */
  predicate Live(s: State, w: nat, delay: nat) {
    w in s.openings && s.openings[w].Created? && s.now <= s.openings[w].at + delay
  }

  ghost predicate OpeningHolds(s: State, w: nat, delay: nat) {
    w in s.openings ==>
      && s.openings[w].at <= s.now
      && (s.openings[w].Created? ==> s.openings[w].file.startedAt == StartedAt(s.openings[w].at))
      && (Live(s, w, delay) ==> s.openings[w].file in s.files)
  }

  ghost predicate CollectionHolds(s: State, retention: nat) {
    match s.collection
    case Idle => true
    case Cut(cutoff) => cutoff + retention <= s.now
    case Collecting(cutoff, spared) =>
      && cutoff + retention <= s.now
      && forall stream :: stream in s.active ==> s.active[stream] in spared || !IsExpired(s.active[stream], cutoff)
  }

  ghost predicate Inv(s: State, retention: nat, delay: nat) {
    ActiveExist(s) && (forall w :: OpeningHolds(s, w, delay)) && CollectionHolds(s, retention)
  }

  /** A file that can still be activated is too young for a cutoff taken before now. */
  lemma {:induction false} LiveIsNotExpired(s: State, w: nat, cutoff: int, retention: nat, delay: nat)
    requires OpeningHolds(s, w, delay) && Live(s, w, delay)
    requires cutoff + retention <= s.now && retention >= delay + SECOND - 1
    ensures !IsExpired(s.openings[w].file, cutoff)
  {
    var at := s.openings[w].at;
    assert StartedAt(at) * SECOND + at % SECOND == at;
  }

  lemma {:induction false} ActKeeps(s: State, a: Action, retention: nat, delay: nat)
    requires Inv(s, retention, delay) && CanAct(s, a, delay) && retention >= delay + SECOND - 1
    ensures Inv(Act(s, a, retention), retention, delay)
  {
    hide IsExpired, StartedAt;
    var s' := Act(s, a, retention);
    forall w ensures OpeningHolds(s', w, delay) {
      assert OpeningHolds(s, w, delay);
      if a.Remove? && Live(s, w, delay) {
        LiveIsNotExpired(s, w, s.collection.cutoff, retention, delay);
      }
    }
    if a.Activate? {
      assert OpeningHolds(s, a.writer, delay);
      if s.collection.Collecting? {
        LiveIsNotExpired(s, a.writer, s.collection.cutoff, retention, delay);
      }
    }
  }

  lemma {:induction false} RunKeeps(states: seq<State>, actions: seq<Action>, retention: nat, delay: nat, n: nat)
    requires Runs(states, actions, retention, delay) && Starts(states[0]) && retention >= delay + SECOND - 1
    requires n < |states|
    ensures Inv(states[n], retention, delay)
  {
    hide Inv, CanAct, Act;
    if n == 0 {
      StartHolds(states[0], retention, delay);
    } else {
      RunKeeps(states, actions, retention, delay, n - 1);
      ActKeeps(states[n - 1], actions[n - 1], retention, delay);
    }
  }

  lemma {:induction false} StartHolds(s: State, retention: nat, delay: nat)
    requires Starts(s)
    ensures Inv(s, retention, delay)
  {
  }

  // ---------------------------------------------------------------- exactly how much retention is needed

  ghost predicate SafeRuns(retention: nat, delay: nat) {
    forall states: seq<State>, actions: seq<Action>, n: nat ::
      Runs(states, actions, retention, delay) && n < |states| && Starts(states[0]) ==> ActiveExist(states[n])
  }

  lemma {:induction false} RunsOneMore(states: seq<State>, actions: seq<Action>, a: Action, retention: nat, delay: nat)
    requires Runs(states, actions, retention, delay) && CanAct(states[|actions|], a, delay)
    ensures Runs(states + [Act(states[|actions|], a, retention)], actions + [a], retention, delay)
  {
    hide CanAct, Act;
  }

  lemma {:induction false} Extend(states: seq<State>, actions: seq<Action>, a: Action, retention: nat, delay: nat)
    returns (states': seq<State>, actions': seq<Action>, s: State)
    requires Runs(states, actions, retention, delay) && CanAct(states[|actions|], a, delay)
    ensures Runs(states', actions', retention, delay) && states'[0] == states[0]
    ensures s == Act(states[|actions|], a, retention) && states'[|actions'|] == s
  {
    hide Able, Act;
    RunsOneMore(states, actions, a, retention, delay);
    s := Act(states[|actions|], a, retention);
    states', actions' := states + [s], actions + [a];
  }

  /** With less retention a file named late in a second can be unlinked just before it is activated. */
  lemma {:induction false} TooShortRetentionUnlinksActive(retention: nat, delay: nat)
    returns (states: seq<State>, actions: seq<Action>, s: State)
    requires retention < delay + SECOND - 1
    ensures Runs(states, actions, retention, delay) && Starts(states[0]) && s == states[|actions|]
    ensures !ActiveExist(s)
  {
    s := State(SECOND - 1, {}, map[], map[], Idle);
    states, actions := [s], [];
    states, actions, s := Extend(states, actions, ReadClock(0), retention, delay);
    states, actions, s := Extend(states, actions, Create(0, 0), retention, delay);
    states, actions, s := Extend(states, actions, Tick(delay), retention, delay);
    states, actions, s := Extend(states, actions, StartCollection, retention, delay);
    states, actions, s := Extend(states, actions, SnapshotActive, retention, delay);
    states, actions, s := Extend(states, actions, Remove(Name(0, 0)), retention, delay);
    states, actions, s := Extend(states, actions, Activate(0, 0), retention, delay);
    assert s.active[0] !in s.files;
  }

  /** Collection never unlinks a file that is active or is later activated, under any interleaving, exactly when
    * the retention is at least the activation delay plus one second less a nanosecond. */
  lemma {:induction false} RetentionIsSafeIff(retention: nat, delay: nat)
    ensures SafeRuns(retention, delay) <==> retention >= delay + 999_999_999
  {
    hide Runs, Starts;
    if retention >= delay + SECOND - 1 {
      forall states: seq<State>, actions: seq<Action>, n: nat
        | Runs(states, actions, retention, delay) && n < |states| && Starts(states[0])
        ensures ActiveExist(states[n])
      {
        RunKeeps(states, actions, retention, delay, n);
      }
    } else {
      var states, actions, s := TooShortRetentionUnlinksActive(retention, delay);
      RunLength(states, actions, retention, delay);
      assert !ActiveExist(states[|actions|]);
    }
  }

  lemma {:induction false} RunLength(states: seq<State>, actions: seq<Action>, retention: nat, delay: nat)
    requires Runs(states, actions, retention, delay)
    ensures |states| == |actions| + 1
  {
  }
}
