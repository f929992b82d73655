/** Newest-first order on programs and the newest `k` of a set (src/search_db/query.rs). */
module Ranking {
  import opened Sets
  import opened TextOrder
  import opened Wrappers
  import T = Timestamps

  /** A program row as search returns it. */
  datatype ProgramInfo = ProgramInfo(
    programId: int,
    stream: string,
    month: string,
    filename: string,
    recordingStartedAt: string,
    startTime: Option<string>,
    title: string,
    description: string)

  /** `ORDER BY recording_started_at DESC, id DESC` */
  predicate Newer(p: ProgramInfo, q: ProgramInfo) {
    TextLess(q.recordingStartedAt, p.recordingStartedAt)
    || (p.recordingStartedAt == q.recordingStartedAt && p.programId > q.programId)
  }

  /** Rows of one table: an id names one program. */
  ghost predicate IdsUnique(s: set<ProgramInfo>) {
    forall p, q :: p in s && q in s && p.programId == q.programId ==> p == q
  }

  lemma {:induction false} NewerTotal(p: ProgramInfo, q: ProgramInfo)
    ensures Newer(p, q) || Newer(q, p) || p.programId == q.programId
  {
    TextLessTotal(p.recordingStartedAt, q.recordingStartedAt);
  }

  lemma {:induction false} NewerTransitive(p: ProgramInfo, q: ProgramInfo, r: ProgramInfo)
    requires Newer(p, q) && Newer(q, r)
    ensures Newer(p, r)
  {
    if TextLess(r.recordingStartedAt, q.recordingStartedAt) && TextLess(q.recordingStartedAt, p.recordingStartedAt) {
      TextLessTransitive(r.recordingStartedAt, q.recordingStartedAt, p.recordingStartedAt);
    }
  }

  lemma {:induction false} NewerAsymmetric(p: ProgramInfo, q: ProgramInfo)
    requires Newer(p, q)
    ensures !Newer(q, p) && p != q
  {
    TextLessIrreflexive(p.recordingStartedAt);
    if TextLess(q.recordingStartedAt, p.recordingStartedAt) {
      TextLessAsymmetric(q.recordingStartedAt, p.recordingStartedAt);
    }
  }

  ghost function NewerIn(s: set<ProgramInfo>, p: ProgramInfo): set<ProgramInfo> {
    set q | q in s && Newer(q, p)
  }

  /** The newest `k` of `s`: those with fewer than `k` newer ones. */
  ghost function Top(s: set<ProgramInfo>, k: nat): set<ProgramInfo> {
    set p | p in s && |NewerIn(s, p)| < k
  }

  lemma {:induction false} OldestExists(s: set<ProgramInfo>) returns (oldest: ProgramInfo)
    requires s != {} && IdsUnique(s)
    ensures oldest in s && forall q :: q in s && q != oldest ==> Newer(q, oldest)
  {
    var p :| p in s;
    var others := s - {p};
    assert forall q :: q in s ==> q == p || q in others;
    if others == {} {
      oldest := p;
    } else {
      var other := OldestExists(others);
      NewerTotal(p, other);
      oldest := if Newer(p, other) then other else p;
      forall q | q in s && q != oldest ensures Newer(q, oldest) {
        if oldest == p && q != other {
          NewerTransitive(q, other, p);
        }
      }
    }
  }

  /** The newest `k` are `k` many, or everything. */
  lemma {:induction false} TopSize(s: set<ProgramInfo>, k: nat)
    requires IdsUnique(s)
    ensures |Top(s, k)| >= if |s| < k then |s| else k
    decreases |s|
  {
    if |s| > k {
      var oldest := OldestExists(s);
      var others := s - {oldest};
      TopSize(others, k);
      assert Top(others, k) <= Top(s, k) by {
        forall p | p in Top(others, k) ensures p in Top(s, k) {
          NewerAsymmetric(p, oldest);
          assert NewerIn(s, p) == NewerIn(others, p);
        }
      }
      SubsetSize(Top(others, k), Top(s, k));
    } else {
      forall p | p in s ensures p in Top(s, k) {
        NewerIrreflexive(p);
        SubsetSize(NewerIn(s, p), s - {p});
      }
      assert Top(s, k) == s;
    }
  }

  lemma {:induction false} NewerIrreflexive(p: ProgramInfo)
    ensures !Newer(p, p)
  {
    TextLessIrreflexive(p.recordingStartedAt);
  }

  /** The newest `k` of the newest `k` of two sets are the newest `k` of both together. */
  lemma {:induction false} TopOfTops(a: set<ProgramInfo>, b: set<ProgramInfo>, k: nat)
    requires IdsUnique(a + b)
    ensures Top(Top(a, k) + Top(b, k), k) == Top(a + b, k)
  {
    var union, tops := a + b, Top(a, k) + Top(b, k);
    assert tops <= union;
    forall p | p in Top(union, k) ensures p in Top(tops, k) {
      TopWithin(a, union, p, k);
      TopWithin(b, union, p, k);
      SubsetSize(NewerIn(tops, p), NewerIn(union, p));
    }
    forall p | p in Top(tops, k) ensures p in Top(union, k) {
      if |NewerIn(union, p)| >= k {
        var newer := NewerIn(union, p);
        TopSize(newer, k);
        forall q | q in Top(newer, k) ensures q in NewerIn(tops, p) {
          assert NewerIn(union, q) == NewerIn(newer, q) by {
            forall r | r in union && Newer(r, q) ensures r in newer {
              NewerTransitive(r, q, p);
            }
          }
          TopWithin(a, union, q, k);
          TopWithin(b, union, q, k);
        }
        SubsetSize(Top(newer, k), NewerIn(tops, p));
        assert false;
      }
    }
  }

  lemma {:induction false} TopWithin(part: set<ProgramInfo>, whole: set<ProgramInfo>, p: ProgramInfo, k: nat)
    requires part <= whole && |NewerIn(whole, p)| < k
    ensures p in part ==> p in Top(part, k)
  {
    SubsetSize(NewerIn(part, p), NewerIn(whole, p));
  }

  // ---------------------------------------------------------------- newest-first lists

  ghost predicate NewestFirst(s: seq<ProgramInfo>) {
    forall i, j :: 0 <= i < j < |s| ==> Newer(s[i], s[j])
  }

  /** In a newest-first list of a set, the newer ones of an element are those before it. */
  lemma {:induction false} PositionCountsNewer(s: seq<ProgramInfo>, i: nat)
    requires NewestFirst(s) && i < |s|
    ensures |NewerIn(Elements(s), s[i])| == i
  {
    forall p ensures p in NewerIn(Elements(s), s[i]) <==> p in Elements(s[..i]) {
      if p in Elements(s) {
        var j :| 0 <= j < |s| && s[j] == p;
        if j < i {
          assert s[..i][j] == p;
        } else if j > i {
          NewerAsymmetric(s[i], s[j]);
        } else {
          NewerIrreflexive(p);
        }
      }
    }
    assert NewerIn(Elements(s), s[i]) == Elements(s[..i]);
    forall m, n | 0 <= m < n < i ensures s[..i][m] != s[..i][n] {
      NewerAsymmetric(s[m], s[n]);
    }
    ElementsSize(s[..i]);
  }

  /** Truncating a newest-first list keeps the newest `k`. */
  lemma {:induction false} TruncatedIsTop(s: seq<ProgramInfo>, k: nat)
    requires NewestFirst(s)
    ensures Elements(if |s| <= k then s else s[..k]) == Top(Elements(s), k)
  {
    forall i | 0 <= i < |s| ensures s[i] in Top(Elements(s), k) <==> i < k {
      PositionCountsNewer(s, i);
    }
    var kept := if |s| <= k then s else s[..k];
    forall p | p in Top(Elements(s), k) ensures p in kept {
      var i :| 0 <= i < |s| && s[i] == p;
      assert kept[i] == p;
    }
  }

  /** A list of the latest programs among `all`, the latest first: each entry started no earlier than the next, with
    * the larger id at equal times, and what is missing started earlier than every entry, or at the same time with a
    * smaller id, and is missing only because the list is full. */
  ghost predicate ListsLatest(s: seq<ProgramInfo>, all: set<ProgramInfo>, limit: nat) {
    && |s| <= limit
    && (forall i :: 0 <= i < |s| ==> s[i] in all)
    && (forall i, j :: 0 <= i < j < |s| ==>
          && !TextLess(s[i].recordingStartedAt, s[j].recordingStartedAt)
          && (s[i].recordingStartedAt == s[j].recordingStartedAt ==> s[i].programId > s[j].programId))
    && (forall p, i :: p in all && p !in s && 0 <= i < |s| ==>
          || TextLess(p.recordingStartedAt, s[i].recordingStartedAt)
          || (p.recordingStartedAt == s[i].recordingStartedAt && p.programId < s[i].programId))
    && (|s| < limit ==> forall p :: p in all ==> p in s)
  }

  /** A newest-first list of the newest `limit` is a list of the latest. */
  lemma {:induction false} TopIsLatest(s: seq<ProgramInfo>, all: set<ProgramInfo>, limit: nat)
    requires NewestFirst(s) && Elements(s) == Top(all, limit) && IdsUnique(all)
    ensures ListsLatest(s, all, limit)
  {
    hide Top, NewerIn;
    TopBounded(s, all, limit);
    forall i, j | 0 <= i < j < |s|
      ensures !TextLess(s[i].recordingStartedAt, s[j].recordingStartedAt)
      ensures s[i].recordingStartedAt == s[j].recordingStartedAt ==> s[i].programId > s[j].programId
    {
      NewerAsymmetric(s[i], s[j]);
    }
    forall p, i | p in all && p !in s && 0 <= i < |s| ensures Newer(s[i], p) {
      assert s[i] in Elements(s) && p !in Elements(s);
      TopIsNewer(all, limit, s[i], p);
    }
  }

  lemma {:induction false} TopIsNewer(all: set<ProgramInfo>, k: nat, p: ProgramInfo, q: ProgramInfo)
    requires IdsUnique(all) && p in Top(all, k) && q in all && q !in Top(all, k)
    ensures Newer(p, q)
  {
    NewerTotal(p, q);
    if Newer(q, p) {
      forall r | r in NewerIn(all, q) ensures r in NewerIn(all, p) {
        NewerTransitive(r, q, p);
      }
      SubsetSize(NewerIn(all, q), NewerIn(all, p));
    }
  }

  lemma {:induction false} TopBounded(s: seq<ProgramInfo>, all: set<ProgramInfo>, limit: nat)
    requires NewestFirst(s) && Elements(s) == Top(all, limit) && IdsUnique(all)
    ensures |s| <= limit
    ensures |s| < limit ==> forall p :: p in all ==> p in s
    ensures forall i :: 0 <= i < |s| ==> s[i] in all
  {
    assert forall i :: 0 <= i < |s| ==> s[i] in Elements(s);
    forall i, j | 0 <= i < j < |s| ensures s[i] != s[j] {
      NewerAsymmetric(s[i], s[j]);
    }
    ElementsSize(s);
    if |s| > 0 {
      var n := |s| - 1;
      PositionCountsNewer(s, n);
      SubsetSize(NewerIn(Elements(s), s[n]), NewerIn(all, s[n]));
    }
    if |s| < limit {
      TopSize(all, limit);
      SameSizeSubset(Top(all, limit), all);
    }
  }

  lemma {:induction false} SameSizeSubset<T>(a: set<T>, b: set<T>)
    requires a <= b && |a| >= |b|
    ensures a == b
  {
    assert b == a + (b - a);
  }

  /** Where the recording starts are timestamps, such a list is the latest in time: entries never go from an earlier to
    * a later recording, and no program is missing that was recorded after one that is listed. */
  lemma {:induction false} LatestInTime(s: seq<ProgramInfo>, all: set<ProgramInfo>, limit: nat)
    requires ListsLatest(s, all, limit) && forall p :: p in all ==> T.IsTimestamp(p.recordingStartedAt)
    ensures forall i, j :: 0 <= i < j < |s| ==>
      && !T.Before(StartOf(s[i]), StartOf(s[j]))
      && (StartOf(s[i]) == StartOf(s[j]) ==> s[i].programId > s[j].programId)
    ensures forall p :: p in all && p !in s ==> |s| == limit
    ensures forall p, i :: p in all && p !in s && 0 <= i < |s| ==>
      T.Before(StartOf(p), StartOf(s[i])) || (StartOf(p) == StartOf(s[i]) && p.programId < s[i].programId)
  {
    hide T.IsTimestamp, T.Before, T.MomentOf, TextLess;
    forall i, j | 0 <= i < j < |s|
      ensures !T.Before(StartOf(s[i]), StartOf(s[j]))
      ensures StartOf(s[i]) == StartOf(s[j]) ==> s[i].programId > s[j].programId
    {
      T.TextOrderIsTime(s[i].recordingStartedAt, s[j].recordingStartedAt);
    }
    forall p, i | p in all && p !in s && 0 <= i < |s|
      ensures T.Before(StartOf(p), StartOf(s[i])) || (StartOf(p) == StartOf(s[i]) && p.programId < s[i].programId)
    {
      T.TextOrderIsTime(p.recordingStartedAt, s[i].recordingStartedAt);
    }
  }

  function StartOf(p: ProgramInfo): (m: T.Moment)
    requires T.IsTimestamp(p.recordingStartedAt)
    ensures T.ValidMoment(m)
  {
    T.MomentOf(p.recordingStartedAt)
  }
}
