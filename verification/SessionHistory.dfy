/** What the state of the guards is, said of what happened: who was mapped, who has which depth, who came when. */
module SessionHistory {
  import opened Wrappers
  import opened Sorting
  import opened SessionGuards

  // ----- since when

  /** The session was forgotten at this position. */
  ghost predicate ForgottenAt(log: Log, session: string, i: int)
  {
    0 <= i < |log| && log[i] in {Evicted(session), Compacted(session), Deleted(session)}
  }

  ghost predicate ReadAt(log: Log, session: string, i: int)
  {
    0 <= i < |log| && log[i].FileRead? && log[i].session == session
  }

  ghost predicate NotForgotten(log: Log, session: string, from: int, to: int)
  {
    forall j :: from <= j < to ==> !ForgottenAt(log, session, j)
  }

  /** A session holds a token exactly for the files it read without being evicted, compacted or deleted since. */
  lemma TokenIsOfARead(log: Log, session: string, file: string)
    ensures file in Tokens(log, session)
            <==> exists i :: ReadAt(log, session, i) && log[i].file == file && NotForgotten(log, session, i + 1, |log|)
  {
    hide Tokens;
    TokenIff(log, session, file);
    forall e: Event ensures Forgets(e, session) <==> e in {Evicted(session), Compacted(session), Deleted(session)} {}
    if ReadSince(log, session, file) {
      var i :| 0 <= i < |log| && log[i] == FileRead(session, file)
               && forall j :: i < j < |log| ==> !Forgets(log[j], session);
      assert ReadAt(log, session, i) && NotForgotten(log, session, i + 1, |log|);
    }
    if i :| ReadAt(log, session, i) && log[i].file == file && NotForgotten(log, session, i + 1, |log|) {
      forall j | i < j < |log| ensures !Forgets(log[j], session) { assert !ForgottenAt(log, session, j); }
      assert log[i] == FileRead(session, file);
    }
  }

  lemma {:induction false} TrackedIff(log: Log, session: string)
    ensures IsTracked(log, session) <==> exists i :: ReadAt(log, session, i) && NotForgotten(log, session, i + 1, |log|)
  {
    if log != [] {
      var n := |log| - 1;
      var before := log[..n];
      TrackedIff(before, session);
      assert Forgets(log[n], session) <==> ForgottenAt(log, session, n);
      SameBefore(log, session);
      if IsTracked(log, session) {
        if ReadAt(log, session, n) {
          assert NotForgotten(log, session, n + 1, |log|);
        } else {
          var i :| ReadAt(before, session, i) && NotForgotten(before, session, i + 1, n);
          NotForgottenBefore(log, session, i + 1, n);
          assert ReadAt(log, session, i) && NotForgotten(log, session, i + 1, |log|);
        }
      }
      if i :| ReadAt(log, session, i) && NotForgotten(log, session, i + 1, |log|) {
        NotForgottenBefore(log, session, i + 1, n);
        if i < n {
          assert !ForgottenAt(log, session, n);
          assert ReadAt(before, session, i) && NotForgotten(before, session, i + 1, n);
        } else {
          assert !Forgets(log[n], session);
        }
      }
    }
  }

  lemma SameBefore(log: Log, session: string)
    requires log != []
    ensures forall i :: i < |log| - 1 ==> (ReadAt(log, session, i) <==> ReadAt(log[..|log| - 1], session, i))
    ensures forall i :: i < |log| - 1 ==> (ForgottenAt(log, session, i) <==> ForgottenAt(log[..|log| - 1], session, i))
  {
  }

  lemma NotForgottenBefore(log: Log, session: string, from: int, to: int)
    requires log != [] && to <= |log| - 1
    ensures NotForgotten(log, session, from, to) <==> NotForgotten(log[..|log| - 1], session, from, to)
    ensures NotForgotten(log, session, from, |log|)
            <==> NotForgotten(log, session, from, |log| - 1)
                 && (from < |log| ==> !ForgottenAt(log, session, |log| - 1))
  {
    hide ForgottenAt;
    SameBefore(log, session);
    var before := log[..|log| - 1];
    if NotForgotten(log, session, from, to) {
      forall j | from <= j < to ensures !ForgottenAt(before, session, j) { assert !ForgottenAt(log, session, j); }
    }
    if NotForgotten(before, session, from, to) {
      forall j | from <= j < to ensures !ForgottenAt(log, session, j) { assert !ForgottenAt(before, session, j); }
    }
  }

  // ----- who came when

  /** A read by which a session came: since it was last forgotten there was none before it, and it was not forgotten
      since. */
  ghost predicate IsArrival(log: Log, i: int)
  {
    && 0 <= i < |log| && log[i].FileRead? && NotForgotten(log, log[i].session, i + 1, |log|)
    && forall j :: j < i && ReadAt(log, log[i].session, j) ==> !NotForgotten(log, log[i].session, j + 1, i)
  }

  ghost function Sessions(log: Log): seq<string> { seq(|log|, i requires 0 <= i < |log| => log[i].session) }

  /** The sessions with tokens, by the reads by which they came. */
  lemma {:induction false} ArrivalsAre(log: Log) returns (at: seq<nat>)
    ensures Picks(Sessions(log), Arrivals(log), at) && forall i: nat :: i < |log| ==> (i in at <==> IsArrival(log, i))
  {
    hide IsArrival, Picks, Arrivals;
    if log == [] {
      at := [];
      NothingPicked();
    } else {
      var was := ArrivalsAre(log[..|log| - 1]);
      at := ArrivalsNow(log, was);
    }
  }

  lemma ArrivalsNow(log: Log, was: seq<nat>) returns (at: seq<nat>)
    requires log != []
    requires var before := log[..|log| - 1];
             && Picks(Sessions(before), Arrivals(before), was)
             && forall i: nat :: i < |before| ==> (i in was <==> IsArrival(before, i))
    ensures Picks(Sessions(log), Arrivals(log), at) && forall i: nat :: i < |log| ==> (i in at <==> IsArrival(log, i))
  {
    hide IsArrival, Picks, Without, Arrivals, ForgottenAt;
    var n := |log| - 1;
    var before, e := log[..n], log[n];
    assert Sessions(log) == Sessions(before) + [e.session];
    ArrivalsStep(log);
    ArrivalsLater(log);
    PicksSnoc(Sessions(before), Arrivals(before), was, e.session);
    SessionsPicked(before, was);
    if e.FileRead? {
      at := if e.session in Arrivals(before) then was else was + [n];
    } else if e.Evicted? || e.Compacted? || e.Deleted? {
      at := PickedWithout(Sessions(log), Arrivals(before), was, e.session);
    } else {
      at := was;
    }
  }

  lemma ArrivalsStep(log: Log)
    requires log != []
    ensures Arrivals(log) == Arrived(Arrivals(log[..|log| - 1]), log[|log| - 1])
  {
    hide Arrived;
  }

  lemma NothingPicked()
    ensures Picks(Sessions([]), Arrivals([]), [])
  {
  }

  /** What stands in the list of arrivals has a read by which it came. */
  lemma SessionsPicked(log: Log, at: seq<nat>)
    requires Picks(Sessions(log), Arrivals(log), at) && forall i: nat :: i < |log| ==> (i in at <==> IsArrival(log, i))
    ensures forall s :: s in Arrivals(log) <==> exists i: nat :: i < |log| && IsArrival(log, i) && log[i].session == s
  {
    hide IsArrival, Arrivals;
    var order := Arrivals(log);
    forall s ensures s in order <==> exists i: nat :: i < |log| && IsArrival(log, i) && log[i].session == s {
      if s in order {
        var k :| 0 <= k < |order| && order[k] == s;
        assert at[k] in at && at[k] < |log|;
        assert IsArrival(log, at[k]);
      }
      if i: nat :| i < |log| && IsArrival(log, i) && log[i].session == s {
        var k :| 0 <= k < |at| && at[k] == i;
        assert order[k] == s;
      }
    }
  }

  /** A session that read something and was not forgotten since came by one of its reads. */
  lemma {:induction false} CameByOne(log: Log, session: string, i: int)
    requires ReadAt(log, session, i) && NotForgotten(log, session, i + 1, |log|)
    ensures exists k: nat :: k <= i && k < |log| && IsArrival(log, k) && log[k].session == session
    decreases i
  {
    if !IsArrival(log, i) {
      var j :| j < i && ReadAt(log, session, j) && NotForgotten(log, session, j + 1, i);
      assert !ForgottenAt(log, session, i);
      CameByOne(log, session, j);
    }
  }

  /** One more event: a read is an arrival if the session was not there; other arrivals stay unless their session is
      forgotten. */
  lemma ArrivalsLater(log: Log)
    requires log != []
    ensures var n := |log| - 1; var before, e := log[..n], log[n];
            && (forall i: nat :: i < n ==>
                  (IsArrival(log, i) <==> IsArrival(before, i) && !ForgottenAt(log, before[i].session, n)))
            && (IsArrival(log, n) <==>
                  e.FileRead? && !exists i: nat :: i < n && IsArrival(before, i) && before[i].session == e.session)
            && (forall s :: ForgottenAt(log, s, n) <==> (e.Evicted? || e.Compacted? || e.Deleted?) && s == e.session)
  {
    hide IsArrival;
    var n := |log| - 1;
    var before, e := log[..n], log[n];
    forall i: nat | i < n
      ensures IsArrival(log, i) <==> IsArrival(before, i) && !ForgottenAt(log, before[i].session, n)
    {
      ArrivalStays(log, i);
    }
    if e.FileRead? { ArrivesLast(log); } else { assert !IsArrival(log, n) by { NoRead(log, n); } }
  }

  lemma NoRead(log: Log, i: nat)
    requires i < |log| && !log[i].FileRead?
    ensures !IsArrival(log, i)
  {
  }

  lemma ArrivalStays(log: Log, i: nat)
    requires i < |log| - 1
    ensures var n := |log| - 1;
            IsArrival(log, i) <==> IsArrival(log[..n], i) && !ForgottenAt(log, log[i].session, n)
  {
    hide NotForgotten, ForgottenAt, ReadAt;
    var n, s := |log| - 1, log[i].session;
    var before := log[..n];
    SameBefore(log, s);
    NotForgottenBefore(log, s, i + 1, n);
    assert before[i] == log[i];
    if IsArrival(log, i) {
      forall j | j < i && ReadAt(before, s, j) ensures !NotForgotten(before, s, j + 1, i) {
        assert ReadAt(log, s, j);
        NotForgottenBefore(log, s, j + 1, i);
      }
    }
    if IsArrival(before, i) {
      forall j | j < i && ReadAt(log, s, j) ensures !NotForgotten(log, s, j + 1, i) {
        assert ReadAt(before, s, j);
        NotForgottenBefore(log, s, j + 1, i);
      }
    }
  }

  lemma ArrivesLast(log: Log)
    requires log != [] && log[|log| - 1].FileRead?
    ensures var n := |log| - 1;
            IsArrival(log, n)
            <==> !exists i: nat :: i < n && IsArrival(log[..n], i) && log[..n][i].session == log[n].session
  {
    var n := |log| - 1;
    var before, s := log[..n], log[n].session;
    SameBefore(log, s);
    assert NotForgotten(log, s, n + 1, |log|);
    forall j ensures j < n && ReadAt(log, s, j) && NotForgotten(log, s, j + 1, n) <==>
        ReadAt(before, s, j) && NotForgotten(before, s, j + 1, n)
    {
      NotForgottenBefore(log, s, j + 1, n);
    }
    if j :| ReadAt(before, s, j) && NotForgotten(before, s, j + 1, n) { CameByOne(before, s, j); }
    if i: nat :| i < n && IsArrival(before, i) && before[i].session == s {
      assert ReadAt(before, s, i) && NotForgotten(before, s, i + 1, n);
    }
  }

  lemma {:induction false} WithoutPicks(order: seq<string>, session: string) returns (keep: seq<nat>)
    ensures Picks(order, Without(order, session), keep)
    ensures forall k: nat :: k < |order| ==> (k in keep <==> order[k] != session)
  {
    if order == [] {
      keep := [];
    } else {
      var front, last := order[..|order| - 1], order[|order| - 1];
      keep := WithoutPicks(front, session);
      PicksSnoc(front, Without(front, session), keep, last);
      assert order == front + [last];
      if last == session {
        assert Without(front, session) + [] == Without(front, session);
      } else {
        keep := keep + [|front|];
      }
    }
  }

  lemma PickedWithout(all: seq<string>, order: seq<string>, at: seq<nat>, session: string) returns (less: seq<nat>)
    requires Picks(all, order, at)
    ensures Picks(all, Without(order, session), less)
    ensures forall i: nat :: i < |all| ==> (i in less <==> i in at && all[i] != session)
  {
    hide Without;
    var keep := WithoutPicks(order, session);
    less := seq(|keep|, k requires 0 <= k < |keep| => at[keep[k]]);
    forall i: nat | i < |all| ensures i in less <==> i in at && all[i] != session {
      if i in less {
        var k :| 0 <= k < |less| && less[k] == i;
        assert keep[k] in keep;
      }
      if i in at && all[i] != session {
        var k :| 0 <= k < |at| && at[k] == i;
        assert k in keep;
        var m :| 0 <= m < |keep| && keep[m] == k;
        assert less[m] == i;
      }
    }
  }

  // ----- who is mapped

  /** The last that was said of the session's agent, before a position. */
  ghost predicate MappedTo(log: Log, n: nat, session: string, agent: string)
  {
    exists i :: MapsAt(log, i, session, agent) && i < n && NoLaterAgent(log, session, i + 1, n)
  }

  ghost predicate MapsAt(log: Log, i: int, session: string, agent: string)
  {
    0 <= i < |log| && log[i] == Mapped(session, agent)
  }

  ghost predicate NoLaterAgent(log: Log, session: string, from: int, to: int)
  {
    forall j :: from <= j < to && 0 <= j < |log| ==> !((log[j].Mapped? || log[j].Deleted?) && log[j].session == session)
  }

  lemma {:induction false} AgentIff(log: Log, n: nat, session: string, agent: string)
    requires n <= |log|
    ensures AgentOf(log[..n], session) == Some(agent) <==> MappedTo(log, n, session, agent)
  {
    if n > 0 {
      var e := log[n - 1];
      assert log[..n][..n - 1] == log[..n - 1];
      AgentIff(log, n - 1, session, agent);
      if (e.Mapped? || e.Deleted?) && e.session == session {
        if MappedTo(log, n, session, agent) {
          var i :| MapsAt(log, i, session, agent) && i < n && NoLaterAgent(log, session, i + 1, n);
          assert i == n - 1;
        }
        if e == Mapped(session, agent) {
          assert MapsAt(log, n - 1, session, agent) && NoLaterAgent(log, session, n, n);
        }
      } else {
        forall i ensures i < n ==> (NoLaterAgent(log, session, i, n) <==> NoLaterAgent(log, session, i, n - 1)) {}
        forall i | MapsAt(log, i, session, agent) && i < n ensures i < n - 1 {}
      }
    }
  }

  // ----- who has which depth

  /** The session was created or deleted at this position. */
  ghost predicate StartsAnew(log: Log, session: string, i: int)
  {
    0 <= i < |log| && (log[i].Created? || log[i].Deleted?) && log[i].session == session
  }

  ghost predicate NotAnew(log: Log, session: string, from: int, to: int)
  {
    forall j :: from <= j < to ==> !StartsAnew(log, session, j)
  }

  /** It asked when it was mapped to one of the primary coordinators. */
  ghost predicate AsksAsCoordinator(log: Log, session: string, i: int)
  {
    && 0 <= i < |log| && log[i] == Asked(session)
    && (MappedTo(log, i, session, "orchestrator") || MappedTo(log, i, session, "builder"))
  }

  /** Before a position, the session has this depth: one more than its parent had when it was last created; or zero, if
      that gives none, and it asked since as a coordinator. */
  ghost predicate HasDepth(log: Log, n: nat, session: string, depth: nat)
    requires n <= |log|
    decreases n
  {
    || (depth > 0 && ChildAt(log, n, session, depth - 1))
    || (depth == 0 && exists i: nat ::
          i < n && AsksAsCoordinator(log, session, i) && NotAnew(log, session, i + 1, n) && NoChild(log, i, session))
  }

  const UNKNOWN := 9007199254740991

  /** No parent it was last created by had a depth. */
  ghost predicate NoChild(log: Log, n: nat, session: string)
    requires n <= |log|
    decreases n, 1
  {
    forall depth: nat :: depth < UNKNOWN - 1 ==> !ChildAt(log, n, session, depth)
  }

  /** When it was last created, its parent had this depth. */
  ghost predicate ChildAt(log: Log, n: nat, session: string, depth: nat)
    requires n <= |log|
    decreases n, 0
  {
    exists i: nat, parent ::
      && i < n && log[i] == Created(session, Some(parent)) && NotAnew(log, session, i + 1, n)
      && HasDepth(log, i, parent, depth)
  }

  /** The session was last created at this position, by a parent of this depth. */
  ghost predicate ChildSince(log: Log, n: nat, session: string, depth: nat, i: nat, parent: string)
    requires n <= |log|
  {
    && i < n && log[i] == Created(session, Some(parent)) && NotAnew(log, session, i + 1, n)
    && HasDepth(log, i, parent, depth)
  }

  lemma SinceStays(log: Log, n: nat, m: nat, session: string, depth: nat, i: nat, parent: string)
    requires m == n + 1 && n < |log| && !StartsAnew(log, session, n)
    ensures ChildSince(log, m, session, depth, i, parent) <==> ChildSince(log, n, session, depth, i, parent)
  {
    hide HasDepth;
    if i == n { assert log[n] != Created(session, Some(parent)); }
  }

  lemma ChildIff(log: Log, n: nat, session: string, depth: nat)
    requires n <= |log|
    ensures ChildAt(log, n, session, depth)
            <==> exists i: nat, parent :: ChildSince(log, n, session, depth, i, parent)
  {
    hide HasDepth, NotAnew;
    if ChildAt(log, n, session, depth) {
      var i: nat, parent :|
        && i < n && log[i] == Created(session, Some(parent)) && NotAnew(log, session, i + 1, n)
        && HasDepth(log, i, parent, depth);
      assert ChildSince(log, n, session, depth, i, parent);
    }
  }

  lemma ChildStays(log: Log, n: nat, m: nat, session: string)
    requires m == n + 1 && n < |log| && !StartsAnew(log, session, n)
    ensures forall d: nat :: ChildAt(log, m, session, d) <==> ChildAt(log, n, session, d)
  {
    hide ChildAt, ChildSince;
    forall d: nat ensures ChildAt(log, m, session, d) <==> ChildAt(log, n, session, d) {
      ChildIff(log, n, session, d);
      ChildIff(log, m, session, d);
      forall i: nat, parent
        ensures ChildSince(log, m, session, d, i, parent) <==> ChildSince(log, n, session, d, i, parent)
      {
        SinceStays(log, n, m, session, d, i, parent);
      }
    }
  }

  lemma ChildCreated(log: Log, n: nat, m: nat, session: string)
    requires m == n + 1 && n < |log| && log[n].Created? && log[n].session == session
    ensures forall d: nat ::
              ChildAt(log, m, session, d) <==> log[n].parent.Some? && HasDepth(log, n, log[n].parent.value, d)
  {
    hide HasDepth;
    assert StartsAnew(log, session, n);
    assert NotAnew(log, session, m, m);
    forall d: nat ensures ChildAt(log, m, session, d)
        <==> log[n].parent.Some? && HasDepth(log, n, log[n].parent.value, d)
    {
      if ChildAt(log, m, session, d) {
        var i: nat, parent :|
          && i < m && log[i] == Created(session, Some(parent)) && NotAnew(log, session, i + 1, m)
          && HasDepth(log, i, parent, d);
        assert i == n;
      }
      if log[n].parent.Some? && HasDepth(log, n, log[n].parent.value, d) {
        assert log[n] == Created(session, Some(log[n].parent.value));
      }
    }
  }

  lemma NoChildOfDeleted(log: Log, n: nat, m: nat, session: string)
    requires m == n + 1 && n < |log| && log[n] == Deleted(session)
    ensures forall d: nat :: !ChildAt(log, m, session, d)
  {
    hide HasDepth;
    assert StartsAnew(log, session, n);
  }

  /** It asked as a coordinator, with no depth before, and was not created or deleted since. */
  ghost predicate Recovered(log: Log, n: nat, session: string, i: nat)
    requires n <= |log|
  {
    i < n && AsksAsCoordinator(log, session, i) && NotAnew(log, session, i + 1, n) && NoChild(log, i, session)
  }

  lemma DepthCases(log: Log, n: nat, session: string, depth: nat)
    requires n <= |log|
    ensures HasDepth(log, n, session, depth)
            <==> if depth > 0 then ChildAt(log, n, session, depth - 1)
                 else exists i: nat :: Recovered(log, n, session, i)
  {
    hide ChildAt, AsksAsCoordinator, NotAnew, NoChild;
    if depth == 0 {
      if HasDepth(log, n, session, depth) {
        var i: nat :|
          i < n && AsksAsCoordinator(log, session, i) && NotAnew(log, session, i + 1, n) && NoChild(log, i, session);
        assert Recovered(log, n, session, i);
      }
    }
  }

  lemma RecoveredStays(log: Log, n: nat, session: string, i: nat)
    requires n < |log|
    ensures Recovered(log, n, session, i) ==> i < n
    ensures i < n ==>
              (Recovered(log, n + 1, session, i) <==> Recovered(log, n, session, i) && !StartsAnew(log, session, n))
  {
    hide ChildAt, AsksAsCoordinator, StartsAnew;
    assert i < n ==>
        (NotAnew(log, session, i + 1, n + 1) <==> NotAnew(log, session, i + 1, n) && !StartsAnew(log, session, n));
  }

  lemma CoordinatorIff(log: Log, n: nat, session: string)
    requires n < |log| && log[n] == Asked(session)
    ensures IsCoordinator(AgentOf(log[..n], session)) <==> AsksAsCoordinator(log, session, n)
  {
    hide AgentOf, MappedTo;
    AgentIff(log, n, session, "orchestrator");
    AgentIff(log, n, session, "builder");
  }

  /** Without a new start or a recovery the depth stays. */
  lemma DepthStays(log: Log, n: nat, m: nat, session: string, depth: nat)
    requires m == n + 1 && n < |log| && !StartsAnew(log, session, n)
    requires Recovered(log, m, session, n) ==> HasDepth(log, n, session, 0)
    ensures HasDepth(log, m, session, depth) <==> HasDepth(log, n, session, depth)
  {
    hide HasDepth, Recovered, StartsAnew;
    DepthCases(log, m, session, depth);
    DepthCases(log, n, session, depth);
    ChildStays(log, n, m, session);
    RecoveredBefore(log, m, session);
    if i: nat :| Recovered(log, m, session, i) { RecoveredStays(log, n, session, i); }
    if i: nat :| Recovered(log, n, session, i) { RecoveredStays(log, n, session, i); }
  }

  lemma RecoveredBefore(log: Log, n: nat, session: string)
    requires n <= |log|
    ensures forall i: nat :: Recovered(log, n, session, i) ==> i < n
  {
  }

  lemma NoneRecovered(log: Log, n: nat, m: nat, session: string)
    requires m == n + 1 && n < |log| && StartsAnew(log, session, n)
    ensures forall i: nat :: !Recovered(log, m, session, i)
  {
    hide ChildAt;
  }

  /** It asks as a coordinator: that recovers the depth exactly if it had none. */
  lemma DepthOfAsked(log: Log, n: nat, session: string, depth: nat)
    requires n < |log| && log[n] == Asked(session) && AsksAsCoordinator(log, session, n)
    requires forall d: nat :: d < UNKNOWN ==> !HasDepth(log, n, session, d)
    requires depth < UNKNOWN
    ensures HasDepth(log, n + 1, session, depth) <==> depth == 0
  {
    hide HasDepth, Recovered, AsksAsCoordinator, StartsAnew;
    NotAnewNow(log, n, session);
    ChildStays(log, n, n + 1, session);
    DepthCases(log, n + 1, session, depth);
    forall d: nat | d < UNKNOWN - 1 ensures !ChildAt(log, n, session, d) {
      DepthCases(log, n, session, d + 1);
      assert !HasDepth(log, n, session, d + 1);
    }
    RecoveredNow(log, n, session);
    if depth > 0 { DepthCases(log, n, session, depth); }
  }

  /** The depth the state records for a session, as far as it is known, is the one it has by what happened. */
  lemma {:induction false} DepthIff(log: Log, n: nat, session: string, depth: nat)
    requires n <= |log| && depth < UNKNOWN
    ensures DepthOf(log[..n], session) == Some(depth) <==> HasDepth(log, n, session, depth)
    decreases n, depth
  {
    hide HasDepth, DepthOf;
    if n == 0 {
      DepthCases(log, 0, session, depth);
      NoDepthYet(log, session);
    } else {
      DepthAfterEvent(log, n - 1, session, depth);
    }
  }

  lemma {:induction false} DepthAfterEvent(log: Log, n: nat, session: string, depth: nat)
    requires n < |log| && depth < UNKNOWN
    ensures DepthOf(log[..n + 1], session) == Some(depth) <==> HasDepth(log, n + 1, session, depth)
    decreases n, UNKNOWN, 1
  {
    hide HasDepth, DepthOf, Recovered, StartsAnew, AsksAsCoordinator, AgentOf;
    var e, before := log[n], log[..n];
    assert log[..n + 1] == before + [e];
    DepthSnoc(before, e, session);
    if (e.Created? || e.Deleted?) && e.session == session {
      DepthCases(log, n + 1, session, depth);
      AnewNow(log, n, session);
      NoneRecovered(log, n, n + 1, session);
      if e.Deleted? { NoChildOfDeleted(log, n, n + 1, session); } else { ChildCreated(log, n, n + 1, session); }
      if depth > 0 && e.Created? && e.parent.Some? { DepthIff(log, n, e.parent.value, depth - 1); }
    } else {
      NotAnewNow(log, n, session);
      DepthIff(log, n, session, depth);
      if e == Asked(session) && !IsKnown(DepthOf(before, session)) && IsCoordinator(AgentOf(before, session)) {
        CoordinatorIff(log, n, session);
        forall d: nat | d < UNKNOWN ensures !HasDepth(log, n, session, d) { DepthIff(log, n, session, d); }
        DepthOfAsked(log, n, session, depth);
      } else {
        NotRecovered(log, n, session);
        DepthIff(log, n, session, 0);
        DepthStays(log, n, n + 1, session, depth);
      }
    }
  }

  /** Where the state records a depth, or no coordinator asks, nothing is recovered. */
  lemma {:induction false} NotRecovered(log: Log, n: nat, session: string)
    requires n < |log|
    requires log[n] == Asked(session) ==>
               IsKnown(DepthOf(log[..n], session)) || !IsCoordinator(AgentOf(log[..n], session))
    ensures Recovered(log, n + 1, session, n) ==> DepthOf(log[..n], session) == Some(0)
    decreases n, UNKNOWN, 0
  {
    hide HasDepth, DepthOf, AsksAsCoordinator, AgentOf, ChildAt;
    if log[n] == Asked(session) {
      CoordinatorIff(log, n, session);
      var depth := DepthOf(log[..n], session);
      if IsKnown(depth) {
        DepthIff(log, n, session, depth.value);
        DepthCases(log, n, session, depth.value);
      }
    } else {
      AsksOnly(log, n, session);
    }
  }

  lemma AsksOnly(log: Log, n: nat, session: string)
    requires n < |log| && log[n] != Asked(session)
    ensures !AsksAsCoordinator(log, session, n)
  {
  }

  lemma AnewNow(log: Log, n: nat, session: string)
    requires n < |log| && (log[n].Created? || log[n].Deleted?) && log[n].session == session
    ensures StartsAnew(log, session, n)
  {
  }

  lemma NoDepthYet(log: Log, session: string)
    ensures DepthOf(log[..0], session) == None
    ensures forall d: nat :: !ChildAt(log, 0, session, d)
    ensures forall i: nat :: !Recovered(log, 0, session, i)
  {
  }

  lemma NotAnewNow(log: Log, n: nat, session: string)
    requires n < |log| && !((log[n].Created? || log[n].Deleted?) && log[n].session == session)
    ensures !StartsAnew(log, session, n)
  {
  }

  lemma RecoveredNow(log: Log, n: nat, session: string)
    requires n < |log|
    ensures Recovered(log, n + 1, session, n) <==> AsksAsCoordinator(log, session, n) && NoChild(log, n, session)
  {
    hide AsksAsCoordinator, NoChild;
    assert NotAnew(log, session, n + 1, n + 1);
  }
}
