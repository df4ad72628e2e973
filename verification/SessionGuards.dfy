/** The session state of the permission guards: which files a session has read, and how deep below a coordinator it
    is. */
module SessionGuards {
  import opened Wrappers

  const MAX_TRACKED_SESSIONS := 50
  const UNKNOWN_SUBAGENT_DEPTH := 9007199254740991

  predicate IsPrimaryCoordinator(name: string) { name in {"orchestrator", "builder"} }

  // ----- what happened

  /** Everything that bears on the guards' state, in order. An eviction is a consequence of a read by another
      session. */
  datatype Event =
    | FileRead(session: string, file: string)
    | Evicted(session: string)
    | Created(session: string, parent: Option<string>)
    | Mapped(session: string, agent: string)
    | Asked(session: string)
    | Compacted(session: string)
    | Deleted(session: string)

  type Log = seq<Event>

  predicate Forgets(e: Event, session: string) { (e.Evicted? || e.Compacted? || e.Deleted?) && e.session == session }

  /** The files a session may edit. */
  function Tokens(log: Log, session: string): set<string>
  {
    if log == [] then {}
    else
      var before, e := Tokens(log[..|log| - 1], session), log[|log| - 1];
      if Forgets(e, session) then {}
      else if e.FileRead? && e.session == session then before + {e.file}
      else before
  }

  /** Whether the session is tracked: it read something, and was not forgotten since. */
  predicate IsTracked(log: Log, session: string)
  {
    log != [] &&
    var e := log[|log| - 1];
    !Forgets(e, session) && ((e.FileRead? && e.session == session) || IsTracked(log[..|log| - 1], session))
  }

  /** The agent a session is mapped to. */
  function AgentOf(log: Log, session: string): Option<string>
  {
    if log == [] then None
    else
      match log[|log| - 1]
      case Mapped(s, agent) => if s == session then Some(agent) else AgentOf(log[..|log| - 1], session)
      case Deleted(s) => if s == session then None else AgentOf(log[..|log| - 1], session)
      case _ => AgentOf(log[..|log| - 1], session)
  }

  predicate IsKnown(depth: Option<nat>) { depth.Some? && depth.value < UNKNOWN_SUBAGENT_DEPTH }

  predicate IsCoordinator(agent: Option<string>) { agent.Some? && IsPrimaryCoordinator(agent.value) }

  /** The depth recorded for a session. */
  function DepthOf(log: Log, session: string): Option<nat>
  {
    if log == [] then None
    else
      var before, e := log[..|log| - 1], log[|log| - 1];
      var depth := DepthOf(before, session);
      if e.session != session then depth
      else
        match e
        case Created(_, parent) =>
          if parent.None? || !IsKnown(DepthOf(before, parent.value)) then Some(UNKNOWN_SUBAGENT_DEPTH)
          else Some(DepthOf(before, parent.value).value + 1)
        case Asked(_) => if !IsKnown(depth) && IsCoordinator(AgentOf(before, session)) then Some(0) else depth
        case Deleted(_) => None
        case _ => depth
  }

  // ----- what the state means

  /** The session read the file, and nothing since made it be forgotten. */
  ghost predicate ReadSince(log: Log, session: string, file: string)
  {
    exists i :: 0 <= i < |log| && log[i] == FileRead(session, file)
        && forall j :: i < j < |log| ==> !Forgets(log[j], session)
  }

  /** A session holds a token for a file exactly when it read it, and nothing since made it be forgotten. */
  lemma {:induction false} TokenIff(log: Log, session: string, file: string)
    ensures file in Tokens(log, session) <==> ReadSince(log, session, file)
  {
    if log != [] {
      var before, n := log[..|log| - 1], |log| - 1;
      TokenIff(before, session, file);
      if file in Tokens(log, session) {
        if log[n] != FileRead(session, file) {
          var i :| 0 <= i < |before| && before[i] == FileRead(session, file)
              && forall j :: i < j < |before| ==> !Forgets(before[j], session);
          assert log[i] == before[i];
          assert forall j :: i < j < |log| ==> !Forgets(log[j], session) by {
            assert forall j :: i < j < n ==> log[j] == before[j];
          }
        }
      }
      if i :| && 0 <= i < |log| && log[i] == FileRead(session, file)
              && forall j :: i < j < |log| ==> !Forgets(log[j], session) {
        if i < n {
          assert before[i] == log[i];
          assert forall j :: i < j < |before| ==> before[j] == log[j];
          assert !Forgets(log[n], session);
        }
      }
    }
  }

  /** A depth that was come by: zero for a mapped coordinator when it asked, one more than its parent's for a created
      session. */
  ghost predicate Lineage(log: Log, n: nat, session: string, depth: nat)
    requires n <= |log|
    decreases depth
  {
    if depth == 0 then exists i :: 0 <= i < n && log[i] == Asked(session) && IsCoordinator(AgentOf(log[..i], session))
    else
      exists i, parent ::
        0 <= i < n && log[i] == Created(session, Some(parent)) && Lineage(log, i, parent, depth - 1)
  }

  lemma {:induction false} LineageStays(log: Log, n: nat, m: nat, session: string, depth: nat)
    requires n <= m <= |log| && Lineage(log, n, session, depth)
    ensures Lineage(log, m, session, depth)
  {
  }

  /** A known depth d always comes from d successive creations by a parent, the first of which was a session that was
      mapped to a coordinator when its depth was recovered as zero. */
  lemma {:induction false} KnownDepthHasLineage(log: Log, n: nat, session: string)
    requires n <= |log| && IsKnown(DepthOf(log[..n], session))
    ensures Lineage(log, n, session, DepthOf(log[..n], session).value)
    decreases n
  {
    if n > 0 {
      var e := log[n - 1];
      assert log[..n][..n - 1] == log[..n - 1];
      if e.session == session && e.Created? {
        KnownDepthHasLineage(log, n - 1, e.parent.value);
      } else if IsKnown(DepthOf(log[..n - 1], session)) && !(e.session == session && e.Deleted?) {
        KnownDepthHasLineage(log, n - 1, session);
        LineageStays(log, n - 1, n, session, DepthOf(log[..n], session).value);
      } else {
        assert log[n - 1] == Asked(session) && IsCoordinator(AgentOf(log[..n - 1], session));
      }
    }
  }

  // ----- the guards

  lemma TokensSnoc(log: Log, e: Event, session: string)
    ensures Tokens(log + [e], session) == if Forgets(e, session) then {}
                                          else if e.FileRead? && e.session == session then
                                              Tokens(log, session) + {e.file}
                                          else Tokens(log, session)
    ensures IsTracked(log + [e], session)
              == (!Forgets(e, session) && ((e.FileRead? && e.session == session) || IsTracked(log, session)))
  {
  }

  lemma DepthSnoc(log: Log, e: Event, session: string)
    ensures AgentOf(log + [e], session) == if e.session == session && e.Mapped? then Some(e.agent)
                                           else if e.session == session && e.Deleted? then None
                                           else AgentOf(log, session)
    ensures DepthOf(log + [e], session)
            == if e.session != session then DepthOf(log, session)
               else match e
                    case Created(_, parent) =>
                      if parent.None? || !IsKnown(DepthOf(log, parent.value)) then Some(UNKNOWN_SUBAGENT_DEPTH)
                      else Some(DepthOf(log, parent.value).value + 1)
                    case Asked(_) => if !IsKnown(DepthOf(log, session)) && IsCoordinator(AgentOf(log, session)) then
                        Some(0) else DepthOf(log, session)
                    case Deleted(_) => None
                    case _ => DepthOf(log, session)
  {
  }

  /** Sessions with tokens are the tracked ones, with the tokens the log gives them. */
  ghost predicate ReadsMatch(held: map<string, set<string>>, log: Log)
  {
    && (forall s :: s in held <==> IsTracked(log, s))
    && forall s :: Tokens(log, s) == if s in held then held[s] else {}
  }

  ghost predicate DepthsMatch(depths: map<string, nat>, agents: map<string, string>, log: Log)
  {
    forall s :: Get(depths, s) == DepthOf(log, s) && Get(agents, s) == AgentOf(log, s)
  }

  lemma ReadRecorded(held: map<string, set<string>>, after: map<string, set<string>>, log: Log, session: string,
      file: string)
    requires ReadsMatch(held, log)
    requires after == held[session := (if session in held then held[session] else {}) + {file}]
    ensures ReadsMatch(after, log + [FileRead(session, file)])
  {
  }

  lemma ReadsForgotten(held: map<string, set<string>>, log: Log, e: Event)
    requires ReadsMatch(held, log) && Forgets(e, e.session)
    ensures ReadsMatch(held - {e.session}, log + [e])
  {
  }

  lemma ReadsStay(held: map<string, set<string>>, log: Log, e: Event)
    requires ReadsMatch(held, log) && !Forgets(e, e.session) && !e.FileRead?
    ensures ReadsMatch(held, log + [e])
  {
  }

  /** An event changes the depth and the agent of its own session only. */
  lemma DepthsAdvance(depths: map<string, nat>, depths': map<string, nat>, agents: map<string, string>,
      agents': map<string, string>, log: Log, e: Event)
    requires DepthsMatch(depths, agents, log)
    requires forall s :: s != e.session ==> Get(depths', s) == Get(depths, s) && Get(agents', s) == Get(agents, s)
    requires Get(depths', e.session) == DepthOf(log + [e], e.session)
             && Get(agents', e.session) == AgentOf(log + [e], e.session)
    ensures DepthsMatch(depths', agents', log + [e])
  {
  }

  lemma DepthsStay(depths: map<string, nat>, agents: map<string, string>, log: Log, e: Event)
    requires DepthsMatch(depths, agents, log) && (e.FileRead? || e.Evicted? || e.Compacted?)
    ensures DepthsMatch(depths, agents, log + [e])
  {
  }

  lemma DepthForgotten(depths: map<string, nat>, agents: map<string, string>, log: Log, session: string)
    requires DepthsMatch(depths, agents, log)
    ensures DepthsMatch(depths - {session}, agents - {session}, log + [Deleted(session)])
  {
  }

  lemma TouchedKeys(held: map<string, set<string>>, accesses: map<string, int>, session: string, now: int)
    requires held.Keys == accesses.Keys + {session}
    ensures held.Keys == accesses[session := now].Keys
    ensures |accesses[session := now]| == if session in accesses then |accesses| else |accesses| + 1
  {
  }

  lemma SomeoneElse(m: map<string, int>, k: string, v: int)
    requires |m| >= 1 && k !in m
    ensures SomeOther(m[k := v], k)
  {
    assert m.Keys != {};
    var other :| other in m.Keys;
    assert other in m[k := v];
  }

  predicate SomeOther(accesses: map<string, int>, session: string) { exists k :: k in accesses && k != session }

  lemma KeysWithout(held: map<string, set<string>>, accesses: map<string, int>, k: string)
    requires held.Keys == accesses.Keys
    ensures (held - {k}).Keys == (accesses - {k}).Keys && |accesses - {k}| <= |accesses|
    ensures k in accesses ==> |accesses - {k}| == |accesses| - 1
  {
  }

  function Get<T>(m: map<string, T>, k: string): Option<T> { if k in m then Some(m[k]) else None }

  /** A session other than this one that was accessed no later than any. */
  predicate Oldest(accesses: map<string, int>, session: string, key: string)
  {
    key in accesses && key != session && forall k :: k in accesses && k != session ==> accesses[key] <= accesses[k]
  }

  /** The sessions with tokens, in the order they came: a JavaScript map lists its keys so, and one that is set again
      stays where it is. */
  function Arrivals(log: Log): seq<string>
  {
    if log == [] then [] else Arrived(Arrivals(log[..|log| - 1]), log[|log| - 1])
  }

  function Arrived(order: seq<string>, e: Event): seq<string>
  {
    match e
    case FileRead(session, _) => Joined(order, session)
    case Evicted(session) => Without(order, session)
    case Compacted(session) => Without(order, session)
    case Deleted(session) => Without(order, session)
    case _ => order
  }

  function Joined(order: seq<string>, session: string): seq<string>
  {
    if session in order then order else order + [session]
  }

  function Without(order: seq<string>, session: string): (r: seq<string>)
    ensures forall k :: k in r <==> k in order && k != session
  {
    if order == [] then []
    else
      var front, last := order[..|order| - 1], order[|order| - 1];
      assert order == front + [last];
      Without(front, session) + if last == session then [] else [last]
  }

  /** The keys of a map in their order, as what happened gives it. */
  ghost predicate OrderMatches(order: seq<string>, accesses: map<string, int>, log: Log)
  {
    order == Arrivals(log) && SameKeys(order, accesses)
  }

  ghost predicate SameKeys(order: seq<string>, accesses: map<string, int>)
  {
    forall k :: k in order <==> k in accesses
  }

  lemma OrderHasKeys(order: seq<string>, accesses: map<string, int>, log: Log)
    requires OrderMatches(order, accesses, log)
    ensures SameKeys(order, accesses)
  {
  }

  lemma OrderOfTouched(order: seq<string>, accesses: map<string, int>, log: Log, session: string, file: string,
                       now: int)
    requires OrderMatches(order, accesses, log)
    ensures OrderMatches(Joined(order, session), accesses[session := now], log + [FileRead(session, file)])
    ensures session in order <==> session in accesses
  {
    assert (log + [FileRead(session, file)])[..|log|] == log;
  }

  lemma OrderWithout(order: seq<string>, accesses: map<string, int>, log: Log, session: string, e: Event)
    requires OrderMatches(order, accesses, log)
    requires (e.Evicted? || e.Compacted? || e.Deleted?) && e.session == session
    ensures OrderMatches(Without(order, session), accesses - {session}, log + [e])
  {
    assert (log + [e])[..|log|] == log;
  }

  lemma OrderStays(order: seq<string>, accesses: map<string, int>, log: Log, e: Event)
    requires OrderMatches(order, accesses, log) && (e.Created? || e.Mapped? || e.Asked?)
    ensures OrderMatches(order, accesses, log + [e])
  {
    assert (log + [e])[..|log|] == log;
  }

  /** Of the sessions other than this one that were accessed no later than any, the one that came first. */
  ghost predicate FirstOldest(order: seq<string>, accesses: map<string, int>, session: string, key: string)
  {
    && Oldest(accesses, session, key)
    && exists i :: 0 <= i < |order| && order[i] == key
                   && forall k :: 0 <= k < i && order[k] in accesses && order[k] != session ==>
                        accesses[key] < accesses[order[k]]
  }

  lemma FirstOldestBefore(order: seq<string>, before: map<string, int>, session: string, now: int, key: string)
    requires session !in before && FirstOldest(order + [session], before[session := now], session, key)
    ensures FirstOldest(order, before, session, key) && key in before && key != session
  {
    var after := before[session := now];
    assert forall k :: k in before && k != session ==> k in after && after[k] == before[k];
    var all := order + [session];
    var i :| 0 <= i < |all| && all[i] == key
             && forall k :: 0 <= k < i && all[k] in after && all[k] != session ==> after[key] < after[all[k]];
    assert i < |order| && order[i] == key;
    assert forall k :: 0 <= k < i ==> all[k] == order[k];
  }

  lemma FirstOldestIsAnother(order: seq<string>, accesses: map<string, int>, session: string, key: string)
    requires FirstOldest(order, accesses, session, key)
    ensures key != session
  {
  }

  /** There is only one. */
  lemma FirstOldestIsOne(order: seq<string>, accesses: map<string, int>, session: string, a: string, b: string)
    requires FirstOldest(order, accesses, session, a) && FirstOldest(order, accesses, session, b)
    ensures a == b
  {
    var i :| 0 <= i < |order| && order[i] == a
             && forall k :: 0 <= k < i && order[k] in accesses && order[k] != session ==>
                  accesses[a] < accesses[order[k]];
    var j :| 0 <= j < |order| && order[j] == b
             && forall k :: 0 <= k < j && order[k] in accesses && order[k] != session ==>
                  accesses[b] < accesses[order[k]];
    assert accesses[a] == accesses[b];
  }

  /** The access times after this access, which may have evicted a session. */
  function AccessesWith(accesses: map<string, int>, session: string, now: int, evicted: Option<string>)
    : map<string, int>
  {
    if evicted.None? then accesses[session := now] else accesses[session := now] - {evicted.value}
  }

  /** The loop of `touchSession`. */
  method FindOldest(order: seq<string>, accesses: map<string, int>, session: string)
    returns (oldestKey: Option<string>)
    requires SameKeys(order, accesses)
    ensures oldestKey.Some? <==> SomeOther(accesses, session)
    ensures oldestKey.Some? ==> FirstOldest(order, accesses, session, oldestKey.value)
  {
    oldestKey := None;
    var oldestTime := 0;
    ghost var at := 0;
    for i := 0 to |order|
      invariant oldestKey.None? ==> forall k :: 0 <= k < i ==> order[k] == session
      invariant oldestKey.Some? ==>
                  && 0 <= at < i && oldestKey.value == order[at] && oldestKey.value in accesses
                  && oldestKey.value != session && oldestTime == accesses[oldestKey.value]
      invariant oldestKey.Some? ==>
                  forall k :: 0 <= k < i && order[k] in accesses && order[k] != session ==>
                    oldestTime <= accesses[order[k]] && (k < at ==> oldestTime < accesses[order[k]])
    {
      var key := order[i];
      if key == session { continue; }
      assert key in order;
      var time := accesses[key];
      if oldestKey.None? || time < oldestTime {
        oldestTime := time;
        oldestKey := Some(key);
        at := i;
      }
    }
    if oldestKey.Some? {
      forall k | k in accesses && k != session ensures oldestTime <= accesses[k] { assert k in order; }
    } else {
      forall k | k in accesses ensures k == session { assert k in order; }
    }
  }

  class Guards {
    var readPermissions: map<string, set<string>>
    var lastAccess: map<string, int>
    /** The keys of `lastAccess` in the order they came. */
    var accessOrder: seq<string>
    var sessionDepthMap: map<string, nat>
    var sessionAgentMap: map<string, string>
    /** All that happened so far. */
    ghost var log: Log

    constructor ()
      ensures Valid() && log == []
    {
      readPermissions, lastAccess, accessOrder := map[], map[], [];
      sessionDepthMap, sessionAgentMap, log := map[], map[], [];
    }

    /** The maps say what the log says, and at most fifty sessions are tracked. */
    ghost predicate Valid()
      reads this
    {
      && ReadsMatch(readPermissions, log)
      && readPermissions.Keys == lastAccess.Keys && |lastAccess| <= MAX_TRACKED_SESSIONS
      && OrderMatches(accessOrder, lastAccess, log)
      && DepthsMatch(sessionDepthMap, sessionAgentMap, log)
    }

    /** `trackReadPermission`, for a read of an existing file of the project, if it is one, while the write guard is
        on or off. A read by a fifty-first session evicts another one that was not accessed later than any; of several
        such sessions the one that came first. */
    method TrackRead(session: string, file: Option<string>, on: bool, now: int) returns (evicted: Option<string>)
      requires Valid()
      modifies this`readPermissions, this`lastAccess, this`accessOrder, this`log
      ensures Valid()
      ensures !on || file.None? ==> log == old(log) && evicted.None? && lastAccess == old(lastAccess)
      ensures on && file.Some? ==>
                log == old(log) + [FileRead(session, file.value)]
                    + (if evicted.Some? then [Evicted(evicted.value)] else [])
      ensures on && file.Some? ==>
                && file.value in Tokens(log, session)
                && lastAccess == AccessesWith(old(lastAccess), session, now, evicted)
      ensures on && file.Some? ==>
                (evicted.Some? <==> |old(lastAccess)| == 50 && session !in old(lastAccess))
      ensures evicted.Some? ==> FirstOldest(old(accessOrder), old(lastAccess), session, evicted.value)
    {
      hide Joined, AccessesWith, OrderMatches, Arrivals, Without, FirstOldest, ReadsMatch, DepthsMatch, Tokens,
           IsTracked;
      if !on || file.None? { return None; }
      var paths := if session in readPermissions then readPermissions[session] else {};
      readPermissions := readPermissions[session := paths + {file.value}];
      ghost var e := FileRead(session, file.value);
      ReadRecorded(old(readPermissions), readPermissions, log, session, file.value);
      DepthsStay(sessionDepthMap, sessionAgentMap, log, e);
      TokensSnoc(log, e, session);
      OrderOfTouched(accessOrder, lastAccess, log, session, file.value, now);
      log := log + [e];
      evicted := TouchSession(session, now);
      if evicted.Some? {
        FirstOldestIsAnother(old(accessOrder), old(lastAccess), session, evicted.value);
        TokensSnoc(old(log) + [e], Evicted(evicted.value), session);
      }
      assert log == old(log) + [e] + (if evicted.Some? then [Evicted(evicted.value)] else []);
      assert old(log) + [e] + [] == old(log) + [e];
    }

    /** `touchSession` */
    method TouchSession(session: string, now: int) returns (oldestKey: Option<string>)
      requires ReadsMatch(readPermissions, log) && DepthsMatch(sessionDepthMap, sessionAgentMap, log)
      requires readPermissions.Keys == lastAccess.Keys + {session} && |lastAccess| <= MAX_TRACKED_SESSIONS
      requires session in accessOrder <==> session in lastAccess
      requires OrderMatches(Joined(accessOrder, session), lastAccess[session := now], log)
      modifies this`readPermissions, this`lastAccess, this`accessOrder, this`log
      ensures Valid()
      ensures log == old(log) + if oldestKey.Some? then [Evicted(oldestKey.value)] else []
      ensures lastAccess == AccessesWith(old(lastAccess), session, now, oldestKey)
      ensures oldestKey.Some? <==> |old(lastAccess)| == MAX_TRACKED_SESSIONS && session !in old(lastAccess)
      ensures oldestKey.Some? ==> FirstOldest(old(accessOrder), old(lastAccess), session, oldestKey.value)
    {
      hide ReadsMatch, DepthsMatch, Oldest, SomeOther, FirstOldest, Arrivals, Without, OrderMatches,
           SameKeys;
      ghost var before := lastAccess;
      TouchedKeys(readPermissions, before, session, now);
      accessOrder := Joined(accessOrder, session);
      lastAccess := lastAccess[session := now];
      oldestKey := None;
      if |lastAccess| <= MAX_TRACKED_SESSIONS { return; }
      OrderHasKeys(accessOrder, lastAccess, log);
      oldestKey := FindOldest(accessOrder, lastAccess, session);
      SomeoneElse(before, session, now);
      FirstOldestBefore(old(accessOrder), before, session, now, oldestKey.value);
      Evict(oldestKey.value);
    }

    method Evict(key: string)
      requires ReadsMatch(readPermissions, log) && DepthsMatch(sessionDepthMap, sessionAgentMap, log)
      requires readPermissions.Keys == lastAccess.Keys && |lastAccess| == MAX_TRACKED_SESSIONS + 1
      requires OrderMatches(accessOrder, lastAccess, log)
      requires key in lastAccess
      modifies this`readPermissions, this`lastAccess, this`accessOrder, this`log
      ensures Valid() && log == old(log) + [Evicted(key)] && lastAccess == old(lastAccess) - {key}
    {
      hide OrderMatches, Without, Arrivals, ReadsMatch, DepthsMatch;
      KeysWithout(readPermissions, lastAccess, key);
      ReadsForgotten(readPermissions, log, Evicted(key));
      DepthsStay(sessionDepthMap, sessionAgentMap, log, Evicted(key));
      OrderWithout(accessOrder, lastAccess, log, key, Evicted(key));
      lastAccess := lastAccess - {key};
      accessOrder := Without(accessOrder, key);
      readPermissions := readPermissions - {key};
      log := log + [Evicted(key)];
    }

    /** `guardPatchWithoutRead`, for an edit of an existing file of the project outside `.omo`, if it is one. */
    method GuardEdit(session: string, file: Option<string>, on: bool) returns (passes: bool)
      requires Valid()
      ensures passes <==> !on || file.None? || ReadSince(log, session, file.value)
    {
      hide ReadSince;
      if file.Some? { TokenIff(log, session, file.value); }
      if !on || file.None? { return true; }
      return session in readPermissions && file.value in readPermissions[session];
    }

    /** `guardSubagentDepth` */
    method GuardTask(session: string, on: bool, maxDepth: nat) returns (passes: bool)
      requires Valid()
      modifies this`sessionDepthMap, this`log
      ensures Valid()
      ensures log == if on then old(log) + [Asked(session)] else old(log)
      ensures on ==> (passes <==> IsKnown(DepthOf(log, session)) && DepthOf(log, session).value < maxDepth)
      ensures on && passes ==> Lineage(log, |log|, session, DepthOf(log, session).value)
      ensures !on ==> passes
    {
      hide OrderMatches;
      if !on { return true; }
      var depth := Get(sessionDepthMap, session);
      if depth.None? || depth.value >= UNKNOWN_SUBAGENT_DEPTH {
        var agentName := Get(sessionAgentMap, session);
        if agentName.Some? && IsPrimaryCoordinator(agentName.value) {
          depth := Some(0);
          sessionDepthMap := sessionDepthMap[session := 0];
        } else {
          depth := Some(maxDepth);
        }
      }
      DepthsAdvance(old(sessionDepthMap), sessionDepthMap, sessionAgentMap, sessionAgentMap, log, Asked(session));
      ReadsStay(readPermissions, log, Asked(session));
      OrderStays(accessOrder, lastAccess, log, Asked(session));
      log := log + [Asked(session)];
      DepthSnoc(old(log), Asked(session), session);
      passes := depth.value < maxDepth;
      if passes {
        assert log[..|log|] == log;
        KnownDepthHasLineage(log, |log|, session);
      }
    }

    /** A `session.created` event: the depth is the parent's and one, where the parent's is known. */
    method SessionCreated(session: string, parent: Option<string>)
      requires Valid()
      modifies this`sessionDepthMap, this`log
      ensures Valid() && log == old(log) + [Created(session, parent)]
    {
      hide ReadsMatch, OrderMatches;
      if parent.Some? {
        var parentDepth := Get(sessionDepthMap, parent.value);
        var depth := if parentDepth.None? || parentDepth.value >= UNKNOWN_SUBAGENT_DEPTH then UNKNOWN_SUBAGENT_DEPTH
            else parentDepth.value + 1;
        sessionDepthMap := sessionDepthMap[session := depth];
      } else {
        sessionDepthMap := sessionDepthMap[session := UNKNOWN_SUBAGENT_DEPTH];
      }
      DepthSnoc(log, Created(session, parent), session);
      DepthsAdvance(old(sessionDepthMap), sessionDepthMap, sessionAgentMap, sessionAgentMap, log,
          Created(session, parent));
      ReadsStay(readPermissions, log, Created(session, parent));
      OrderStays(accessOrder, lastAccess, log, Created(session, parent));
      log := log + [Created(session, parent)];
    }

    /** The agent a chat message is sent to. */
    method AgentMapped(session: string, agent: string)
      requires Valid()
      modifies this`sessionAgentMap, this`log
      ensures Valid() && log == old(log) + [Mapped(session, agent)]
    {
      hide ReadsMatch, OrderMatches;
      sessionAgentMap := sessionAgentMap[session := agent];
      DepthSnoc(log, Mapped(session, agent), session);
      DepthsAdvance(sessionDepthMap, sessionDepthMap, old(sessionAgentMap), sessionAgentMap, log,
          Mapped(session, agent));
      ReadsStay(readPermissions, log, Mapped(session, agent));
      OrderStays(accessOrder, lastAccess, log, Mapped(session, agent));
      log := log + [Mapped(session, agent)];
    }

    /** A `session.deleted` or `session.compacted` event. */
    method SessionForgotten(session: string, deleted: bool)
      requires Valid()
      modifies this
      ensures Valid() && log == old(log) + [if deleted then Deleted(session) else Compacted(session)]
      ensures session !in readPermissions && lastAccess == old(lastAccess) - {session}
    {
      hide OrderMatches, Without, Arrivals, ReadsMatch, DepthsMatch, DepthOf, AgentOf, Tokens, IsTracked;
      ghost var e := if deleted then Deleted(session) else Compacted(session);
      KeysWithout(readPermissions, lastAccess, session);
      readPermissions := readPermissions - {session};
      OrderWithout(accessOrder, lastAccess, log, session, e);
      lastAccess := lastAccess - {session};
      accessOrder := Without(accessOrder, session);
      if deleted {
        sessionAgentMap := sessionAgentMap - {session};
        sessionDepthMap := sessionDepthMap - {session};
      }
      ReadsForgotten(old(readPermissions), log, e);
      if deleted {
        DepthForgotten(old(sessionDepthMap), old(sessionAgentMap), log, session);
      } else {
        DepthsStay(sessionDepthMap, sessionAgentMap, log, e);
      }
      log := log + [e];
    }
  }
}
