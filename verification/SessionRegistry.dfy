/**
 The registry of controlling sessions: peer sessions keyed by peer and connection type, each with its
 table of UI sessions, and the number of peer sessions that was last reported to the server.
 Hash maps are iterated in arbitrary order.
 */
module SessionRegistry {

  import opened Common

  datatype ConnType = Default | FileTransfer | PortForward | Rdp | ViewCamera | Terminal

  type SessionId = nat
  type PeerKey = (string, ConnType)

  datatype UiSession = UiSession(displays: seq<int>)

  type Handlers = map<SessionId, UiSession>
  type Sessions = map<PeerKey, Handlers>

  // ---------------------------------------------------------------- specification

  ghost predicate NoEmptyPeer(s: Sessions) {
    forall k :: k in s ==> s[k] != map[]
  }

  ghost predicate OnePeerEach(s: Sessions) {
    forall j, k, id :: j in s && k in s && id in s[j] && id in s[k] ==> j == k
  }

  function Inserted(s: Sessions, key: PeerKey, id: SessionId, ui: UiSession): Sessions {
    s[key := (if key in s then s[key] else map[])[id := ui]]
  }

  /** Some peer holds the UI session and nothing else. */
  ghost predicate RemovesPeer(s: Sessions, id: SessionId) {
    exists k :: k in s && id in s[k] && |s[k]| == 1
  }

  ghost predicate IsRemoval(s: Sessions, id: SessionId, s': Sessions) {
    && (forall k :: k in s' <==> k in s && !(id in s[k] && |s[k]| == 1))
    && (forall k :: k in s' ==> s'[k] == s[k] - {id})
  }

  /** Adding a session keeps ids unique exactly when no other peer has the id. */
  lemma InsertKeepsUniqueExactly(s: Sessions, key: PeerKey, id: SessionId, ui: UiSession)
    requires OnePeerEach(s)
    ensures OnePeerEach(Inserted(s, key, id, ui)) <==> forall k :: k in s && k != key ==> id !in s[k]
  {
    var s' := Inserted(s, key, id, ui);
    if k :| k in s && k != key && id in s[k] {
      assert k in s' && key in s' && id in s'[k] && id in s'[key];
    }
  }

  // ---------------------------------------------------------------- the registry

  class Registry {
    var sessions: Sessions
    var reported: nat

    ghost predicate Valid()
      reads this
    {
      NoEmptyPeer(sessions) && reported == |sessions|
    }

    constructor ()
      ensures Valid() && OnePeerEach(sessions) && sessions == map[]
    {
      sessions, reported := map[], 0;
    }

    method InsertSession(id: SessionId, key: PeerKey)
      requires Valid()
      modifies this
      ensures Valid() && sessions == Inserted(old(sessions), key, id, UiSession([]))
      ensures old(OnePeerEach(sessions)) ==>
                (OnePeerEach(sessions) <==> forall k :: k in old(sessions) && k != key ==> id !in old(sessions)[k])
      ensures sessions.Keys == old(sessions).Keys + {key}
      ensures id in sessions[key] && sessions[key][id].displays == []
      ensures sessions[key] - {id} == (if key in old(sessions) then old(sessions)[key] else map[]) - {id}
      ensures forall k :: k in old(sessions) && k != key ==> sessions[k] == old(sessions)[k]
    {
      if OnePeerEach(sessions) {
        InsertKeepsUniqueExactly(sessions, key, id, UiSession([]));
      }
      var handlers: Handlers := if key in sessions then sessions[key] else map[];
      handlers := handlers[id := UiSession([])];
      assert id in handlers;
      sessions := sessions[key := handlers];
      reported := |sessions|;
    }

    method InsertPeerSessionId(key: PeerKey, id: SessionId, displays: seq<int>) returns (ok: bool)
      requires Valid()
      modifies this
      ensures Valid() && ok == (key in old(sessions))
      ensures sessions == if ok then Inserted(old(sessions), key, id, UiSession(displays)) else old(sessions)
      ensures ok ==> sessions.Keys == old(sessions).Keys && id in sessions[key] && sessions[key][id].displays == displays
      ensures ok ==> sessions[key] - {id} == old(sessions)[key] - {id}
      ensures forall k :: k in old(sessions) && (k != key || !ok) ==> sessions[k] == old(sessions)[k]
    {
      if key !in sessions {
        return false;
      }
      ghost var was := sessions;
      var handlers: Handlers := sessions[key][id := UiSession(displays)];
      sessions := sessions[key := handlers];
      assert id in sessions[key];
      assert sessions.Keys == was.Keys;
      assert |sessions| == |sessions.Keys| && |was| == |was.Keys|;
      return true;
    }

    /** Looks through the peers in any order for the UI session. */
    method FindPeer(id: SessionId) returns (key: Option<PeerKey>)
      ensures key.Some? ==> key.value in sessions && id in sessions[key.value]
      ensures key.None? ==> forall k :: k in sessions ==> id !in sessions[k]
    {
      var rest := sessions.Keys;
      while rest != {}
        invariant rest <= sessions.Keys
        invariant forall k :: k in sessions && k !in rest ==> id !in sessions[k]
        decreases |rest|
      {
        var k :| k in rest;
        if id in sessions[k] {
          return Some(k);
        }
        rest := rest - {k};
      }
      return None;
    }

    method RemoveSessionBySessionId(id: SessionId) returns (removed: Option<PeerKey>)
      requires Valid() && OnePeerEach(sessions)
      modifies this
      ensures Valid() && OnePeerEach(sessions) && IsRemoval(old(sessions), id, sessions)
      ensures removed.Some? <==> RemovesPeer(old(sessions), id)
      ensures removed.Some? ==> removed.value in old(sessions) && sessions == old(sessions) - {removed.value}
    {
      var key := FindPeer(id);
      if key.None? {
        assert forall k :: k in sessions ==> sessions[k] - {id} == sessions[k];
        return None;
      }
      var k := key.value;
      var handlers := sessions[k] - {id};
      OnlyHolderChanges(sessions, k, id);
      if handlers == map[] {
        LastSessionRemoved(sessions, k, id);
        sessions := sessions - {k};
        reported := |sessions|;
        return Some(k);
      }
      OneSessionRemoved(sessions, k, id);
      sessions := sessions[k := handlers];
      return None;
    }

    /** True exactly when the removal would return the peer. */
    method WouldRemovePeerBySessionId(id: SessionId) returns (would: bool)
      requires OnePeerEach(sessions)
      ensures would <==> RemovesPeer(sessions, id)
    {
      var key := FindPeer(id);
      if key.None? {
        return false;
      }
      return |sessions[key.value]| == 1;
    }
  }

  /** The peer that holds the session is the only one that changes. */
  lemma OnlyHolderChanges(s: Sessions, k: PeerKey, id: SessionId)
    requires OnePeerEach(s) && k in s && id in s[k]
    ensures forall j :: j in s && j != k ==> id !in s[j] && s[j] - {id} == s[j]
    ensures s[k] - {id} == map[] <==> |s[k]| == 1
    ensures s[k] - {id} == map[] <==> RemovesPeer(s, id)
  {
    HandlersLeft(s[k], id);
  }

  lemma LastSessionRemoved(s: Sessions, k: PeerKey, id: SessionId)
    requires NoEmptyPeer(s) && OnePeerEach(s) && k in s && id in s[k] && s[k] - {id} == map[]
    ensures IsRemoval(s, id, s - {k}) && NoEmptyPeer(s - {k}) && OnePeerEach(s - {k})
  {
    OnlyHolderChanges(s, k, id);
  }

  lemma FewerSessionsStayUnique(s: Sessions, s': Sessions)
    requires OnePeerEach(s) && forall k :: k in s' ==> k in s && s'[k].Keys <= s[k].Keys
    ensures OnePeerEach(s')
  {
  }

  lemma OneSessionTaken(s: Sessions, k: PeerKey, id: SessionId)
    requires OnePeerEach(s) && k in s && id in s[k] && s[k] - {id} != map[]
    ensures IsRemoval(s, id, s[k := s[k] - {id}])
  {
    OnlyHolderChanges(s, k, id);
  }

  lemma TakenStaysUnique(s: Sessions, k: PeerKey, id: SessionId)
    requires OnePeerEach(s) && k in s
    ensures OnePeerEach(s[k := s[k] - {id}])
  {
    var left := s[k] - {id};
    assert left.Keys <= s[k].Keys;
    FewerSessionsStayUnique(s, s[k := left]);
  }

  lemma OneSessionRemoved(s: Sessions, k: PeerKey, id: SessionId)
    requires NoEmptyPeer(s) && OnePeerEach(s) && k in s && id in s[k] && s[k] - {id} != map[]
    ensures var s' := s[k := s[k] - {id}];
            IsRemoval(s, id, s') && NoEmptyPeer(s') && OnePeerEach(s') && |s'| == |s|
  {
    OneSessionTaken(s, k, id);
    TakenStaysUnique(s, k, id);
    SameKeysSameSize(s, s[k := s[k] - {id}]);
  }

  lemma HandlersLeft(h: Handlers, id: SessionId)
    requires id in h
    ensures h - {id} == map[] <==> |h| == 1
  {
    var left := h - {id};
    assert left.Keys == h.Keys - {id};
    assert |left.Keys| == |h.Keys| - 1;
    assert |left| == |left.Keys| && |h| == |h.Keys|;
  }

  // ---------------------------------------------------------------- whole runs

  /**
   A removal empties the peer's table under one lock and drops the peer under another; `drops` holds the
   peers in between. Once the number of peers may have changed, a report of it is owed: it reads the number and sends
   it, under the read lock, on a connection of its own, so reports in flight may arrive in any order.
   */
  datatype System = System(sessions: Sessions, drops: multiset<PeerKey>, owed: nat, flight: seq<nat>, reported: nat)

  const START := System(map[], multiset{}, 0, [], 0)

  datatype Step =
    | Insert(id: SessionId, key: PeerKey)
    | Attach(id: SessionId, key: PeerKey, displays: seq<int>)
    | Detach(id: SessionId, key: PeerKey)
    | Drop(key: PeerKey)
    | Report
    | ReportFails
    | Deliver(i: nat)

  predicate Enabled(sys: System, step: Step) {
    match step
    case Insert(_, _) => true
    case Attach(_, key, _) => key in sys.sessions
    case Detach(id, key) => key in sys.sessions && id in sys.sessions[key]
    case Drop(key) => key in sys.drops
    case Report => sys.owed > 0
    case ReportFails => sys.owed > 0
    case Deliver(i) => i < |sys.flight|
  }

  function Next(sys: System, step: Step): System
    requires Enabled(sys, step)
  {
    match step
    case Insert(id, key) => sys.(sessions := Inserted(sys.sessions, key, id, UiSession([])), owed := sys.owed + 1)
    case Attach(id, key, displays) => sys.(sessions := Inserted(sys.sessions, key, id, UiSession(displays)))
    case Detach(id, key) =>
      var left := sys.sessions[key] - {id};
      sys.(sessions := sys.sessions[key := left],
           drops := if left == map[] then sys.drops + multiset{key} else sys.drops)
    case Drop(key) => sys.(sessions := sys.sessions - {key}, drops := sys.drops - multiset{key}, owed := sys.owed + 1)
    case Report => sys.(flight := sys.flight + [|sys.sessions|], owed := sys.owed - 1)
    case ReportFails => sys.(owed := sys.owed - 1)
    case Deliver(i) => sys.(reported := sys.flight[i], flight := RemoveAt(sys.flight, i))
  }

  ghost predicate Reaches(sys: System, steps: seq<Step>, sys': System)
    decreases |steps|
  {
    if steps == [] then sys' == sys
    else Enabled(sys, steps[0]) && Reaches(Next(sys, steps[0]), steps[1..], sys')
  }

  // ---------------------------------------------------------------- sessions stay until they are detached

  /** A join uses a fresh id, and its peer is not about to be dropped. */
  ghost predicate Orderly(sys: System, step: Step) {
    step.Insert? || step.Attach? ==>
      && step.key !in sys.drops
      && forall k :: k in sys.sessions && k != step.key ==> step.id !in sys.sessions[k]
  }

  /** The empty peers are exactly those about to be dropped, once each; no id is under two peers. */
  ghost predicate Sound(sys: System) {
    && (forall k :: sys.drops[k] == if k in sys.sessions && sys.sessions[k] == map[] then 1 else 0)
    && OnePeerEach(sys.sessions)
  }

  lemma SameKeysSameSize<K, V>(a: map<K, V>, b: map<K, V>)
    requires a.Keys == b.Keys
    ensures |a| == |b|
  {
    assert |a| == |a.Keys| && |b| == |b.Keys|;
  }

  lemma JoinKeepsSoundExactly(sys: System, sys': System, key: PeerKey, id: SessionId, ui: UiSession)
    requires Sound(sys) && sys'.sessions == Inserted(sys.sessions, key, id, ui) && sys'.drops == sys.drops
    ensures Sound(sys') <==>
              key !in sys.drops && forall k :: k in sys.sessions && k != key ==> id !in sys.sessions[k]
  {
    InsertKeepsUniqueExactly(sys.sessions, key, id, ui);
    assert id in sys'.sessions[key];
    if key in sys.drops {
      assert sys'.drops[key] == 1 && sys'.sessions[key] != map[];
    }
  }

  lemma DetachKeepsSound(sys: System, id: SessionId, key: PeerKey)
    requires Sound(sys) && key in sys.sessions && id in sys.sessions[key]
    ensures Sound(Next(sys, Detach(id, key)))
  {
    var sys' := Next(sys, Detach(id, key));
    assert sys.sessions[key] != map[];
    TakenStaysUnique(sys.sessions, key, id);
  }

  lemma DropKeepsSound(sys: System, key: PeerKey)
    requires Sound(sys) && key in sys.drops
    ensures Sound(Next(sys, Drop(key)))
  {
  }

  /** However the locked sections interleave, a step keeps the registry sound exactly when it is orderly. */
  lemma NextKeepsSoundExactly(sys: System, step: Step)
    requires Sound(sys) && Enabled(sys, step)
    ensures Sound(Next(sys, step)) <==> Orderly(sys, step)
  {
    match step
    case Insert(id, key) => JoinKeepsSoundExactly(sys, Next(sys, step), key, id, UiSession([]));
    case Attach(id, key, displays) => JoinKeepsSoundExactly(sys, Next(sys, step), key, id, UiSession(displays));
    case Detach(id, key) => DetachKeepsSound(sys, id, key);
    case Drop(key) => DropKeepsSound(sys, key);
    case _ =>
  }

  ghost predicate OrderlyRun(sys: System, steps: seq<Step>)
    decreases |steps|
  {
    steps == [] ||
    (Enabled(sys, steps[0]) && Orderly(sys, steps[0]) && OrderlyRun(Next(sys, steps[0]), steps[1..]))
  }

  /** Orderly runs keep the registry sound, and free of empty peers when nothing is about to be dropped. */
  lemma {:induction false} RunKeepsSound(sys: System, steps: seq<Step>, sys': System)
    requires Sound(sys) && Reaches(sys, steps, sys') && OrderlyRun(sys, steps)
    ensures Sound(sys')
    ensures sys'.drops == multiset{} ==> NoEmptyPeer(sys'.sessions)
    decreases |steps|
  {
    if steps != [] {
      NextKeepsSoundExactly(sys, steps[0]);
      RunKeepsSound(Next(sys, steps[0]), steps[1..], sys');
    } else if sys'.drops == multiset{} {
      forall k | k in sys'.sessions
        ensures sys'.sessions[k] != map[]
      {
        assert sys'.drops[k] == 0;
      }
    }
  }

  ghost predicate Registered(sys: System, id: SessionId, key: PeerKey) {
    key in sys.sessions && id in sys.sessions[key]
  }

  /** A registered session is lost by its own removal, or when its peer is dropped under it. */
  lemma SessionLostExactly(sys: System, step: Step, id: SessionId, key: PeerKey)
    requires Enabled(sys, step) && Registered(sys, id, key)
    ensures Registered(Next(sys, step), id, key) <==> step != Detach(id, key) && step != Drop(key)
  {
  }

  /** In an orderly run, a session that is registered stays so until it is detached, whoever else comes and goes. */
  lemma {:induction false} SessionStaysRegistered(sys: System, steps: seq<Step>, sys': System, id: SessionId,
          key: PeerKey)
    requires Sound(sys) && Reaches(sys, steps, sys') && OrderlyRun(sys, steps)
    requires Registered(sys, id, key) && Detach(id, key) !in steps
    ensures Registered(sys', id, key)
    decreases |steps|
  {
    if steps != [] {
      NextKeepsSoundExactly(sys, steps[0]);
      SessionLostExactly(sys, steps[0], id, key);
      assert sys.drops[key] == 0;
      SessionStaysRegistered(Next(sys, steps[0]), steps[1..], sys', id, key);
    }
  }

  /**
   From the start of the program: sound, and a session inserted or attached at any point of an orderly run stays
   until detached.
   */
  lemma JoinedSessionStays(before: seq<Step>, join: Step, steps: seq<Step>, mid: System, sys: System)
    requires OrderlyRun(START, before) && Reaches(START, before, mid)
    requires (join.Insert? || join.Attach?) && Enabled(mid, join) && Orderly(mid, join)
    requires Reaches(Next(mid, join), steps, sys) && OrderlyRun(Next(mid, join), steps)
    requires Detach(join.id, join.key) !in steps
    ensures Sound(sys) && Registered(sys, join.id, join.key)
    ensures (forall step :: step in steps ==> !JoinsAs(step, join.id, join.key)) ==>
              sys.sessions[join.key][join.id].displays == if join.Attach? then join.displays else []
  {
    RunKeepsSound(START, before, mid);
    NextKeepsSoundExactly(mid, join);
    RunKeepsSound(Next(mid, join), steps, sys);
    SessionStaysRegistered(Next(mid, join), steps, sys, join.id, join.key);
    if forall step :: step in steps ==> !JoinsAs(step, join.id, join.key) {
      SessionStaysAsItIs(Next(mid, join), steps, sys, join.id, join.key);
    }
  }

  predicate JoinsAs(step: Step, id: SessionId, key: PeerKey) {
    (step.Insert? || step.Attach?) && step.id == id && step.key == key
  }

  /** Until it is detached or joins again, a session keeps its displays. */
  lemma {:induction false} SessionStaysAsItIs(sys: System, steps: seq<Step>, sys': System, id: SessionId, key: PeerKey)
    requires Sound(sys) && Reaches(sys, steps, sys') && OrderlyRun(sys, steps)
    requires Registered(sys, id, key) && Detach(id, key) !in steps
    requires forall step :: step in steps ==> !JoinsAs(step, id, key)
    ensures Registered(sys', id, key) && sys'.sessions[key][id] == sys.sessions[key][id]
    decreases |steps|
  {
    if steps != [] {
      NextKeepsSoundExactly(sys, steps[0]);
      SessionLostExactly(sys, steps[0], id, key);
      assert sys.drops[key] == 0;
      assert !JoinsAs(steps[0], id, key);
      SessionStaysAsItIs(Next(sys, steps[0]), steps[1..], sys', id, key);
    }
  }

  /** The two sections of a removal back to back do what the undisturbed removal does. */
  lemma RemovalAlone(sys: System, id: SessionId, key: PeerKey)
    requires OnePeerEach(sys.sessions) && key in sys.sessions && id in sys.sessions[key]
    ensures var mid := Next(sys, Detach(id, key));
            (Enabled(mid, Drop(key)) <==> key in sys.drops || |sys.sessions[key]| == 1)
            && IsRemoval(sys.sessions, id,
                         if |sys.sessions[key]| == 1 then Next(mid, Drop(key)).sessions else mid.sessions)
  {
    var s := sys.sessions;
    HandlersLeft(s[key], id);
    if |s[key]| == 1 {
      PeerTaken(s, key, id);
      assert s[key := s[key] - {id}] - {key} == s - {key};
    } else {
      OneSessionTaken(s, key, id);
    }
  }

  lemma PeerTaken(s: Sessions, k: PeerKey, id: SessionId)
    requires OnePeerEach(s) && k in s && id in s[k] && |s[k]| == 1
    ensures IsRemoval(s, id, s - {k})
  {
    OnlyHolderChanges(s, k, id);
  }

  /** However an orderly run goes on, the session stays until it is detached. */
  ghost predicate Survives(sys: System, id: SessionId, key: PeerKey) {
    forall steps, sys' :: Reaches(sys, steps, sys') && OrderlyRun(sys, steps) && Detach(id, key) !in steps ==>
      Registered(sys', id, key)
  }

  /** A session that joins under a fresh id survives exactly when its peer is not about to be dropped. */
  lemma JoinSurvivesExactly(sys: System, join: Step)
    requires Sound(sys) && (join.Insert? || join.Attach?) && Enabled(sys, join)
    requires forall k :: k in sys.sessions && k != join.key ==> join.id !in sys.sessions[k]
    ensures Survives(Next(sys, join), join.id, join.key) <==> join.key !in sys.drops
  {
    var joined := Next(sys, join);
    if join.key in sys.drops {
      var lost := Next(joined, Drop(join.key));
      assert [Drop(join.key)][1..] == [];
      assert Reaches(lost, [], lost) && Reaches(joined, [Drop(join.key)], lost);
      assert OrderlyRun(joined, [Drop(join.key)]);
      assert !Registered(lost, join.id, join.key);
    } else {
      NextKeepsSoundExactly(sys, join);
      forall steps, sys' | Reaches(joined, steps, sys') && OrderlyRun(joined, steps)
                           && Detach(join.id, join.key) !in steps
        ensures Registered(sys', join.id, join.key)
      {
        SessionStaysRegistered(joined, steps, sys', join.id, join.key);
      }
    }
  }

  /** One more step at the end of a run. */
  lemma {:induction false} Extend(sys: System, steps: seq<Step>, mid: System, step: Step)
    returns (steps': seq<Step>, sys': System)
    requires Reaches(sys, steps, mid) && Enabled(mid, step)
    ensures sys' == Next(mid, step) && steps' == steps + [step] && Reaches(sys, steps', sys')
    decreases |steps|
  {
    sys' := Next(mid, step);
    steps' := steps + [step];
    if steps == [] {
      assert Reaches(sys', [], sys');
    } else {
      var rest, end := Extend(Next(sys, steps[0]), steps[1..], mid, step);
      assert steps'[1..] == rest;
    }
  }

  /** A session that joins a peer about to be dropped is lost with it. */
  lemma JoiningADyingPeerIsLost(key: PeerKey, a: SessionId, b: SessionId) returns (steps: seq<Step>, sys: System)
    requires a != b
    ensures Reaches(START, steps, sys)
    ensures Attach(b, key, []) in steps && Detach(b, key) !in steps && sys.sessions == map[]
  {
    assert Reaches(START, [], START);
    steps, sys := Extend(START, [], START, Insert(a, key));
    steps, sys := Extend(START, steps, sys, Detach(a, key));
    assert sys.sessions[key] == map[];
    steps, sys := Extend(START, steps, sys, Attach(b, key, []));
    steps, sys := Extend(START, steps, sys, Drop(key));
  }

  // ---------------------------------------------------------------- the reported number of peers

  /** The report that was sent last; the one that counts if reports arrive in order. */
  function Latest(sys: System): nat {
    if sys.flight == [] then sys.reported else sys.flight[|sys.flight| - 1]
  }

  /** A report is owed, or the one sent last is right. */
  predicate Fresh(sys: System) {
    sys.owed > 0 || Latest(sys) == |sys.sessions|
  }

  predicate Quiet(sys: System) {
    sys.owed == 0 && sys.flight == []
  }

  /** The report sent last overtakes a wrong one, or the last report owed fails while the one before it is wrong. */
  predicate Misreports(sys: System, step: Step) {
    match step
    case Deliver(i) =>
      var n := |sys.flight|;
      i == n - 1 > 0 && sys.owed == 0 && sys.flight[n - 2] != |sys.sessions|
    case ReportFails => sys.owed == 1 && Latest(sys) != |sys.sessions|
    case _ => false
  }

  lemma NextKeepsFreshExactly(sys: System, step: Step)
    requires Fresh(sys) && Enabled(sys, step)
    ensures Fresh(Next(sys, step)) <==> !Misreports(sys, step)
  {
    match step
    case Attach(_, key, _) => SameKeysSameSize(Next(sys, step).sessions, sys.sessions);
    case Detach(_, key) => SameKeysSameSize(Next(sys, step).sessions, sys.sessions);
    case _ =>
  }

  ghost predicate NeverMisreports(sys: System, steps: seq<Step>)
    decreases |steps|
  {
    steps == [] ||
    (Enabled(sys, steps[0]) && !Misreports(sys, steps[0]) && NeverMisreports(Next(sys, steps[0]), steps[1..]))
  }

  ghost predicate FreshThroughout(sys: System, steps: seq<Step>)
    decreases |steps|
  {
    Fresh(sys) && (steps == [] || (Enabled(sys, steps[0]) && FreshThroughout(Next(sys, steps[0]), steps[1..])))
  }

  /** Over whole runs, the number on its way to the server is right at every point exactly when no step misreports. */
  lemma {:induction false} RunKeepsFreshExactly(sys: System, steps: seq<Step>, sys': System)
    requires Fresh(sys) && Reaches(sys, steps, sys')
    ensures FreshThroughout(sys, steps) <==> NeverMisreports(sys, steps)
    decreases |steps|
  {
    if steps != [] {
      NextKeepsFreshExactly(sys, steps[0]);
      if Fresh(Next(sys, steps[0])) {
        RunKeepsFreshExactly(Next(sys, steps[0]), steps[1..], sys');
      } else {
        assert !FreshThroughout(Next(sys, steps[0]), steps[1..]);
      }
    }
  }

  lemma {:induction false} FreshAtTheEnd(sys: System, steps: seq<Step>, sys': System)
    requires Reaches(sys, steps, sys') && FreshThroughout(sys, steps)
    ensures Fresh(sys')
    decreases |steps|
  {
    if steps != [] {
      FreshAtTheEnd(Next(sys, steps[0]), steps[1..], sys');
    }
  }

  /** Reports that all arrive, in the order they were sent. */
  predicate InOrder(step: Step) {
    !step.ReportFails? && (step.Deliver? ==> step.i == 0)
  }

  lemma {:induction false} InOrderNeverMisreports(sys: System, steps: seq<Step>, sys': System)
    requires Reaches(sys, steps, sys') && forall step :: step in steps ==> InOrder(step)
    ensures NeverMisreports(sys, steps)
    decreases |steps|
  {
    if steps != [] {
      assert InOrder(steps[0]);
      InOrderNeverMisreports(Next(sys, steps[0]), steps[1..], sys');
    }
  }

  /**
   If all reports arrive in order, then after every run the server's number is right once nothing is owed or in
   flight.
   */
  lemma ReportedIsRight(steps: seq<Step>, sys: System)
    requires Reaches(START, steps, sys) && forall step :: step in steps ==> InOrder(step)
    ensures Quiet(sys) ==> sys.reported == |sys.sessions|
  {
    InOrderNeverMisreports(START, steps, sys);
    RunKeepsFreshExactly(START, steps, sys);
    FreshAtTheEnd(START, steps, sys);
  }

  /** Two peers are added, and the second report arrives first: the number stays wrong. */
  lemma OvertakenReportStaysWrong(j: PeerKey, k: PeerKey, a: SessionId, b: SessionId)
    returns (steps: seq<Step>, sys: System)
    requires j != k
    ensures Reaches(START, steps, sys) && Quiet(sys)
    ensures sys.reported == 1 && |sys.sessions| == 2
  {
    assert Reaches(START, [], START);
    steps, sys := Extend(START, [], START, Insert(a, j));
    assert sys.sessions.Keys == {j};
    steps, sys := Extend(START, steps, sys, Report);
    steps, sys := Extend(START, steps, sys, Insert(b, k));
    assert sys.sessions.Keys == {j, k} && |sys.sessions| == |sys.sessions.Keys|;
    steps, sys := Extend(START, steps, sys, Report);
    steps, sys := Extend(START, steps, sys, Deliver(1));
    steps, sys := Extend(START, steps, sys, Deliver(0));
  }
}
