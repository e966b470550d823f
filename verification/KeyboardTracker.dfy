/**
 Remote key tracking in Map mode: which keys the peer holds down, the table of keys to release, the
 modifier flags, the exit shortcut of relative mouse mode, and the sweep that releases everything.

 A key event carries the code it is translated to for the peer (none when it is filtered out). The
 peer holds a code down from a down event until an up event with the same code.
 */
module KeyboardTracker {

  import opened Common

  datatype Key =
    | ShiftLeft | ShiftRight | ControlLeft | ControlRight | Alt | AltGr | MetaLeft | MetaRight
    | KeyG | CapsLock | NumLock | Unknown(raw: nat) | OtherKey(id: nat)

  type Code = nat

  datatype Kind = Press | Release
  datatype Event = Event(kind: Kind, key: Key, code: Option<Code>)

  datatype KeyEvent = KeyEvent(down: bool, chr: Code)

  datatype Platform = Windows | MacOS | Linux

  const MODIFIERS: set<Key> :=
    {ShiftLeft, ShiftRight, ControlLeft, ControlRight, Alt, AltGr, MetaLeft, MetaRight}

  datatype State = State(
    toRelease: map<Key, Event>, modifiers: map<Key, bool>,
    hooked: bool, exitDown: bool, relative: bool, remote: set<Code>)

  function Initial(): State {
    State(map[], map k | k in MODIFIERS :: false, false, false, false, {})
  }

  function HookedStart(): State {
    Initial().(hooked := true)
  }

  // ---------------------------------------------------------------- specification of one event

  predicate LongPress(s: State, e: Event) {
    e.kind.Press? && e.key in s.modifiers && s.modifiers[e.key]
  }

  function AfterSending(remote: set<Code>, e: KeyEvent): set<Code> {
    if e.down then remote + {e.chr} else remote - {e.chr}
  }

  function MapKeyboardMode(e: Event): seq<KeyEvent> {
    if e.code.None? then [] else [KeyEvent(e.kind.Press?, e.code.value)]
  }

  /**
   The three updates of one event, each under its own lock: the modifier flag, the table, and what goes to the
   peer.
   */
  function Flagged(s: State, e: Event): State {
    s.(modifiers := if e.key in s.modifiers then s.modifiers[e.key := e.kind.Press?] else s.modifiers)
  }

  function Tabled(s: State, e: Event): State {
    s.(toRelease := if e.kind.Press? then s.toRelease[e.key := e] else s.toRelease - {e.key})
  }

  function Sent(s: State, e: Event): State {
    s.(remote := if e.code.None? then s.remote else AfterSending(s.remote, KeyEvent(e.kind.Press?, e.code.value)))
  }

  function Processed(s: State, e: Event): State {
    if LongPress(s, e) then s else Sent(Tabled(Flagged(s, e), e), e)
  }

  /** What the sweep does for one table entry: a release, and for Alt a further press and release. */
  function Swept(s: State, e: Event): State {
    var s1 := Processed(s, e.(kind := Release));
    if e.key == Alt || e.key == AltGr
    then Processed(Processed(s1, e.(kind := Press)), e.(kind := Release))
    else s1
  }

  predicate Flag(modifiers: map<Key, bool>, k: Key) {
    k in modifiers && modifiers[k]
  }

  predicate IsExitShortcut(m: map<Key, bool>, platform: Platform, key: Key) {
    if platform.MacOS? then
      key == KeyG && (Flag(m, MetaLeft) || Flag(m, MetaRight))
    else
      || (key in {ControlLeft, ControlRight} && (Flag(m, Alt) || Flag(m, AltGr)))
      || (key in {Alt, AltGr} && (Flag(m, ControlLeft) || Flag(m, ControlRight)))
  }

  predicate IsShortcutKey(platform: Platform, key: Key) {
    if platform.MacOS? then key == KeyG else key in {ControlLeft, ControlRight, Alt, AltGr}
  }

  /** `eligible` is what the current session allows (permission, view-only, peer version). */
  predicate Blocks(s: State, platform: Platform, eligible: bool, e: Event) {
    s.hooked &&
    if IsShortcutKey(platform, e.key) && e.kind.Release? && s.exitDown then true
    else IsExitShortcut(s.modifiers, platform, e.key) && s.relative && eligible
  }

  /**
   Case by case: on macOS the chord is Command with G and G is watched; elsewhere it is Control with Alt, and all four keys
   are watched. The chord is blocked in relative mode, where the session allows it; the next release of a watched key
   after a blocked press is blocked anyway.
   */
  predicate BlockedInFull(hooked: bool, exitDown: bool, exits: bool, m: map<Key, bool>, platform: Platform, e: Event)
    requires m.Keys == MODIFIERS
  {
    hooked &&
    match platform
    case MacOS =>
      e.key == KeyG && ((e.kind.Release? && exitDown) || (exits && (m[MetaLeft] || m[MetaRight])))
    case _ =>
      match e.key
      case ControlLeft | ControlRight => (e.kind.Release? && exitDown) || (exits && (m[Alt] || m[AltGr]))
      case Alt | AltGr => (e.kind.Release? && exitDown) || (exits && (m[ControlLeft] || m[ControlRight]))
      case _ => false
  }

  lemma BlocksExactly(s: State, platform: Platform, eligible: bool, e: Event)
    requires s.modifiers.Keys == MODIFIERS
    ensures Blocks(s, platform, eligible, e)
            <==> BlockedInFull(s.hooked, s.exitDown, s.relative && eligible, s.modifiers, platform, e)
  {
  }

  function AfterBlockTest(s: State, platform: Platform, eligible: bool, e: Event): State {
    if !Blocks(s, platform, eligible, e) then s
    else if e.kind.Release? then
      if IsShortcutKey(platform, e.key) then s.(exitDown := false) else s
    else s.(exitDown := true)
  }

  /** The grab loop never looks at these keys. */
  predicate Skipped(platform: Platform, key: Key) {
    if platform.Linux? then key.Unknown? else key == CapsLock || key == NumLock
  }

  /** The event gets past the grab loop's own tests. */
  predicate Admits(s: State, platform: Platform, eligible: bool, e: Event) {
    !Skipped(platform, e.key) && !Blocks(s, platform, eligible, e) && (platform.Linux? || s.hooked)
  }

  /** One key event from the grab loop. */
  function Grabbed(s: State, platform: Platform, eligible: bool, e: Event): State {
    if Skipped(platform, e.key) then s
    else if Admits(s, platform, eligible, e) then Processed(s, e)
    else AfterBlockTest(s, platform, eligible, e)
  }

  /** Leaving relative mode clears the flag of the exit shortcut. */
  function RelativeSet(s: State, active: bool): State {
    s.(relative := active, exitDown := active && s.exitDown)
  }

  // ---------------------------------------------------------------- the invariant

  ghost predicate Coded(codeOf: Key -> Option<Code>, e: Event) {
    e.code == codeOf(e.key)
  }

  /** Every entry of the table is filed under its own key, with the code of that key. */
  ghost predicate Filed(codeOf: Key -> Option<Code>, table: map<Key, Event>) {
    forall k :: k in table ==> table[k].key == k && Coded(codeOf, table[k])
  }

  /** Everything the peer holds down, and every raised modifier flag, belongs to a key in `keys`. */
  ghost predicate CoveredBy(codeOf: Key -> Option<Code>, s: State, keys: set<Key>) {
    && s.modifiers.Keys == MODIFIERS
    && (forall c :: c in s.remote ==> exists k :: k in keys && codeOf(k) == Some(c))
    && (forall k :: k in MODIFIERS && s.modifiers[k] ==> k in keys)
  }

  ghost predicate Tracked(codeOf: Key -> Option<Code>, s: State) {
    Filed(codeOf, s.toRelease) && CoveredBy(codeOf, s, s.toRelease.Keys)
  }

  lemma ProcessedCovered(codeOf: Key -> Option<Code>, s: State, e: Event, rest: set<Key>)
    requires Coded(codeOf, e) && Filed(codeOf, s.toRelease)
    requires CoveredBy(codeOf, s, s.toRelease.Keys + rest)
    ensures var s' := Processed(s, e);
            Filed(codeOf, s'.toRelease) && CoveredBy(codeOf, s', s'.toRelease.Keys + rest)
  {
    var s' := Processed(s, e);
    var keys' := s'.toRelease.Keys + rest;
    if !LongPress(s, e) {
      forall c | c in s'.remote
        ensures exists k :: k in keys' && codeOf(k) == Some(c)
      {
        if c in s.remote {
          var k :| k in s.toRelease.Keys + rest && codeOf(k) == Some(c);
          assert k in keys';
        } else {
          assert e.key in keys';
        }
      }
    }
  }

  /** Sweeping a key takes it out of the set that still has to cover the peer. */
  lemma SweptCovered(codeOf: Key -> Option<Code>, s: State, e: Event, rest: set<Key>)
    requires Coded(codeOf, e) && Filed(codeOf, s.toRelease)
    requires CoveredBy(codeOf, s, s.toRelease.Keys + rest)
    ensures var s' := Swept(s, e);
            Filed(codeOf, s'.toRelease) && CoveredBy(codeOf, s', s'.toRelease.Keys + (rest - {e.key}))
  {
    var s1 := Processed(s, e.(kind := Release));
    ReleaseUncovers(codeOf, s, e.(kind := Release), rest);
    if e.key == Alt || e.key == AltGr {
      ProcessedCovered(codeOf, s1, e.(kind := Press), rest - {e.key});
      ProcessedCovered(codeOf, Processed(s1, e.(kind := Press)), e.(kind := Release), rest - {e.key});
    }
  }

  lemma SweptTable(s: State, e: Event)
    ensures var s' := Swept(s, e);
            && s'.toRelease.Keys == s.toRelease.Keys - {e.key}
            && s'.hooked == s.hooked && s'.exitDown == s.exitDown && s'.relative == s.relative
  {
    var s1 := Processed(s, e.(kind := Release));
    assert s1.toRelease.Keys == s.toRelease.Keys - {e.key};
  }

  lemma ReleaseUncovers(codeOf: Key -> Option<Code>, s: State, e: Event, rest: set<Key>)
    requires Coded(codeOf, e) && e.kind.Release? && Filed(codeOf, s.toRelease)
    requires CoveredBy(codeOf, s, s.toRelease.Keys + rest)
    ensures var s' := Processed(s, e);
            Filed(codeOf, s'.toRelease) && CoveredBy(codeOf, s', s'.toRelease.Keys + (rest - {e.key}))
  {
    var s' := Processed(s, e);
    var keys' := s'.toRelease.Keys + (rest - {e.key});
    forall c | c in s'.remote
      ensures exists k :: k in keys' && codeOf(k) == Some(c)
    {
      var k :| k in s.toRelease.Keys + rest && codeOf(k) == Some(c);
      assert k != e.key;
      assert k in keys';
    }
  }

  lemma SweepLeaves(codeOf: Key -> Option<Code>, s: State, rest: map<Key, Event>, key: Key)
    requires Filed(codeOf, rest) && key in rest && s.toRelease == map[]
    requires CoveredBy(codeOf, s, rest.Keys)
    ensures var s' := Swept(s, rest[key]);
            && CoveredBy(codeOf, s', (rest - {key}).Keys) && s'.toRelease == map[]
            && s'.hooked == s.hooked && s'.exitDown == s.exitDown && s'.relative == s.relative
  {
    assert s.toRelease.Keys + rest.Keys == rest.Keys;
    SweptCovered(codeOf, s, rest[key], rest.Keys);
    SweptTable(s, rest[key]);
    var s' := Swept(s, rest[key]);
    assert s'.toRelease.Keys == {};
    assert s'.toRelease.Keys + (rest.Keys - {key}) == (rest - {key}).Keys;
  }

  // ---------------------------------------------------------------- the imperative tracker

  class Keyboard {
    var toRelease: map<Key, Event>
    var modifiers: map<Key, bool>
    var hooked: bool
    var exitDown: bool
    var relative: bool
    ghost var remote: set<Code>

    ghost function View(): State
      reads this
    {
      State(toRelease, modifiers, hooked, exitDown, relative, remote)
    }

    constructor ()
      ensures View() == Initial()
    {
      toRelease := map[];
      modifiers := map k | k in MODIFIERS :: false;
      hooked, exitDown, relative, remote := false, false, false, {};
    }

    method SendKeyEvent(e: KeyEvent)
      modifies this`remote
      ensures remote == AfterSending(old(remote), e)
    {
      remote := AfterSending(remote, e);
    }

    method EventToKeyEvents(e: Event) returns (events: seq<KeyEvent>)
      modifies this`toRelease, this`modifiers
      ensures events == MapKeyboardMode(e)
      ensures modifiers == if e.key in old(modifiers) then old(modifiers)[e.key := e.kind.Press?] else old(modifiers)
      ensures toRelease == if e.kind.Press? then old(toRelease)[e.key := e] else old(toRelease) - {e.key}
    {
      if e.key in modifiers {
        modifiers := modifiers[e.key := e.kind.Press?];
      }
      match e.kind {
        case Press => toRelease := toRelease[e.key := e];
        case Release => toRelease := toRelease - {e.key};
      }
      events := MapKeyboardMode(e);
    }

    /** `sent` is what goes to the peer. */
    method ProcessEvent(e: Event) returns (sent: seq<KeyEvent>)
      modifies this
      ensures View() == Processed(old(View()), e)
      // A press of a modifier whose flag is up is a long press: nothing happens.
      ensures var long := e.kind.Press? && e.key in old(modifiers) && old(modifiers)[e.key];
              && (long ==> View() == old(View()) && sent == [])
              && (!long ==> sent == if e.code.Some? then [KeyEvent(e.kind.Press?, e.code.value)] else [])
              && (!long && e.kind.Press? ==> toRelease == old(toRelease)[e.key := e])
              && (!long && e.kind.Release? ==> toRelease == old(toRelease) - {e.key})
              && (!long && e.key in old(modifiers) ==> modifiers == old(modifiers)[e.key := e.kind.Press?])
              && (!long && e.key !in old(modifiers) ==> modifiers == old(modifiers))
              && (!long && e.code.Some? && e.kind.Press? ==> remote == old(remote) + {e.code.value})
              && (!long && e.code.Some? && e.kind.Release? ==> remote == old(remote) - {e.code.value})
              && (e.code.None? ==> remote == old(remote))
      ensures hooked == old(hooked) && exitDown == old(exitDown) && relative == old(relative)
    {
      sent := [];
      if e.kind.Press? && e.key in modifiers && modifiers[e.key] {
        return;
      }
      var events := EventToKeyEvents(e);
      for i := 0 to |events|
        invariant hooked == old(hooked) && exitDown == old(exitDown) && relative == old(relative)
        invariant modifiers == Processed(old(View()), e).modifiers
        invariant toRelease == Processed(old(View()), e).toRelease
        invariant remote == if i == 0 then old(remote) else AfterSending(old(remote), events[0])
        invariant sent == events[..i]
      {
        SendKeyEvent(events[i]);
        sent := sent + [events[i]];
      }
    }

    /** The body of the sweep: release the key; Alt gets another stroke, as the peer may hold its state. */
    method SweepEntry(e: Event) returns (sent: seq<KeyEvent>)
      modifies this
      ensures View() == Swept(old(View()), e)
      ensures e.code.None? ==> sent == []
      ensures e.code.Some? && e.key != Alt && e.key != AltGr ==> sent == [KeyEvent(false, e.code.value)]
      ensures e.code.Some? && (e.key == Alt || e.key == AltGr) ==>
                sent == [KeyEvent(false, e.code.value), KeyEvent(true, e.code.value), KeyEvent(false, e.code.value)]
    {
      sent := ProcessEvent(e.(kind := Release));
      if e.key == Alt || e.key == AltGr {
        var press := ProcessEvent(e.(kind := Press));
        var release := ProcessEvent(e.(kind := Release));
        sent := sent + press + release;
      }
    }

    /** The sweep, in whatever order the table is iterated. */
    method ReleaseRemoteKeys(ghost codeOf: Key -> Option<Code>)
      requires Tracked(codeOf, View())
      modifies this
      ensures Tracked(codeOf, View())
      ensures remote == {} && toRelease == map[]
      ensures forall k :: k in modifiers ==> !modifiers[k]
      ensures hooked == old(hooked) && exitDown == old(exitDown) && relative == old(relative)
    {
      var rest := toRelease;
      toRelease := map[];
      while rest != map[]
        invariant Filed(codeOf, rest) && toRelease == map[]
        invariant CoveredBy(codeOf, View(), rest.Keys)
        invariant hooked == old(hooked) && exitDown == old(exitDown) && relative == old(relative)
        decreases |rest|
      {
        assert rest.Keys != {};
        var key :| key in rest;
        SweepLeaves(codeOf, View(), rest, key);
        var _ := SweepEntry(rest[key]);
        rest := rest - {key};
      }
    }

    method ShouldBlockRelativeMouseShortcut(platform: Platform, eligible: bool, e: Event) returns (blocked: bool)
      requires modifiers.Keys == MODIFIERS
      modifies this`exitDown
      ensures blocked == Blocks(old(View()), platform, eligible, e)
      ensures View() == AfterBlockTest(old(View()), platform, eligible, e)
      ensures blocked <==> BlockedInFull(old(hooked), old(exitDown), relative && eligible, old(modifiers), platform, e)
      ensures exitDown == if !blocked then old(exitDown)
                          else if e.kind.Press? then true
                          else old(exitDown) && (if platform.MacOS? then e.key != KeyG
                                                 else e.key !in {ControlLeft, ControlRight, Alt, AltGr})
    {
      BlocksExactly(old(View()), platform, eligible, e);
      if !hooked {
        return false;
      }
      if IsShortcutKey(platform, e.key) && e.kind.Release? {
        var wasDown := exitDown;
        exitDown := false;
        if wasDown {
          return true;
        }
      }
      if IsExitShortcut(modifiers, platform, e.key) {
        if !(relative && eligible) {
          return false;
        }
        if e.kind.Press? {
          exitDown := true;
        }
        return true;
      }
      return false;
    }

    /** `sent` is what goes to the peer. */
    method GrabEvent(platform: Platform, eligible: bool, e: Event) returns (sent: seq<KeyEvent>)
      requires modifiers.Keys == MODIFIERS
      modifies this
      ensures View() == Grabbed(old(View()), platform, eligible, e)
      // Keys that the loop never looks at, blocked chords and, but for Linux, everything while unhooked stays here.
      ensures var stays := || (platform.Linux? && e.key.Unknown?)
                           || (!platform.Linux? && (e.key == CapsLock || e.key == NumLock || !old(hooked)))
                           || BlockedInFull(old(hooked), old(exitDown), old(relative) && eligible, old(modifiers),
                                            platform, e)
                           || (e.kind.Press? && e.key in old(modifiers) && old(modifiers)[e.key]);
              && (stays ==> sent == [] && toRelease == old(toRelease))
              && (stays ==> modifiers == old(modifiers) && remote == old(remote))
              && (!stays ==> sent == if e.code.Some? then [KeyEvent(e.kind.Press?, e.code.value)] else [])
              && (!stays ==> (e.key in toRelease <==> e.kind.Press?) && exitDown == old(exitDown))
    {
      BlocksExactly(View(), platform, eligible, e);
      sent := [];
      if platform.Linux? {
        if !e.key.Unknown? {
          var blocked := ShouldBlockRelativeMouseShortcut(platform, eligible, e);
          if !blocked {
            sent := ProcessEvent(e);
          }
        }
      } else if e.key != CapsLock && e.key != NumLock {
        var blocked := ShouldBlockRelativeMouseShortcut(platform, eligible, e);
        if !blocked && hooked {
          sent := ProcessEvent(e);
        }
      }
    }

    method SetRelativeMouseModeState(active: bool)
      modifies this`relative, this`exitDown
      ensures View() == RelativeSet(old(View()), active)
      ensures relative == active && exitDown == (active && old(exitDown))
    {
      relative := active;
      if !active {
        exitDown := false;
      }
    }

    /** Leaving the window: everything is released and the hook is off. */
    method ChangeGrabStatusWait(ghost codeOf: Key -> Option<Code>, rdevEnabled: bool)
      requires Tracked(codeOf, View())
      modifies this
      ensures Tracked(codeOf, View())
      ensures !rdevEnabled ==> View() == old(View())
      ensures rdevEnabled ==> !hooked && remote == {} && toRelease == map[]
      ensures rdevEnabled ==> forall k :: k in modifiers ==> !modifiers[k]
    {
      if !rdevEnabled {
        return;
      }
      ReleaseRemoteKeys(codeOf);
      hooked := false;
    }
  }

  // ---------------------------------------------------------------- two threads

  /**
   The sweep runs on the window thread while the grab loop keeps delivering key events. Either thread processes an
   event in three steps, each under its own lock; a hand is what is left of the event a thread is working on.
   */
  datatype Hand = Free | ToFlag(e: Event) | ToFile(e: Event) | ToSend(e: Event)

  /**
   The sweep copies the table, clears it, then takes the copied keys one at a time, with `left` events to go for
   the current one.
   */
  datatype Phase =
    | Idle
    | Snapshotted(snap: map<Key, Event>)
    | Sweeping(rest: map<Key, Event>)
    | Stroking(rest: map<Key, Event>, e: Event, left: nat)

  datatype Thread = Grabber | Sweeper

  datatype System = System(s: State, grab: Hand, sweep: Hand, phase: Phase)

  function Start(): System {
    System(Initial(), Free, Free, Idle)
  }

  datatype Step =
    | KeyArrives(eligible: bool, e: Event)
    | Work(t: Thread)
    | SetRelative(active: bool)
    | GrabRun
    | TakeSnapshot
    | ClearTable
    | SweepKey(key: Key)
    | SweepEvent
    | SweepDone

  function HandOf(sys: System, t: Thread): Hand {
    if t.Grabber? then sys.grab else sys.sweep
  }

  predicate Enabled(sys: System, step: Step) {
    match step
    case KeyArrives(_, _) => sys.grab.Free?
    case Work(t) => !HandOf(sys, t).Free?
    case TakeSnapshot => sys.phase.Idle?
    case ClearTable => sys.phase.Snapshotted?
    case SweepKey(key) => sys.phase.Sweeping? && key in sys.phase.rest && sys.sweep.Free?
    case SweepEvent => sys.phase.Stroking? && sys.sweep.Free?
    case SweepDone => sys.phase.Sweeping? && sys.phase.rest == map[] && sys.sweep.Free?
    case _ => true
  }

  /** A release; for Alt a further press and release. */
  function Strokes(e: Event): nat {
    if e.key == Alt || e.key == AltGr then 3 else 1
  }

  /** A long press is ignored; any other event goes through the three steps. */
  function Taken(s: State, e: Event): Hand {
    if LongPress(s, e) then Free else ToFlag(e)
  }

  function Worked(s: State, h: Hand): (State, Hand) {
    match h
    case Free => (s, Free)
    case ToFlag(e) => (Flagged(s, e), ToFile(e))
    case ToFile(e) => (Tabled(s, e), ToSend(e))
    case ToSend(e) => (Sent(s, e), Free)
  }

  function Next(platform: Platform, sys: System, step: Step): System
    requires Enabled(sys, step)
  {
    match step
    case KeyArrives(eligible, e) =>
      if Skipped(platform, e.key) then sys
      else if Admits(sys.s, platform, eligible, e) then sys.(grab := Taken(sys.s, e))
      else sys.(s := AfterBlockTest(sys.s, platform, eligible, e))
    case Work(Grabber) => var (s, h) := Worked(sys.s, sys.grab); sys.(s := s, grab := h)
    case Work(Sweeper) => var (s, h) := Worked(sys.s, sys.sweep); sys.(s := s, sweep := h)
    case SetRelative(active) => sys.(s := RelativeSet(sys.s, active))
    case GrabRun => sys.(s := sys.s.(hooked := true))
    case TakeSnapshot => sys.(phase := Snapshotted(sys.s.toRelease))
    case ClearTable => sys.(s := sys.s.(toRelease := map[]), phase := Sweeping(sys.phase.snap))
    case SweepKey(key) =>
      sys.(phase := Stroking(sys.phase.rest - {key}, sys.phase.rest[key], Strokes(sys.phase.rest[key])))
    case SweepEvent =>
      var e := sys.phase.e.(kind := if sys.phase.left == 2 then Press else Release);
      sys.(sweep := Taken(sys.s, e),
           phase := if sys.phase.left <= 1 then Sweeping(sys.phase.rest) else sys.phase.(left := sys.phase.left - 1))
    case SweepDone => sys.(s := sys.s.(hooked := false), phase := Idle)
  }

  ghost predicate Reaches(platform: Platform, sys: System, steps: seq<Step>, sys': System)
    decreases |steps|
  {
    if steps == [] then sys' == sys
    else Enabled(sys, steps[0]) && Reaches(platform, Next(platform, sys, steps[0]), steps[1..], sys')
  }

  // ---------------------------------------------------------------- each thread on its own

  function StepsLeft(h: Hand): nat {
    match h
    case Free => 0
    case ToFlag(_) => 3
    case ToFile(_) => 2
    case ToSend(_) => 1
  }

  /** The thread works until its hand is free, with nobody in between. */
  function WorkedOff(platform: Platform, sys: System, t: Thread): (r: System)
    ensures HandOf(r, t).Free? && r.phase == sys.phase
    decreases StepsLeft(HandOf(sys, t))
  {
    if HandOf(sys, t).Free? then sys else WorkedOff(platform, Next(platform, sys, Work(t)), t)
  }

  lemma {:induction false} TakenAndWorkedOff(platform: Platform, sys: System, e: Event)
    ensures sys.grab.Free? ==>
              WorkedOff(platform, sys.(grab := Taken(sys.s, e)), Grabber) == sys.(s := Processed(sys.s, e))
    ensures sys.sweep.Free? ==>
              WorkedOff(platform, sys.(sweep := Taken(sys.s, e)), Sweeper) == sys.(s := Processed(sys.s, e))
  {
    if !LongPress(sys.s, e) {
      WorkedInThree(platform, sys.(grab := ToFlag(e)), Grabber);
      WorkedInThree(platform, sys.(sweep := ToFlag(e)), Sweeper);
    }
  }

  lemma {:induction false} WorkedInThree(platform: Platform, sys: System, t: Thread)
    requires HandOf(sys, t).ToFlag?
    ensures var s := Sent(Tabled(Flagged(sys.s, HandOf(sys, t).e), HandOf(sys, t).e), HandOf(sys, t).e);
            WorkedOff(platform, sys, t) == if t.Grabber? then sys.(s := s, grab := Free) else sys.(s := s, sweep := Free)
  {
    var filed := Next(platform, sys, Work(t));
    var sent := Next(platform, filed, Work(t));
    var done := Next(platform, sent, Work(t));
    assert WorkedOff(platform, sent, t) == WorkedOff(platform, done, t) == done;
    assert WorkedOff(platform, filed, t) == WorkedOff(platform, sent, t);
  }

  /** Without the sweep in between, a key event does what the undisturbed grab loop does. */
  lemma {:induction false} EventAlone(platform: Platform, sys: System, eligible: bool, e: Event)
    requires sys.grab.Free?
    ensures WorkedOff(platform, Next(platform, sys, KeyArrives(eligible, e)), Grabber)
            == sys.(s := Grabbed(sys.s, platform, eligible, e))
  {
    TakenAndWorkedOff(platform, sys, e);
  }

  /** The sweep goes through the strokes of the current key. */
  function StrokedOff(platform: Platform, sys: System): (r: System)
    requires sys.phase.Stroking? && sys.sweep.Free?
    ensures r.phase == Sweeping(sys.phase.rest) && r.sweep.Free?
    decreases sys.phase.left
  {
    var after := WorkedOff(platform, Next(platform, sys, SweepEvent), Sweeper);
    if after.phase.Stroking? then StrokedOff(platform, after) else after
  }

  lemma {:induction false} StrokeAlone(platform: Platform, sys: System)
    requires sys.phase.Stroking? && sys.sweep.Free?
    ensures var e := sys.phase.e.(kind := if sys.phase.left == 2 then Press else Release);
            var s := Processed(sys.s, e);
            StrokedOff(platform, sys)
            == if sys.phase.left <= 1 then sys.(s := s, phase := Sweeping(sys.phase.rest))
               else StrokedOff(platform, sys.(s := s, phase := sys.phase.(left := sys.phase.left - 1)))
  {
    var e := sys.phase.e.(kind := if sys.phase.left == 2 then Press else Release);
    var mid := Next(platform, sys, SweepEvent).(sweep := Free);
    TakenAndWorkedOff(platform, mid, e);
    assert Next(platform, sys, SweepEvent) == mid.(sweep := Taken(mid.s, e));
  }

  /** Without the grab loop in between, a key is swept as by the undisturbed sweep. */
  lemma {:induction false} KeyAlone(platform: Platform, sys: System, key: Key)
    requires sys.phase.Sweeping? && key in sys.phase.rest && sys.sweep.Free?
    ensures StrokedOff(platform, Next(platform, sys, SweepKey(key)))
            == sys.(s := Swept(sys.s, sys.phase.rest[key]), phase := Sweeping(sys.phase.rest - {key}))
  {
    var e, rest := sys.phase.rest[key], sys.phase.rest - {key};
    var sys1 := Next(platform, sys, SweepKey(key));
    StrokeAlone(platform, sys1);
    if e.key == Alt || e.key == AltGr {
      var s2 := Processed(sys.s, e.(kind := Release));
      StrokeAlone(platform, sys.(s := s2, phase := Stroking(rest, e, 2)));
      StrokeAlone(platform, sys.(s := Processed(s2, e.(kind := Press)), phase := Stroking(rest, e, 1)));
    }
  }

  /** The sweep runs to its end, taking the copied keys in some order, with nobody in between. */
  ghost predicate SweepsAlone(platform: Platform, sys: System, sys': System)
    requires sys.phase.Sweeping? && sys.sweep.Free?
    decreases |sys.phase.rest|, 1
  {
    if sys.phase.rest == map[] then sys' == Next(platform, sys, SweepDone)
    else exists key :: key in sys.phase.rest && SweepsOn(platform, sys, key, sys')
  }

  ghost predicate SweepsOn(platform: Platform, sys: System, key: Key, sys': System)
    requires sys.phase.Sweeping? && sys.sweep.Free? && key in sys.phase.rest
    decreases |sys.phase.rest|, 0
  {
    var left := sys.phase.rest - {key};
    assert left.Keys == sys.phase.rest.Keys - {key};
    assert |left.Keys| == |left| && |sys.phase.rest.Keys| == |sys.phase.rest|;
    SweepsAlone(platform, StrokedOff(platform, Next(platform, sys, SweepKey(key))), sys')
  }

  lemma {:induction false} RestAlone(codeOf: Key -> Option<Code>, platform: Platform, sys: System, sys': System)
    requires sys.phase.Sweeping? && sys.sweep.Free? && SweepsAlone(platform, sys, sys')
    requires Filed(codeOf, sys.phase.rest) && sys.s.toRelease == map[]
    requires CoveredBy(codeOf, sys.s, sys.phase.rest.Keys)
    ensures sys' == sys.(s := sys.s.(modifiers := map k | k in MODIFIERS :: false, hooked := false, remote := {}),
                         phase := Idle)
    decreases |sys.phase.rest|
  {
    var rest := sys.phase.rest;
    if rest == map[] {
      assert sys'.s.remote == {};
      assert sys'.s.modifiers == map k | k in MODIFIERS :: false;
    } else {
      var key :| key in rest && SweepsOn(platform, sys, key, sys');
      KeyAlone(platform, sys, key);
      SweepLeaves(codeOf, sys.s, rest, key);
      assert |(rest - {key}).Keys| == |rest - {key}| && |rest.Keys| == |rest|;
      assert (rest - {key}).Keys == rest.Keys - {key};
      RestAlone(codeOf, platform, sys.(s := Swept(sys.s, rest[key]), phase := Sweeping(rest - {key})), sys');
    }
  }

  /** A whole sweep with nobody in between, in any order of the keys: everything is released and the hook is off. */
  lemma {:induction false} SweepAlone(codeOf: Key -> Option<Code>, platform: Platform, sys: System, sys': System)
    requires Tracked(codeOf, sys.s) && sys.phase.Idle? && sys.sweep.Free?
    requires SweepsAlone(platform, Next(platform, Next(platform, sys, TakeSnapshot), ClearTable), sys')
    ensures sys' == sys.(s := State(map[], map k | k in MODIFIERS :: false, false, sys.s.exitDown, sys.s.relative, {}))
  {
    RestAlone(codeOf, platform, Next(platform, Next(platform, sys, TakeSnapshot), ClearTable), sys');
  }

  // ---------------------------------------------------------------- what is accounted for

  /** The keys that a sweep in progress has copied and has yet to release. */
  function Pending(phase: Phase): set<Key> {
    match phase
    case Idle | Snapshotted(_) => {}
    case Sweeping(rest) => rest.Keys
    case Stroking(rest, e, _) => rest.Keys + {e.key}
  }

  /** The key that a hand will still file, or still release on the peer. */
  function Handled(h: Hand): set<Key> {
    match h
    case Free => {}
    case ToFlag(e) => {e.key}
    case ToFile(e) => {e.key}
    case ToSend(e) => if e.kind.Press? then {} else {e.key}
  }

  /** The key whose flag a hand will still lower, or that it will still file. */
  function FlagHandled(h: Hand): set<Key> {
    match h
    case ToFlag(e) => {e.key}
    case ToFile(e) => if e.kind.Press? then {e.key} else {}
    case _ => {}
  }

  function Accounted(sys: System): set<Key> {
    sys.s.toRelease.Keys + Pending(sys.phase) + Handled(sys.grab) + Handled(sys.sweep)
  }

  function FlagAccounted(sys: System): set<Key> {
    sys.s.toRelease.Keys + Pending(sys.phase) + FlagHandled(sys.grab) + FlagHandled(sys.sweep)
  }

  ghost predicate HasCode(codeOf: Key -> Option<Code>, keys: set<Key>, c: Code) {
    exists k :: k in keys && codeOf(k) == Some(c)
  }

  /** Whatever the peer holds, and every raised flag, belongs to a key of the table, of the sweep or of a hand. */
  ghost predicate Covered(codeOf: Key -> Option<Code>, sys: System) {
    && (forall c :: c in sys.s.remote ==> HasCode(codeOf, Accounted(sys), c))
    && (forall k :: Flag(sys.s.modifiers, k) ==> k in FlagAccounted(sys))
  }

  ghost predicate HandCoded(codeOf: Key -> Option<Code>, h: Hand) {
    h.Free? || Coded(codeOf, h.e)
  }

  /** Everywhere, an event carries the code of its key and a table files it under its key. */
  ghost predicate AllCoded(codeOf: Key -> Option<Code>, sys: System) {
    && Filed(codeOf, sys.s.toRelease) && HandCoded(codeOf, sys.grab) && HandCoded(codeOf, sys.sweep)
    && match sys.phase
       case Idle => true
       case Snapshotted(snap) => Filed(codeOf, snap)
       case Sweeping(rest) => Filed(codeOf, rest)
       case Stroking(rest, e, _) => Filed(codeOf, rest) && Coded(codeOf, e)
  }

  ghost predicate StepCoded(codeOf: Key -> Option<Code>, step: Step) {
    step.KeyArrives? ==> Coded(codeOf, step.e)
  }

  lemma WorkKeepsCoded(codeOf: Key -> Option<Code>, s: State, h: Hand)
    requires Filed(codeOf, s.toRelease) && HandCoded(codeOf, h)
    ensures var (s', h') := Worked(s, h); Filed(codeOf, s'.toRelease) && HandCoded(codeOf, h')
  {
  }

  lemma NextKeepsCoded(codeOf: Key -> Option<Code>, platform: Platform, sys: System, step: Step)
    requires AllCoded(codeOf, sys) && Enabled(sys, step) && StepCoded(codeOf, step)
    ensures AllCoded(codeOf, Next(platform, sys, step))
  {
    match step
    case Work(t) => WorkKeepsCoded(codeOf, sys.s, HandOf(sys, t));
    case _ =>
  }

  // ---------------------------------------------------------------- exactly which steps lose a key

  /** The copy, or a hand, has every key whose code the peer holds and every raised flag. */
  ghost predicate ClearIsSafe(codeOf: Key -> Option<Code>, sys: System)
    requires sys.phase.Snapshotted?
  {
    forall k :: k in sys.s.toRelease && k !in sys.phase.snap ==>
      && (codeOf(k).Some? && codeOf(k).value in sys.s.remote ==>
            HasCode(codeOf, sys.phase.snap.Keys + Handled(sys.grab) + Handled(sys.sweep), codeOf(k).value))
      && (Flag(sys.s.modifiers, k) ==> k in FlagHandled(sys.grab) + FlagHandled(sys.sweep))
  }

  /**
   Three steps can lose a key: clearing the table, sending a press whose key is no longer tracked, and taking a key out
   of the table after its flag was raised again.
   */
  ghost predicate Safe(codeOf: Key -> Option<Code>, sys: System, step: Step)
    requires Enabled(sys, step)
  {
    match step
    case ClearTable => ClearIsSafe(codeOf, sys)
    case Work(t) =>
      (match HandOf(sys, t)
       case ToSend(e) => e.kind.Press? && e.code.Some? ==> HasCode(codeOf, Accounted(sys), e.code.value)
       case ToFile(e) =>
         e.kind.Release? && Flag(sys.s.modifiers, e.key) ==>
           e.key in Pending(sys.phase) + FlagHandled(sys.grab) + FlagHandled(sys.sweep)
       case _ => true)
    case _ => true
  }

  lemma HasMoreCodes(codeOf: Key -> Option<Code>, keys: set<Key>, more: set<Key>, c: Code)
    requires HasCode(codeOf, keys, c) && forall k :: k in keys && codeOf(k) == Some(c) ==> k in more
    ensures HasCode(codeOf, more, c)
  {
    var k :| k in keys && codeOf(k) == Some(c);
    assert k in more;
  }

  lemma ClearCoversExactly(codeOf: Key -> Option<Code>, platform: Platform, sys: System)
    requires Covered(codeOf, sys) && sys.phase.Snapshotted?
    ensures Covered(codeOf, Next(platform, sys, ClearTable)) <==> ClearIsSafe(codeOf, sys)
  {
    var sys' := Next(platform, sys, ClearTable);
    assert Accounted(sys') == sys.phase.snap.Keys + Handled(sys.grab) + Handled(sys.sweep);
    if ClearIsSafe(codeOf, sys) {
      forall c | c in sys.s.remote
        ensures HasCode(codeOf, Accounted(sys'), c)
      {
        var k :| k in Accounted(sys) && codeOf(k) == Some(c);
        assert k in Accounted(sys') || (k in sys.s.toRelease && k !in sys.phase.snap);
      }
    }
  }

  lemma FlagStepCovers(codeOf: Key -> Option<Code>, platform: Platform, sys: System, t: Thread)
    requires Covered(codeOf, sys) && HandOf(sys, t).ToFlag?
    ensures Covered(codeOf, Next(platform, sys, Work(t)))
  {
    var sys' := Next(platform, sys, Work(t));
    var e := HandOf(sys, t).e;
    assert Accounted(sys') == Accounted(sys);
    forall k | Flag(sys'.s.modifiers, k)
      ensures k in FlagAccounted(sys')
    {
      if k == e.key {
        assert e.kind.Press? && HandOf(sys', t) == ToFile(e);
      } else {
        assert Flag(sys.s.modifiers, k);
      }
    }
  }

  lemma FileStepCoversExactly(codeOf: Key -> Option<Code>, platform: Platform, sys: System, t: Thread)
    requires Covered(codeOf, sys) && HandOf(sys, t).ToFile?
    ensures Covered(codeOf, Next(platform, sys, Work(t))) <==> Safe(codeOf, sys, Work(t))
  {
    var sys' := Next(platform, sys, Work(t));
    assert Accounted(sys') == Accounted(sys);
    var e := HandOf(sys, t).e;
    assert FlagAccounted(sys') == if e.kind.Press? then FlagAccounted(sys) else
      (sys.s.toRelease.Keys - {e.key}) + Pending(sys.phase) + FlagHandled(sys.grab) + FlagHandled(sys.sweep);
  }

  lemma SendStepCoversExactly(codeOf: Key -> Option<Code>, platform: Platform, sys: System, t: Thread)
    requires AllCoded(codeOf, sys) && Covered(codeOf, sys) && HandOf(sys, t).ToSend?
    ensures Covered(codeOf, Next(platform, sys, Work(t))) <==> Safe(codeOf, sys, Work(t))
  {
    var sys' := Next(platform, sys, Work(t));
    var e := HandOf(sys, t).e;
    assert Coded(codeOf, e);
    assert FlagAccounted(sys') == FlagAccounted(sys);
    if e.kind.Press? {
      assert Accounted(sys') == Accounted(sys);
    } else {
      forall c | c in sys'.s.remote
        ensures HasCode(codeOf, Accounted(sys'), c)
      {
        HasMoreCodes(codeOf, Accounted(sys), Accounted(sys'), c);
      }
    }
  }

  lemma SweepStepCovers(codeOf: Key -> Option<Code>, platform: Platform, sys: System, step: Step)
    requires AllCoded(codeOf, sys) && Covered(codeOf, sys) && Enabled(sys, step)
    requires step.SweepKey? || step.SweepEvent? || step.SweepDone?
    ensures Covered(codeOf, Next(platform, sys, step))
  {
    var sys' := Next(platform, sys, step);
    assert Accounted(sys) <= Accounted(sys') && FlagAccounted(sys) <= FlagAccounted(sys');
    forall c | c in sys'.s.remote
      ensures HasCode(codeOf, Accounted(sys'), c)
    {
      HasMoreCodes(codeOf, Accounted(sys), Accounted(sys'), c);
    }
  }

  lemma ArrivalCovers(codeOf: Key -> Option<Code>, platform: Platform, sys: System, step: Step)
    requires Covered(codeOf, sys) && Enabled(sys, step)
    requires step.KeyArrives? || step.SetRelative? || step.GrabRun? || step.TakeSnapshot?
    ensures Covered(codeOf, Next(platform, sys, step))
  {
    var sys' := Next(platform, sys, step);
    assert sys'.s.remote == sys.s.remote && sys'.s.modifiers == sys.s.modifiers;
    assert Accounted(sys) <= Accounted(sys') && FlagAccounted(sys) <= FlagAccounted(sys');
    forall c | c in sys'.s.remote
      ensures HasCode(codeOf, Accounted(sys'), c)
    {
      HasMoreCodes(codeOf, Accounted(sys), Accounted(sys'), c);
    }
  }

  /** Whatever the two threads do, a step keeps everything accounted for exactly when it is safe. */
  lemma NextCoversExactly(codeOf: Key -> Option<Code>, platform: Platform, sys: System, step: Step)
    requires AllCoded(codeOf, sys) && Covered(codeOf, sys) && Enabled(sys, step)
    ensures Covered(codeOf, Next(platform, sys, step)) <==> Safe(codeOf, sys, step)
  {
    match step
    case ClearTable => ClearCoversExactly(codeOf, platform, sys);
    case Work(t) =>
      match HandOf(sys, t) {
        case ToFlag(_) => FlagStepCovers(codeOf, platform, sys, t);
        case ToFile(_) => FileStepCoversExactly(codeOf, platform, sys, t);
        case _ => SendStepCoversExactly(codeOf, platform, sys, t);
      }
    case SweepKey(_) | SweepEvent | SweepDone => SweepStepCovers(codeOf, platform, sys, step);
    case _ => ArrivalCovers(codeOf, platform, sys, step);
  }

  /** The steps can be taken one after another, and every event carries the code of its key. */
  ghost predicate Legal(codeOf: Key -> Option<Code>, platform: Platform, sys: System, steps: seq<Step>)
    decreases |steps|
  {
    steps == [] ||
    (Enabled(sys, steps[0]) && StepCoded(codeOf, steps[0])
     && Legal(codeOf, platform, Next(platform, sys, steps[0]), steps[1..]))
  }

  ghost predicate SafeRun(codeOf: Key -> Option<Code>, platform: Platform, sys: System, steps: seq<Step>)
    decreases |steps|
  {
    steps == [] ||
    (Enabled(sys, steps[0]) && Safe(codeOf, sys, steps[0])
     && SafeRun(codeOf, platform, Next(platform, sys, steps[0]), steps[1..]))
  }

  ghost predicate CoveredThroughout(codeOf: Key -> Option<Code>, platform: Platform, sys: System, steps: seq<Step>)
    decreases |steps|
  {
    && Covered(codeOf, sys)
    && (steps == [] ||
        (Enabled(sys, steps[0]) && CoveredThroughout(codeOf, platform, Next(platform, sys, steps[0]), steps[1..])))
  }

  /** Whole runs of the two threads keep everything accounted for at every point exactly when every step is safe. */
  lemma {:induction false} RunCoversExactly(codeOf: Key -> Option<Code>, platform: Platform, sys: System,
          steps: seq<Step>)
    requires AllCoded(codeOf, sys) && Covered(codeOf, sys) && Legal(codeOf, platform, sys, steps)
    ensures CoveredThroughout(codeOf, platform, sys, steps) <==> SafeRun(codeOf, platform, sys, steps)
    decreases |steps|
  {
    if steps != [] {
      var next := Next(platform, sys, steps[0]);
      NextKeepsCoded(codeOf, platform, sys, steps[0]);
      NextCoversExactly(codeOf, platform, sys, steps[0]);
      if Covered(codeOf, next) {
        RunCoversExactly(codeOf, platform, next, steps[1..]);
      } else {
        assert !CoveredThroughout(codeOf, platform, next, steps[1..]);
      }
    }
  }

  lemma {:induction false} SafeRunCovers(codeOf: Key -> Option<Code>, platform: Platform, sys: System,
          steps: seq<Step>, sys': System)
    requires AllCoded(codeOf, sys) && Covered(codeOf, sys) && Legal(codeOf, platform, sys, steps)
    requires Reaches(platform, sys, steps, sys') && SafeRun(codeOf, platform, sys, steps)
    ensures AllCoded(codeOf, sys') && Covered(codeOf, sys')
    decreases |steps|
  {
    if steps != [] {
      NextKeepsCoded(codeOf, platform, sys, steps[0]);
      NextCoversExactly(codeOf, platform, sys, steps[0]);
      SafeRunCovers(codeOf, platform, Next(platform, sys, steps[0]), steps[1..], sys');
    }
  }

  // ---------------------------------------------------------------- threads that keep apart

  /** No two threads work on the same key at a time, and the table is cleared only of what was copied. */
  ghost predicate Apart(sys: System, step: Step) {
    match step
    case KeyArrives(_, e) =>
      (sys.sweep.Free? || sys.sweep.e.key != e.key) && (sys.phase.Stroking? ==> sys.phase.e.key != e.key)
    case SweepKey(key) => sys.grab.Free? || sys.grab.e.key != key
    case ClearTable => sys.phase.Snapshotted? ==> sys.s.toRelease.Keys <= sys.phase.snap.Keys
    case _ => true
  }

  /** A hand about to unfile a key has lowered its flag; a hand about to send a press has its key tracked. */
  ghost predicate HandSteady(sys: System, h: Hand) {
    match h
    case ToFile(e) => e.kind.Release? ==> !Flag(sys.s.modifiers, e.key)
    case ToSend(e) => e.kind.Press? ==> e.key in sys.s.toRelease.Keys + Pending(sys.phase)
    case _ => true
  }

  ghost predicate Steady(sys: System) {
    && HandSteady(sys, sys.grab) && HandSteady(sys, sys.sweep)
    && (!sys.grab.Free? && !sys.sweep.Free? ==> sys.grab.e.key != sys.sweep.e.key)
    && (!sys.grab.Free? && sys.phase.Stroking? ==> sys.grab.e.key != sys.phase.e.key)
    && (sys.phase.Idle? || sys.phase.Snapshotted? ==> sys.sweep.Free?)
  }

  lemma SteadyIsSafe(codeOf: Key -> Option<Code>, sys: System, step: Step)
    requires AllCoded(codeOf, sys) && Steady(sys) && Enabled(sys, step) && Apart(sys, step)
    ensures Safe(codeOf, sys, step)
  {
    if step.Work? && HandOf(sys, step.t).ToSend? {
      var e := HandOf(sys, step.t).e;
      assert Coded(codeOf, e) && HandSteady(sys, HandOf(sys, step.t));
      if e.kind.Press? && e.code.Some? {
        assert e.key in Accounted(sys) && codeOf(e.key) == Some(e.code.value);
      }
    }
  }

  lemma WorkKeepsSteady(platform: Platform, sys: System, t: Thread)
    requires Steady(sys) && !HandOf(sys, t).Free?
    ensures Steady(Next(platform, sys, Work(t)))
  {
  }

  lemma NextKeepsSteady(codeOf: Key -> Option<Code>, platform: Platform, sys: System, step: Step)
    requires AllCoded(codeOf, sys) && Steady(sys) && Enabled(sys, step) && Apart(sys, step)
    ensures Steady(Next(platform, sys, step))
  {
    match step
    case Work(t) => WorkKeepsSteady(platform, sys, t);
    case _ =>
  }

  ghost predicate ApartRun(platform: Platform, sys: System, steps: seq<Step>)
    decreases |steps|
  {
    steps == [] ||
    (Enabled(sys, steps[0]) && Apart(sys, steps[0]) && ApartRun(platform, Next(platform, sys, steps[0]), steps[1..]))
  }

  lemma {:induction false} ApartRunIsSafe(codeOf: Key -> Option<Code>, platform: Platform, sys: System,
          steps: seq<Step>)
    requires AllCoded(codeOf, sys) && Steady(sys) && Legal(codeOf, platform, sys, steps) && ApartRun(platform, sys, steps)
    ensures SafeRun(codeOf, platform, sys, steps)
    decreases |steps|
  {
    if steps != [] {
      SteadyIsSafe(codeOf, sys, steps[0]);
      NextKeepsCoded(codeOf, platform, sys, steps[0]);
      NextKeepsSteady(codeOf, platform, sys, steps[0]);
      ApartRunIsSafe(codeOf, platform, Next(platform, sys, steps[0]), steps[1..]);
    }
  }

  /**
   In every run from the start in which the threads keep apart, whatever the peer holds and every raised flag is
   accounted for, and belongs to the table when both threads are at rest.
   */
  lemma RunKeepsTracked(codeOf: Key -> Option<Code>, platform: Platform, steps: seq<Step>, sys: System)
    requires Legal(codeOf, platform, Start(), steps) && ApartRun(platform, Start(), steps)
    requires Reaches(platform, Start(), steps, sys)
    ensures Covered(codeOf, sys)
    ensures sys.phase.Idle? && sys.grab.Free? && sys.sweep.Free? ==>
              && (forall c :: c in sys.s.remote ==> HasCode(codeOf, sys.s.toRelease.Keys, c))
              && (forall k :: Flag(sys.s.modifiers, k) ==> k in sys.s.toRelease)
  {
    ApartRunIsSafe(codeOf, platform, Start(), steps);
    SafeRunCovers(codeOf, platform, Start(), steps, sys);
    if sys.phase.Idle? && sys.grab.Free? && sys.sweep.Free? {
      assert Accounted(sys) == sys.s.toRelease.Keys;
    }
  }

  // ---------------------------------------------------------------- the end of a sweep

  /** The keys that go down in a run. */
  function Presses(steps: seq<Step>): set<Key> {
    set i | 0 <= i < |steps| && steps[i].KeyArrives? && steps[i].e.kind.Press? :: steps[i].e.key
  }

  /** The sweep itself will take the key out of the table again. */
  ghost predicate SweepOwes(sys: System, k: Key) {
    || (sys.phase.Stroking? && sys.phase.e.key == k)
    || ((sys.sweep.ToFlag? || sys.sweep.ToFile?) && sys.sweep.e.kind.Release? && sys.sweep.e.key == k)
  }

  /** Apart from `keys`, the table holds only what the sweep filed and will take out again. */
  ghost predicate TableFrom(keys: set<Key>, sys: System) {
    && (forall k :: k in sys.s.toRelease ==> k in keys || SweepOwes(sys, k))
    && (!sys.grab.Free? && sys.grab.e.kind.Press? ==> sys.grab.e.key in keys)
    && ((sys.sweep.ToFlag? || sys.sweep.ToFile?) && sys.sweep.e.kind.Press? ==>
          sys.phase.Stroking? && sys.phase.e.key == sys.sweep.e.key)
    && (sys.phase.Idle? || sys.phase.Snapshotted? ==> sys.sweep.Free?)
  }

  lemma NextKeepsTableFrom(keys: set<Key>, platform: Platform, sys: System, step: Step)
    requires TableFrom(keys, sys) && Enabled(sys, step)
    requires step.KeyArrives? && step.e.kind.Press? ==> step.e.key in keys
    ensures TableFrom(keys, Next(platform, sys, step))
  {
  }

  lemma {:induction false} RunKeepsTableFrom(keys: set<Key>, platform: Platform, sys: System, steps: seq<Step>,
          sys': System)
    requires TableFrom(keys, sys) && Reaches(platform, sys, steps, sys') && Presses(steps) <= keys
    ensures TableFrom(keys, sys')
    decreases |steps|
  {
    if steps != [] {
      assert steps[0].KeyArrives? && steps[0].e.kind.Press? ==> steps[0].e.key in Presses(steps);
      NextKeepsTableFrom(keys, platform, sys, steps[0]);
      forall k | k in Presses(steps[1..])
        ensures k in Presses(steps)
      {
        var i :| 0 <= i < |steps[1..]| && steps[1..][i].KeyArrives?
                 && steps[1..][i].e.kind.Press? && steps[1..][i].e.key == k;
        assert steps[i + 1] == steps[1..][i];
      }
      RunKeepsTableFrom(keys, platform, Next(platform, sys, steps[0]), steps[1..], sys');
    }
  }

  /**
   Once a sweep is over, the peer holds only keys that went down after the table was cleared, or were just going
   down.
   */
  lemma SweepUnderTraffic(codeOf: Key -> Option<Code>, platform: Platform, sys: System, steps: seq<Step>,
          sys': System, c: Code)
    requires AllCoded(codeOf, sys) && Covered(codeOf, sys)
    requires sys.phase.Sweeping? && sys.s.toRelease == map[] && sys.sweep.Free?
    requires Legal(codeOf, platform, sys, steps) && SafeRun(codeOf, platform, sys, steps)
    requires Reaches(platform, sys, steps, sys') && sys'.phase.Idle? && sys'.grab.Free?
    requires c in sys'.s.remote
    ensures HasCode(codeOf, Presses(steps) + (if sys.grab.Free? then {} else {sys.grab.e.key}), c)
  {
    var keys := Presses(steps) + (if sys.grab.Free? then {} else {sys.grab.e.key});
    SafeRunCovers(codeOf, platform, sys, steps, sys');
    RunKeepsTableFrom(keys, platform, sys, steps, sys');
    HasMoreCodes(codeOf, Accounted(sys'), keys, c);
  }

  // ---------------------------------------------------------------- runs that lose a key

  /** One more step at the end of a run. */
  lemma {:induction false} Extend(platform: Platform, sys: System, steps: seq<Step>, mid: System, step: Step)
    returns (steps': seq<Step>, sys': System)
    requires Reaches(platform, sys, steps, mid) && Enabled(mid, step)
    ensures sys' == Next(platform, mid, step) && Reaches(platform, sys, steps', sys')
    decreases |steps|
  {
    sys' := Next(platform, mid, step);
    if steps == [] {
      steps' := [step];
      assert Reaches(platform, sys', [], sys');
    } else {
      var rest, end := Extend(platform, Next(platform, sys, steps[0]), steps[1..], mid, step);
      steps' := [steps[0]] + rest;
    }
  }

  /** The keyboard is grabbed, and the user presses a key: up to where the press is filed. */
  lemma PressFiled(platform: Platform, steps: seq<Step>, sys: System, c: Code) returns (steps': seq<Step>, sys': System)
    requires Reaches(platform, Start(), steps, sys) && sys.s == HookedStart() && sys.grab.Free?
    ensures Reaches(platform, Start(), steps', sys')
    ensures sys' == System(HookedStart().(toRelease := map[KeyG := Event(Press, KeyG, Some(c))]),
                           ToSend(Event(Press, KeyG, Some(c))), sys.sweep, sys.phase)
  {
    steps', sys' := Extend(platform, Start(), steps, sys, KeyArrives(true, Event(Press, KeyG, Some(c))));
    steps', sys' := Extend(platform, Start(), steps', sys', Work(Grabber));
    steps', sys' := Extend(platform, Start(), steps', sys', Work(Grabber));
  }

  /**
   The table is copied under one lock and cleared under another: a key filed in between is held and tracked by
   nobody.
   */
  lemma PressBetweenTheLocksIsLost(platform: Platform, c: Code) returns (steps: seq<Step>, sys: System)
    ensures Reaches(platform, Start(), steps, sys)
    ensures sys.phase.Idle? && sys.grab.Free? && sys.s.remote == {c} && sys.s.toRelease == map[]
  {
    assert Reaches(platform, Start(), [], Start());
    steps, sys := Extend(platform, Start(), [], Start(), GrabRun);
    steps, sys := Extend(platform, Start(), steps, sys, TakeSnapshot);
    steps, sys := PressFiled(platform, steps, sys, c);
    steps, sys := Extend(platform, Start(), steps, sys, Work(Grabber));
    steps, sys := Extend(platform, Start(), steps, sys, ClearTable);
    steps, sys := Extend(platform, Start(), steps, sys, SweepDone);
  }

  /** A press is filed, and a sweep copies and clears the table. */
  lemma FiledAndCleared(platform: Platform, c: Code) returns (steps: seq<Step>, sys: System)
    ensures Reaches(platform, Start(), steps, sys)
    ensures sys == System(HookedStart(), ToSend(Event(Press, KeyG, Some(c))), Free,
                          Sweeping(map[KeyG := Event(Press, KeyG, Some(c))]))
  {
    assert Reaches(platform, Start(), [], Start());
    steps, sys := Extend(platform, Start(), [], Start(), GrabRun);
    steps, sys := PressFiled(platform, steps, sys, c);
    steps, sys := Extend(platform, Start(), steps, sys, TakeSnapshot);
    steps, sys := Extend(platform, Start(), steps, sys, ClearTable);
  }

  /** The sweep releases the copied key. */
  lemma ReleasedUnsent(platform: Platform, c: Code) returns (steps: seq<Step>, sys: System)
    ensures Reaches(platform, Start(), steps, sys)
    ensures sys == System(HookedStart(), ToSend(Event(Press, KeyG, Some(c))), Free, Sweeping(map[]))
  {
    steps, sys := FiledAndCleared(platform, c);
    steps, sys := Extend(platform, Start(), steps, sys, SweepKey(KeyG));
    steps, sys := Extend(platform, Start(), steps, sys, SweepEvent);
    steps, sys := Extend(platform, Start(), steps, sys, Work(Sweeper));
    steps, sys := Extend(platform, Start(), steps, sys, Work(Sweeper));
    steps, sys := Extend(platform, Start(), steps, sys, Work(Sweeper));
  }

  /**
   A sweep overtakes a press between filing and sending: the key is held and tracked by nobody, though it was
   copied.
   */
  lemma PressSentAfterTheSweepIsLost(platform: Platform, c: Code) returns (steps: seq<Step>, sys: System)
    ensures Reaches(platform, Start(), steps, sys)
    ensures sys.phase.Idle? && sys.grab.Free? && sys.s.remote == {c} && sys.s.toRelease == map[]
  {
    steps, sys := ReleasedUnsent(platform, c);
    steps, sys := Extend(platform, Start(), steps, sys, SweepDone);
    steps, sys := Extend(platform, Start(), steps, sys, Work(Grabber));
  }

  // ---------------------------------------------------------------- exact tracking

  /** When distinct keys have distinct codes, the peer holds exactly the keys of the table. */
  ghost predicate Exact(codeOf: Key -> Option<Code>, s: State) {
    forall c :: c in s.remote <==> HasCode(codeOf, s.toRelease.Keys, c)
  }

  ghost predicate DistinctCodes(codeOf: Key -> Option<Code>) {
    forall j, k :: codeOf(j).Some? && codeOf(j) == codeOf(k) ==> j == k
  }

  /**
   With both threads at rest, clearing is safe exactly when every tracked key with a code or a raised flag was
   copied.
   */
  lemma ClearIsSafeExactly(codeOf: Key -> Option<Code>, sys: System)
    requires DistinctCodes(codeOf) && Exact(codeOf, sys.s)
    requires sys.phase.Snapshotted? && sys.grab.Free? && sys.sweep.Free?
    ensures ClearIsSafe(codeOf, sys) <==>
              forall k :: k in sys.s.toRelease && (codeOf(k).Some? || Flag(sys.s.modifiers, k)) ==> k in sys.phase.snap
  {
    forall k | k in sys.s.toRelease && codeOf(k).Some?
      ensures codeOf(k).value in sys.s.remote
    {
      assert HasCode(codeOf, sys.s.toRelease.Keys, codeOf(k).value);
    }
  }

  /** A key event of the grab loop, or the interface entering or leaving relative mouse mode. */
  datatype Act = KeyAct(eligible: bool, e: Event) | RelativeAct(active: bool)

  function Acted(s: State, platform: Platform, a: Act): State {
    match a
    case KeyAct(eligible, e) => Grabbed(s, platform, eligible, e)
    case RelativeAct(active) => RelativeSet(s, active)
  }

  function Played(s: State, platform: Platform, acts: seq<Act>): State {
    if acts == [] then s else Acted(Played(s, platform, acts[..|acts| - 1]), platform, acts[|acts| - 1])
  }

  ghost predicate ActCoded(codeOf: Key -> Option<Code>, a: Act) {
    a.KeyAct? ==> Coded(codeOf, a.e)
  }

  lemma ProcessedKeepsExact(codeOf: Key -> Option<Code>, s: State, e: Event)
    requires DistinctCodes(codeOf) && Exact(codeOf, s) && Coded(codeOf, e)
    ensures Exact(codeOf, Processed(s, e))
  {
    var s' := Processed(s, e);
    forall c
      ensures c in s'.remote <==> HasCode(codeOf, s'.toRelease.Keys, c)
    {
      if codeOf(e.key) == Some(c) {
        if e.kind.Press? && !LongPress(s, e) {
          assert e.key in s'.toRelease.Keys;
        }
      } else {
        if c in s.remote {
          HasMoreCodes(codeOf, s.toRelease.Keys, s'.toRelease.Keys, c);
        }
        if HasCode(codeOf, s'.toRelease.Keys, c) {
          HasMoreCodes(codeOf, s'.toRelease.Keys, s.toRelease.Keys, c);
        }
      }
    }
  }

  /** An event is processed, or it leaves the table, the flags and the peer alone. */
  lemma GrabProcessesOrSkips(s: State, platform: Platform, eligible: bool, e: Event)
    ensures var s' := Grabbed(s, platform, eligible, e);
            || s' == Processed(s, e)
            || (s'.toRelease == s.toRelease && s'.modifiers == s.modifiers && s'.remote == s.remote)
  {
  }

  /** The grab loop is hooked, and the table has no key that it skips. */
  ghost predicate Hooked(platform: Platform, s: State) {
    s.hooked && forall k :: k in s.toRelease ==> !Skipped(platform, k)
  }

  lemma ActKeepsExact(codeOf: Key -> Option<Code>, platform: Platform, s: State, a: Act)
    requires DistinctCodes(codeOf) && Exact(codeOf, s) && ActCoded(codeOf, a)
    ensures Exact(codeOf, Acted(s, platform, a))
    ensures Hooked(platform, s) ==> Hooked(platform, Acted(s, platform, a))
  {
    if a.KeyAct? {
      ProcessedKeepsExact(codeOf, s, a.e);
      GrabProcessesOrSkips(s, platform, a.eligible, a.e);
    }
  }

  /** Blocked shortcuts included, every sequence of events leaves the peer holding exactly the tracked keys. */
  lemma {:induction false} EventsKeepExact(codeOf: Key -> Option<Code>, platform: Platform, s: State, acts: seq<Act>)
    requires DistinctCodes(codeOf) && Exact(codeOf, s)
    requires forall i :: 0 <= i < |acts| ==> ActCoded(codeOf, acts[i])
    ensures Exact(codeOf, Played(s, platform, acts))
    ensures Hooked(platform, s) ==> Hooked(platform, Played(s, platform, acts))
  {
    if acts != [] {
      var n := |acts| - 1;
      EventsKeepExact(codeOf, platform, s, acts[..n]);
      ActKeepsExact(codeOf, platform, Played(s, platform, acts[..n]), acts[n]);
    }
  }

  // ---------------------------------------------------------------- blocked releases

  /** The keys that the user holds down. */
  function Down(acts: seq<Act>): set<Key> {
    if acts == [] then {}
    else
      var a := acts[|acts| - 1];
      var before := Down(acts[..|acts| - 1]);
      if a.RelativeAct? then before
      else if a.e.kind.Press? then before + {a.e.key}
      else before - {a.e.key}
  }

  /** The peer holds only keys that the user holds. */
  ghost predicate OnlyPressed(codeOf: Key -> Option<Code>, s: State, down: set<Key>) {
    forall c :: c in s.remote ==> HasCode(codeOf, down, c)
  }

  /** The release of a tracked key is blocked as part of a shortcut. */
  predicate BlocksTracked(s: State, platform: Platform, a: Act) {
    a.KeyAct? && a.e.kind.Release? && a.e.code.Some? && a.e.key in s.toRelease && Blocks(s, platform, a.eligible, a.e)
  }

  /** A release leaves its code held on the peer exactly when the key was tracked and the release is blocked. */
  lemma ReleaseIsLostExactly(codeOf: Key -> Option<Code>, platform: Platform, s: State, eligible: bool, e: Event,
          c: Code)
    requires DistinctCodes(codeOf) && Exact(codeOf, s) && Hooked(platform, s) && Coded(codeOf, e)
    requires e.kind.Release? && e.code == Some(c)
    ensures c in Grabbed(s, platform, eligible, e).remote <==> BlocksTracked(s, platform, KeyAct(eligible, e))
  {
    if e.key in s.toRelease {
      assert HasCode(codeOf, s.toRelease.Keys, c);
    }
  }

  /**
   Seen from the table: the peer holds only what the user holds exactly when every tracked key with a code is
   down.
   */
  lemma OnlyPressedExactly(codeOf: Key -> Option<Code>, s: State, down: set<Key>)
    requires DistinctCodes(codeOf) && Exact(codeOf, s)
    ensures OnlyPressed(codeOf, s, down) <==> forall k :: k in s.toRelease && codeOf(k).Some? ==> k in down
  {
    if OnlyPressed(codeOf, s, down) {
      forall k | k in s.toRelease && codeOf(k).Some?
        ensures k in down
      {
        assert HasCode(codeOf, s.toRelease.Keys, codeOf(k).value);
      }
    } else {
      var c :| c in s.remote && !HasCode(codeOf, down, c);
      var k :| k in s.toRelease.Keys && codeOf(k) == Some(c);
      assert k !in down;
    }
  }

  lemma ActKeepsOnlyPressedExactly(codeOf: Key -> Option<Code>, platform: Platform, s: State, acts: seq<Act>, a: Act)
    requires DistinctCodes(codeOf) && Exact(codeOf, s) && Hooked(platform, s) && ActCoded(codeOf, a)
    requires OnlyPressed(codeOf, s, Down(acts))
    ensures OnlyPressed(codeOf, Acted(s, platform, a), Down(acts + [a])) <==> !BlocksTracked(s, platform, a)
  {
    assert (acts + [a])[..|acts|] == acts;
    ActKeepsExact(codeOf, platform, s, a);
    OnlyPressedExactly(codeOf, s, Down(acts));
    OnlyPressedExactly(codeOf, Acted(s, platform, a), Down(acts + [a]));
  }

  ghost predicate OnlyPressedAfter(codeOf: Key -> Option<Code>, platform: Platform, acts: seq<Act>) {
    OnlyPressed(codeOf, Played(HookedStart(), platform, acts), Down(acts))
  }

  lemma PrefixOnlyPressedExactly(codeOf: Key -> Option<Code>, platform: Platform, acts: seq<Act>, n: nat)
    requires DistinctCodes(codeOf) && forall i :: 0 <= i < |acts| ==> ActCoded(codeOf, acts[i])
    requires n < |acts| && OnlyPressedAfter(codeOf, platform, acts[..n])
    ensures OnlyPressedAfter(codeOf, platform, acts[..n + 1])
            <==> !BlocksTracked(Played(HookedStart(), platform, acts[..n]), platform, acts[n])
  {
    var s := Played(HookedStart(), platform, acts[..n]);
    EventsKeepExact(codeOf, platform, HookedStart(), acts[..n]);
    ActKeepsOnlyPressedExactly(codeOf, platform, s, acts[..n], acts[n]);
    assert acts[..n + 1] == acts[..n] + [acts[n]];
    assert acts[..n + 1][..n] == acts[..n];
  }

  /**
   Over whole runs of key events and mode changes on a hooked keyboard, the peer holds at every point only keys that the
   user holds if and only if no release of a tracked key was blocked.
   */
  lemma PeerHoldsOnlyPressedExactly(codeOf: Key -> Option<Code>, platform: Platform, acts: seq<Act>)
    requires DistinctCodes(codeOf) && forall i :: 0 <= i < |acts| ==> ActCoded(codeOf, acts[i])
    ensures (forall n: nat :: n <= |acts| ==> OnlyPressedAfter(codeOf, platform, acts[..n]))
            <==> (forall n: nat :: n < |acts| ==>
                    !BlocksTracked(Played(HookedStart(), platform, acts[..n]), platform, acts[n]))
  {
    var p := (n: nat) => n <= |acts| ==> OnlyPressedAfter(codeOf, platform, acts[..n]);
    var q := (n: nat) => n < |acts| ==> !BlocksTracked(Played(HookedStart(), platform, acts[..n]), platform, acts[n]);
    assert acts[..0] == [];
    forall n: nat | n < |acts| && p(n)
      ensures p(n + 1) <==> q(n)
    {
      PrefixOnlyPressedExactly(codeOf, platform, acts, n);
    }
    ThroughoutExactly(|acts|, p, q);
    assert forall n: nat :: n <= |acts| ==> (p(n) <==> OnlyPressedAfter(codeOf, platform, acts[..n]));
    assert forall n: nat :: n < |acts| ==>
      (q(n) <==> !BlocksTracked(Played(HookedStart(), platform, acts[..n]), platform, acts[n]));
  }

  /**
   The exit chord: while Control is held, the press of Alt is blocked, and then the release of Control is blocked in its
   place. The peer goes on holding Control, which stays tracked with its flag raised.
   */
  lemma BlockedChordLeavesControlHeld(platform: Platform, s: State, control: Key, alt: Key, a: Option<Code>, c: Code)
    requires !platform.MacOS? && s.hooked && s.relative
    requires control in {ControlLeft, ControlRight} && alt in {Alt, AltGr}
    requires control in s.toRelease && Flag(s.modifiers, control) && c in s.remote
    ensures var s1 := Grabbed(s, platform, true, Event(Press, alt, a));
            var s2 := Grabbed(s1, platform, true, Event(Release, control, Some(c)));
            && s1 == s.(exitDown := true)
            && BlocksTracked(s1, platform, KeyAct(true, Event(Release, control, Some(c))))
            && s2 == s.(exitDown := false) && c in s2.remote
  {
    var press := Event(Press, alt, a);
    assert IsExitShortcut(s.modifiers, platform, alt);
    assert Grabbed(s, platform, true, press) == s.(exitDown := true);
  }

  /**
   The exit chord on macOS: with Command down, both the press and the release of G are blocked, so the peer never sees
   the key.
   */
  lemma CommandGStaysHere(s: State, meta: Key, g: Option<Code>)
    requires s.hooked && s.relative && meta in {MetaLeft, MetaRight} && Flag(s.modifiers, meta)
    ensures var s1 := Grabbed(s, MacOS, true, Event(Press, KeyG, g));
            var s2 := Grabbed(s1.(relative := false), MacOS, false, Event(Release, KeyG, g));
            s1 == s.(exitDown := true) && s2 == s.(exitDown := false, relative := false)
  {
    assert Grabbed(s, MacOS, true, Event(Press, KeyG, g)) == s.(exitDown := true);
  }
}
