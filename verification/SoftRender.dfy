/**
 The software rendering handshake: the decoder fills a frame buffer, swaps it with the buffer of a
 display unless that one is still unread, and notifies the UI, which reads through a raw pointer until
 it asks for the next frame.

 A buffer is an allocation with an identity; swapping exchanges identities, decoding overwrites bytes.
 */
module SoftRender {

  import opened Common

  type BufferId = nat
  type Bytes = seq<bv8>
  type Display = nat

  datatype Rgba = Rgba(data: BufferId, valid: bool)

  datatype UiSession = UiSession(displays: seq<Display>, hasStream: bool)

  /** The display table, the decoder's buffer, the memory behind the buffers, and the next allocation. */
  datatype Frames = Frames(rgbas: map<Display, Rgba>, raw: BufferId, memory: map<BufferId, Bytes>, nextId: BufferId)

  // ---------------------------------------------------------------- specification

  function Decoded(f: Frames, bytes: Bytes): Frames {
    f.(memory := f.memory[f.raw := bytes])
  }

  predicate Unread(f: Frames, d: Display) {
    d in f.rgbas && f.rgbas[d].valid
  }

  /** The first locked section; a display seen for the first time gets a new, empty buffer to swap with. */
  function Stored(f: Frames, d: Display): Frames {
    if Unread(f, d) then f
    else if d in f.rgbas then f.(rgbas := f.rgbas[d := Rgba(f.raw, true)], raw := f.rgbas[d].data)
    else Frames(f.rgbas[d := Rgba(f.raw, true)], f.nextId, f.memory[f.nextId := []], f.nextId + 1)
  }

  /** The soft renderer notifies single-display sessions; with several sessions, only those showing the display. */
  predicate Notifies(multi: bool, h: UiSession, d: Display) {
    |h.displays| <= 1 && (multi ==> d in h.displays) && h.hasStream
  }

  predicate Sent(sessions: seq<UiSession>, d: Display) {
    exists i :: 0 <= i < |sessions| && Notifies(|sessions| > 1, sessions[i], d)
  }

  /** Read off the sessions: who is notified. */
  lemma SentExactly(sessions: seq<UiSession>, d: Display)
    ensures Sent(sessions, d) <==>
              exists i :: 0 <= i < |sessions| && sessions[i].hasStream
                          && (sessions[i].displays == [d] || (|sessions| == 1 && |sessions[i].displays| <= 1))
  {
    forall i | 0 <= i < |sessions|
      ensures Notifies(|sessions| > 1, sessions[i], d) <==>
                sessions[i].hasStream
                && (sessions[i].displays == [d] || (|sessions| == 1 && |sessions[i].displays| <= 1))
    {
      var ds := sessions[i].displays;
      assert |ds| == 1 ==> ds == [ds[0]];
    }
  }

  function Invalidated(f: Frames, d: Display): Frames {
    if d in f.rgbas then f.(rgbas := f.rgbas[d := f.rgbas[d].(valid := false)]) else f
  }

  function Rendered(f: Frames, d: Display, sessions: seq<UiSession>): Frames {
    if Unread(f, d) then f
    else if Sent(sessions, d) then Stored(f, d)
    else Invalidated(Stored(f, d), d)
  }

  // ---------------------------------------------------------------- the imperative handler

  class FlutterHandler {
    var rgbas: map<Display, Rgba>
    var raw: BufferId
    var memory: map<BufferId, Bytes>
    var nextId: BufferId

    ghost function View(): Frames
      reads this
    {
      Frames(rgbas, raw, memory, nextId)
    }

    method OnRgbaSoftRender(d: Display, sessions: seq<UiSession>)
      modifies this
      ensures View() == Rendered(old(View()), d, sessions)
      // An unread frame is left alone.
      ensures d in old(rgbas) && old(rgbas)[d].valid ==> View() == old(View())
      // Otherwise the decoder gets the display's buffer, or a new one, and the display gets the decoder's.
      ensures !(d in old(rgbas) && old(rgbas)[d].valid) ==>
                && d in rgbas && rgbas[d].data == old(raw)
                && raw == (if d in old(rgbas) then old(rgbas)[d].data else old(nextId))
                && rgbas.Keys == old(rgbas).Keys + {d}
                && (forall e :: e in old(rgbas) && e != d ==> rgbas[e] == old(rgbas)[e])
                && (forall b :: b in old(memory) && b != old(nextId) ==> b in memory && memory[b] == old(memory)[b])
      // It stays unread exactly if a session of at most one display with a stream is there to be notified; among several
      // sessions, one that shows this display.
      ensures !(d in old(rgbas) && old(rgbas)[d].valid) ==>
                (rgbas[d].valid <==>
                 exists i :: 0 <= i < |sessions| && sessions[i].hasStream
                             && (sessions[i].displays == [d] || (|sessions| == 1 && |sessions[i].displays| <= 1)))
    {
      SentExactly(sessions, d);
      if d in rgbas {
        var was := rgbas[d];
        if was.valid {
          return;
        }
        rgbas := rgbas[d := Rgba(raw, true)];
        raw := was.data;
      } else {
        var data := nextId;
        memory := memory[nextId := []];
        nextId := nextId + 1;
        rgbas := rgbas[d := Rgba(raw, true)];
        raw := data;
      }
      var isSent := false;
      var multi := |sessions| > 1;
      for i := 0 to |sessions|
        invariant View() == Stored(old(View()), d)
        invariant isSent <==> exists j :: 0 <= j < i && Notifies(multi, sessions[j], d)
      {
        var h := sessions[i];
        if |h.displays| > 1 {
          continue;
        }
        if multi {
          if d !in h.displays {
            continue;
          }
        }
        if h.hasStream {
          isSent := true;
        }
      }
      if !isSent {
        if d in rgbas {
          rgbas := rgbas[d := rgbas[d].(valid := false)];
        }
      }
    }

    method GetRgba(d: Display) returns (p: Option<BufferId>)
      ensures p == if d in rgbas && rgbas[d].valid then Some(rgbas[d].data) else None
      ensures p.Some? <==> Unread(View(), d)
    {
      if d in rgbas {
        if rgbas[d].valid {
          return Some(rgbas[d].data);
        }
      }
      return None;
    }

    method NextRgba(d: Display)
      modifies this`rgbas
      ensures View() == Invalidated(old(View()), d)
      ensures rgbas.Keys == old(rgbas).Keys
      ensures d in rgbas ==> rgbas[d] == Rgba(old(rgbas)[d].data, false)
      ensures forall e :: e in rgbas && e != d ==> rgbas[e] == old(rgbas)[e]
    {
      if d in rgbas {
        rgbas := rgbas[d := rgbas[d].(valid := false)];
      }
    }

    method UpdateUseTextureRender()
      modifies this`rgbas
      ensures View() == old(View()).(rgbas := map[])
    {
      rgbas := map[];
    }
  }

  // ---------------------------------------------------------------- buffers are never shared

  /** Every buffer in use is allocated; the decoder's buffer and those of the displays are all different. */
  ghost predicate Separate(f: Frames) {
    && f.raw in f.memory && f.raw < f.nextId
    && (forall d :: d in f.rgbas ==>
          f.rgbas[d].data in f.memory && f.rgbas[d].data < f.nextId && f.rgbas[d].data != f.raw)
    && (forall d, e :: d in f.rgbas && e in f.rgbas && f.rgbas[d].data == f.rgbas[e].data ==> d == e)
  }

  function InUse(f: Frames): set<BufferId> {
    {f.raw} + set d | d in f.rgbas :: f.rgbas[d].data
  }

  lemma StoringKeepsSeparate(f: Frames, d: Display)
    requires Separate(f)
    ensures Separate(Stored(f, d))
    ensures !Unread(f, d) ==> Stored(f, d).memory[Stored(f, d).rgbas[d].data] == f.memory[f.raw]
  {
  }

  /** Storing a frame swaps: the buffers in use stay the same, plus a new one for a new display. */
  lemma StoringConservesBuffers(f: Frames, d: Display)
    requires Separate(f)
    ensures InUse(Stored(f, d)) == InUse(f) + if d in f.rgbas then {} else {f.nextId}
  {
    var g := Stored(f, d);
    if !Unread(f, d) {
      forall b | b in InUse(f)
        ensures b in InUse(g)
      {
        if b == f.raw {
          assert g.rgbas[d].data == b;
        } else {
          var e :| e in f.rgbas && f.rgbas[e].data == b;
          assert if e == d then b == g.raw else g.rgbas[e].data == b;
        }
      }
      forall b | b in InUse(g)
        ensures b in InUse(f) + if d in f.rgbas then {} else {f.nextId}
      {
        if b != g.raw {
          var e :| e in g.rgbas && g.rgbas[e].data == b;
          assert e == d || f.rgbas[e].data == b;
        }
      }
    }
  }

  /** A newly stored frame stays valid exactly when some stream was notified; an unread frame is never replaced. */
  lemma NewFrameValidExactly(f: Frames, d: Display, sessions: seq<UiSession>)
    ensures !Unread(f, d) ==> (Unread(Rendered(f, d, sessions), d) <==> Sent(sessions, d))
    ensures Unread(f, d) ==> Rendered(f, d, sessions) == f
  {
  }

  // ---------------------------------------------------------------- the reader's view over whole runs

  /** What a reader holds since a non-null `get_rgba`: the pointer and the bytes it saw. */
  datatype Held = Held(data: BufferId, bytes: Bytes)

  /**
   `storing` is the display between the two locked sections of the renderer; `told` are the displays of which a
   reader was notified and has not asked for the next frame since.
   */
  datatype System = System(f: Frames, storing: Option<Display>, held: map<Display, Held>, told: set<Display>)

  const START := System(Frames(map[], 0, map[0 := []], 1), None, map[], {})

  /** `NextFrame` comes from the reader; `Reset` from elsewhere, when a display is switched or opened once more. */
  datatype Step =
    | Decode(bytes: Bytes)
    | Store(d: Display)
    | Notify(sessions: seq<UiSession>)
    | Get(d: Display)
    | NextFrame(d: Display)
    | Reset(d: Display)
    | Clear

  predicate Enabled(sys: System, step: Step) {
    match step
    case Decode(_) => sys.storing.None?
    case Store(_) => sys.storing.None?
    case Notify(_) => sys.storing.Some?
    case Get(d) => Unread(sys.f, d) ==> sys.f.rgbas[d].data in sys.f.memory
    case _ => true
  }

  function Next(sys: System, step: Step): System
    requires Enabled(sys, step)
  {
    match step
    case Decode(bytes) => sys.(f := Decoded(sys.f, bytes))
    case Store(d) => if Unread(sys.f, d) then sys else sys.(f := Stored(sys.f, d), storing := Some(d))
    case Notify(sessions) =>
      var d := sys.storing.value;
      if Sent(sessions, d) then sys.(storing := None, told := sys.told + {d})
      else sys.(f := Invalidated(sys.f, d), storing := None)
    case Get(d) =>
      if Unread(sys.f, d)
      then sys.(held := sys.held[d := Held(sys.f.rgbas[d].data, sys.f.memory[sys.f.rgbas[d].data])])
      else sys
    case NextFrame(d) => sys.(f := Invalidated(sys.f, d), held := sys.held - {d}, told := sys.told - {d})
    case Reset(d) => sys.(f := Invalidated(sys.f, d))
    case Clear => sys.(f := sys.f.(rgbas := map[]), held := map[], told := {})
  }

  /** Every reader still sees the bytes it saw, through a buffer that its display still owns and protects. */
  ghost predicate Stable(sys: System) {
    && Separate(sys.f)
    && forall d :: d in sys.held ==>
         && Unread(sys.f, d) && sys.f.rgbas[d].data == sys.held[d].data
         && sys.held[d].data in sys.f.memory && sys.f.memory[sys.held[d].data] == sys.held[d].bytes
  }

  /**
   A frame that nobody was told about is withdrawn while a reader has already taken it, or another party resets the
   display under a reader.
   */
  predicate TakesFromReader(sys: System, step: Step) {
    || (step.Notify? && sys.storing.Some? && !Sent(step.sessions, sys.storing.value) && sys.storing.value in sys.held)
    || (step.Reset? && step.d in sys.held)
  }

  lemma StoreKeepsStable(sys: System, d: Display)
    requires Stable(sys) && sys.storing.None?
    ensures Stable(Next(sys, Store(d)))
  {
    StoringKeepsSeparate(sys.f, d);
  }

  lemma NotifyKeepsStableExactly(sys: System, sessions: seq<UiSession>)
    requires Stable(sys) && sys.storing.Some?
    ensures Stable(Next(sys, Notify(sessions))) <==> !TakesFromReader(sys, Notify(sessions))
  {
    var d := sys.storing.value;
    if !Sent(sessions, d) {
      assert Separate(Invalidated(sys.f, d));
      if d in sys.held {
        assert !Unread(Invalidated(sys.f, d), d);
      }
    }
  }

  lemma ResetKeepsStableExactly(sys: System, d: Display)
    requires Stable(sys)
    ensures Stable(Next(sys, Reset(d))) <==> !TakesFromReader(sys, Reset(d))
  {
    assert Separate(Invalidated(sys.f, d));
    if d in sys.held {
      assert !Unread(Invalidated(sys.f, d), d);
    }
  }

  /** Decoding writes only to a buffer that no display owns. */
  lemma DecodeKeepsStable(sys: System, bytes: Bytes)
    requires Stable(sys) && sys.storing.None?
    ensures Stable(Next(sys, Decode(bytes)))
  {
    assert Separate(Decoded(sys.f, bytes));
  }

  lemma ReaderStepKeepsStable(sys: System, step: Step)
    requires Stable(sys) && Enabled(sys, step)
    requires step.Get? || step.NextFrame? || step.Clear?
    ensures Stable(Next(sys, step))
  {
    assert step.NextFrame? ==> Separate(Invalidated(sys.f, step.d));
  }

  /** Every step keeps the readers' bytes, except exactly those two. */
  lemma NextKeepsStableExactly(sys: System, step: Step)
    requires Stable(sys) && Enabled(sys, step)
    ensures Stable(Next(sys, step)) <==> !TakesFromReader(sys, step)
  {
    match step
    case Store(d) => StoreKeepsStable(sys, d);
    case Notify(sessions) => NotifyKeepsStableExactly(sys, sessions);
    case Reset(d) => ResetKeepsStableExactly(sys, d);
    case Decode(bytes) => DecodeKeepsStable(sys, bytes);
    case _ => ReaderStepKeepsStable(sys, step);
  }

  ghost predicate Reaches(sys: System, steps: seq<Step>, sys': System)
    decreases |steps|
  {
    if steps == [] then sys' == sys
    else Enabled(sys, steps[0]) && Reaches(Next(sys, steps[0]), steps[1..], sys')
  }

  ghost predicate ReadersLeftAlone(sys: System, steps: seq<Step>)
    decreases |steps|
  {
    steps == [] ||
    (Enabled(sys, steps[0]) && !TakesFromReader(sys, steps[0]) && ReadersLeftAlone(Next(sys, steps[0]), steps[1..]))
  }

  /**
   However many frames arrive, the bytes a reader sees never change until it asks for the next frame or all is
   cleared.
   */
  lemma {:induction false} ReadersSeeStableBytes(sys: System, steps: seq<Step>, sys': System)
    requires Stable(sys) && Reaches(sys, steps, sys') && ReadersLeftAlone(sys, steps)
    ensures Stable(sys')
    decreases |steps|
  {
    if steps != [] {
      NextKeepsStableExactly(sys, steps[0]);
      ReadersSeeStableBytes(Next(sys, steps[0]), steps[1..], sys');
    }
  }

  /** If the renderer's two sections run back to back, nothing is ever withdrawn from a reader. */
  lemma UninterruptedRenderIsSafe(sys: System, d: Display, sessions: seq<UiSession>)
    requires Stable(sys) && sys.storing.None?
    ensures var mid := Next(sys, Store(d));
            mid.storing.Some? ==>
              && !TakesFromReader(mid, Notify(sessions))
              && Stable(Next(mid, Notify(sessions)))
              && Next(mid, Notify(sessions)).f == Rendered(sys.f, d, sessions)
  {
    var mid := Next(sys, Store(d));
    NextKeepsStableExactly(sys, Store(d));
    if mid.storing.Some? {
      NextKeepsStableExactly(mid, Notify(sessions));
    }
  }

  /**
   Once the reader has asked for the next frame of its display, the next one that is decoded for it is announced to a
   session showing it, and what the reader then gets is exactly that frame.
   */
  lemma NextFrameReachesReader(sys: System, d: Display, bytes: Bytes, sessions: seq<UiSession>, i: nat)
    requires Separate(sys.f) && sys.storing.None?
    requires i < |sessions| && sessions[i] == UiSession([d], true)
    ensures var decoded := Next(Next(sys, NextFrame(d)), Decode(bytes));
            var stored := Next(decoded, Store(d));
            var told := Next(stored, Notify(sessions));
            && told.storing.None? && d in told.told && d !in told.held
            && var got := Next(told, Get(d)); d in got.held && got.held[d] == Held(sys.f.raw, bytes)
  {
    SentExactly(sessions, d);
    assert Separate(Invalidated(sys.f, d));
  }

  // ---------------------------------------------------------------- a reader that waits to be told

  /**
   Reads and asks for the next frame only when told, while nobody else resets a display, nor clears all in mid-
   render.
   */
  predicate Disciplined(sys: System, step: Step) {
    match step
    case Get(d) => d in sys.told
    case NextFrame(d) => d in sys.told
    case Reset(_) => false
    case Clear => sys.storing.None?
    case _ => true
  }

  /** A frame that was announced is there to be read; one being announced is there, and nobody reads it yet. */
  ghost predicate Announced(sys: System) {
    && (forall d :: d in sys.told ==> Unread(sys.f, d) && sys.storing != Some(d))
    && (forall d :: d in sys.held ==> d in sys.told)
    && (sys.storing.Some? ==> Unread(sys.f, sys.storing.value))
  }

  lemma NextKeepsAnnounced(sys: System, step: Step)
    requires Announced(sys) && Enabled(sys, step) && Disciplined(sys, step)
    ensures Announced(Next(sys, step)) && !TakesFromReader(sys, step)
  {
  }

  ghost predicate DisciplinedRun(sys: System, steps: seq<Step>)
    decreases |steps|
  {
    steps == [] ||
    (Enabled(sys, steps[0]) && Disciplined(sys, steps[0]) && DisciplinedRun(Next(sys, steps[0]), steps[1..]))
  }

  lemma {:induction false} RunKeepsAnnounced(sys: System, steps: seq<Step>, sys': System)
    requires Stable(sys) && Announced(sys) && Reaches(sys, steps, sys') && DisciplinedRun(sys, steps)
    ensures Stable(sys') && Announced(sys')
    decreases |steps|
  {
    if steps != [] {
      NextKeepsStableExactly(sys, steps[0]);
      NextKeepsAnnounced(sys, steps[0]);
      RunKeepsAnnounced(Next(sys, steps[0]), steps[1..], sys');
    }
  }

  /**
   What the interface relies on: in every run from the start, a reader that takes a frame only after it was told of it
   finds one, and never loses it, whatever the decoder and the renderer do.
   */
  lemma ToldReaderNeverLosesItsFrame(steps: seq<Step>, sys: System)
    requires Reaches(START, steps, sys) && DisciplinedRun(START, steps)
    ensures Stable(sys)
    ensures forall d :: d in sys.told ==> Unread(sys.f, d)
  {
    RunKeepsAnnounced(START, steps, sys);
  }

  // ---------------------------------------------------------------- a reader that does not

  /** One more step at the end of a run. */
  lemma {:induction false} Extend(sys: System, steps: seq<Step>, mid: System, step: Step)
    returns (steps': seq<Step>, sys': System)
    requires Reaches(sys, steps, mid) && Enabled(mid, step)
    ensures sys' == Next(mid, step) && Reaches(sys, steps', sys')
    decreases |steps|
  {
    sys' := Next(mid, step);
    if steps == [] {
      steps' := [step];
      assert Reaches(sys', [], sys');
    } else {
      var rest, end := Extend(Next(sys, steps[0]), steps[1..], mid, step);
      steps' := [steps[0]] + rest;
    }
  }

  /** A session that shows two displays is not notified by the soft renderer. */
  lemma TwoDisplaysNotSent(d: Display)
    ensures !Sent([UiSession([d, d + 1], true)], d)
  {
  }

  /** The session shows two displays; it reads between the two sections of the renderer, and the frame is withdrawn. */
  lemma WithdrawnUnderReader(d: Display, a: Bytes) returns (steps: seq<Step>, sys: System)
    ensures Reaches(START, steps, sys) && sys.storing.None?
    ensures sys.f.rgbas == map[d := Rgba(0, false)] && sys.f.raw == 1 && sys.held == map[d := Held(0, a)]
    ensures 0 in sys.f.memory && sys.f.memory[0] == a
  {
    assert Reaches(START, [], START);
    TwoDisplaysNotSent(d);
    steps, sys := Extend(START, [], START, Decode(a));
    steps, sys := Extend(START, steps, sys, Store(d));
    steps, sys := Extend(START, steps, sys, Get(d));
    steps, sys := Extend(START, steps, sys, Notify([UiSession([d, d + 1], true)]));
  }

  /** After a withdrawal, the next two frames overwrite the bytes under the reader. */
  lemma WithdrawalCorruptsReader(d: Display, a: Bytes, b: Bytes, c: Bytes) returns (steps: seq<Step>, sys: System)
    requires a != c
    ensures Reaches(START, steps, sys)
    ensures d in sys.held && sys.held[d].bytes == a && sys.held[d].data in sys.f.memory
    ensures sys.f.memory[sys.held[d].data] == c
  {
    TwoDisplaysNotSent(d);
    steps, sys := WithdrawnUnderReader(d, a);
    steps, sys := Extend(START, steps, sys, Decode(b));
    steps, sys := Extend(START, steps, sys, Store(d));
    steps, sys := Extend(START, steps, sys, Notify([UiSession([d, d + 1], true)]));
    steps, sys := Extend(START, steps, sys, Decode(c));
  }
}
