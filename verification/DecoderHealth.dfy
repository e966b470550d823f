/**
 Decoder health: the failure counter of a video handler and the list of codecs that the session
 reports as unsupported.
 */
module DecoderHealth {

  import opened Common

  type Codec = nat

  const MAX_DECODE_FAIL_COUNTER := 3
  const USIZE_MAX: nat := 0xFFFF_FFFF_FFFF_FFFF

  /** A frame for a codec; a frame without a payload is not decoded. `valid` is the decoder's own verdict afterwards. */
  datatype Input =
    | Frame(codec: Codec, decoded: Option<bool>, valid: bool)
    | ResetRequest

  datatype State = State(codec: Codec, failCounter: nat, firstFrame: bool, unsupported: seq<Codec>)

  // ---------------------------------------------------------------- the imperative handler

  class VideoHandler {
    var codec: Codec
    var failCounter: nat
    var firstFrame: bool
    var unsupported: seq<Codec>

    ghost function View(): State
      reads this
    {
      State(codec, failCounter, firstFrame, unsupported)
    }

    method Reset(to: Option<Codec>)
      modifies this`codec, this`failCounter, this`firstFrame
      ensures codec == (if to.Some? then to.value else old(codec)) && failCounter == 0 && firstFrame
    {
      if to.Some? {
        codec := to.value;
      }
      failCounter := 0;
      firstFrame := true;
    }

    method HandleFrame(c: Codec, decoded: Option<bool>)
      modifies this`codec, this`failCounter, this`firstFrame
      ensures View() == AfterFrame(old(View()), c, decoded)
      ensures codec == c && unsupported == old(unsupported)
      ensures decoded.None? ==> failCounter == (if c == old(codec) then old(failCounter) else 0)
      ensures firstFrame == (decoded.None? && (c != old(codec) || old(firstFrame)))
      ensures decoded == Some(true) ==> failCounter == 0
      ensures decoded == Some(false) && c != old(codec) ==> failCounter == 3
      ensures decoded == Some(false) && c == old(codec) && old(firstFrame) && old(failCounter) < 3 ==> failCounter == 3
      ensures decoded == Some(false) && c == old(codec) && !(old(firstFrame) && old(failCounter) < 3) ==>
                failCounter == (if old(failCounter) < USIZE_MAX then old(failCounter) + 1 else old(failCounter))
    {
      if c != codec {
        Reset(Some(c));
      }
      if decoded.Some? {
        if decoded.value {
          failCounter := 0;
        } else if failCounter < USIZE_MAX {
          if firstFrame && failCounter < MAX_DECODE_FAIL_COUNTER {
            failCounter := MAX_DECODE_FAIL_COUNTER;
          } else {
            failCounter := failCounter + 1;
          }
        }
        firstFrame := false;
      }
    }

    method CheckInvalidDecoder(valid: bool) returns (update: bool)
      modifies this`unsupported
      ensures View() == AfterCheck(old(View()), valid)
      ensures update == ((!valid || failCounter >= 3) && codec !in old(unsupported))
      ensures unsupported == old(unsupported) + if update then [codec] else []
    {
      update := false;
      if !valid || failCounter >= MAX_DECODE_FAIL_COUNTER {
        if codec !in unsupported {
          unsupported := unsupported + [codec];
          update := true;
        }
      }
    }
  }

  function AfterFrame(s: State, c: Codec, decoded: Option<bool>): State {
    var s1 := if c != s.codec then s.(codec := c, failCounter := 0, firstFrame := true) else s;
    if decoded.None? then s1
    else if decoded.value then s1.(failCounter := 0, firstFrame := false)
    else
      var n := if s1.failCounter >= USIZE_MAX then s1.failCounter
               else if s1.firstFrame && s1.failCounter < MAX_DECODE_FAIL_COUNTER then MAX_DECODE_FAIL_COUNTER
               else s1.failCounter + 1;
      s1.(failCounter := n, firstFrame := false)
  }

  function AfterCheck(s: State, valid: bool): State {
    if (!valid || s.failCounter >= MAX_DECODE_FAIL_COUNTER) && s.codec !in s.unsupported
    then s.(unsupported := s.unsupported + [s.codec]) else s
  }

  function Next(s: State, x: Input): State {
    match x
    case ResetRequest => s.(failCounter := 0, firstFrame := true)
    case Frame(c, decoded, valid) => AfterCheck(AfterFrame(s, c, decoded), valid)
  }

  /**
   The handler with the results of decoding since it was created or last reset, by request or by a change of
   codec.
   */
  datatype Traced = Traced(s: State, results: seq<bool>)

  function NextTraced(t: Traced, x: Input): Traced {
    Traced(Next(t.s, x),
      match x
      case ResetRequest => []
      case Frame(c, decoded, _) =>
        var base := if c != t.s.codec then [] else t.results;
        if decoded.Some? then base + [decoded.value] else base)
  }

  function Run(t: Traced, xs: seq<Input>): Traced {
    if xs == [] then t else NextTraced(Run(t, xs[..|xs| - 1]), xs[|xs| - 1])
  }

  // ---------------------------------------------------------------- the counter as a function of the trace

  function TrailingFailures(results: seq<bool>): (k: nat)
    ensures k <= |results|
  {
    if results == [] || results[|results| - 1] then 0 else 1 + TrailingFailures(results[..|results| - 1])
  }

  /** Consecutive failures, with a penalty of two when the very first frame is among them. */
  function Penalised(results: seq<bool>): nat {
    var k := TrailingFailures(results);
    if k > 0 && k == |results| then k + MAX_DECODE_FAIL_COUNTER - 1 else k
  }

  /** The counter, saturated, and the first-frame flag are what the results since the reset make them. */
  predicate Counts(s: State, results: seq<bool>) {
    && s.failCounter == (if Penalised(results) <= USIZE_MAX then Penalised(results) else USIZE_MAX)
    && (s.firstFrame <==> results == [])
  }

  lemma OneMoreResult(s: State, results: seq<bool>, ok: bool)
    requires Counts(s, results)
    ensures Counts(AfterFrame(s, s.codec, Some(ok)), results + [ok])
  {
    assert (results + [ok])[..|results|] == results;
  }

  lemma FrameCounts(s: State, results: seq<bool>, c: Codec, decoded: Option<bool>)
    requires Counts(s, results)
    ensures var base := if c != s.codec then [] else results;
            Counts(AfterFrame(s, c, decoded), if decoded.Some? then base + [decoded.value] else base)
  {
    if decoded.Some? {
      if c != s.codec {
        OneMoreResult(s.(codec := c, failCounter := 0, firstFrame := true), [], decoded.value);
      } else {
        OneMoreResult(s, results, decoded.value);
      }
    }
  }

  /** Over any run the counter is determined by the results since the last reset. */
  lemma {:induction false} CounterIsTrace(t: Traced, xs: seq<Input>)
    requires Counts(t.s, t.results)
    ensures Counts(Run(t, xs).s, Run(t, xs).results)
  {
    if xs != [] {
      CounterIsTrace(t, xs[..|xs| - 1]);
      CounterStep(Run(t, xs[..|xs| - 1]), xs[|xs| - 1]);
    }
  }

  lemma CounterStep(t: Traced, x: Input)
    requires Counts(t.s, t.results)
    ensures Counts(NextTraced(t, x).s, NextTraced(t, x).results)
  {
    if x.Frame? {
      FrameCounts(t.s, t.results, x.codec, x.decoded);
    }
  }

  /** Reaching the limit: the first frame failed and nothing since worked, or three frames in a row failed. */
  lemma LimitReachedExactly(s: State, results: seq<bool>)
    requires Counts(s, results)
    ensures s.failCounter >= MAX_DECODE_FAIL_COUNTER
            <==> var k := TrailingFailures(results); k >= 3 || (k > 0 && k == |results|)
  {
  }

  /**
   Over any run, a frame gets its codec reported exactly when the decoder is invalid, when the first
   frame failed and nothing since worked, or when three frames in a row failed.
   */
  lemma ReportedExactly(t: Traced, xs: seq<Input>, x: Input)
    requires Counts(t.s, t.results) && x.Frame?
    ensures var before := Run(t, xs); var after := NextTraced(before, x);
            var k := TrailingFailures(after.results);
            && (after.s.codec in after.s.unsupported <==>
                  || x.codec in before.s.unsupported || !x.valid || k >= 3 || (k > 0 && k == |after.results|))
            && after.s.codec == x.codec && before.s.unsupported <= after.s.unsupported
  {
    CounterIsTrace(t, xs);
    FrameReported(Run(t, xs), x);
  }

  lemma FrameReported(t: Traced, x: Input)
    requires Counts(t.s, t.results) && x.Frame?
    ensures var after := NextTraced(t, x); var k := TrailingFailures(after.results);
            && (after.s.codec in after.s.unsupported <==>
                  || x.codec in t.s.unsupported || !x.valid || k >= 3 || (k > 0 && k == |after.results|))
            && after.s.codec == x.codec && t.s.unsupported <= after.s.unsupported
  {
    CounterStep(t, x);
    LimitReachedExactly(NextTraced(t, x).s, NextTraced(t, x).results);
    FrameKeepsList(t.s, x.codec, x.decoded);
    CheckReports(AfterFrame(t.s, x.codec, x.decoded), x.valid);
  }

  lemma FrameKeepsList(s: State, c: Codec, decoded: Option<bool>)
    ensures AfterFrame(s, c, decoded).codec == c && AfterFrame(s, c, decoded).unsupported == s.unsupported
  {
  }

  lemma CheckReports(s: State, valid: bool)
    ensures var s' := AfterCheck(s, valid);
            && (s'.codec in s'.unsupported <==>
                  s.codec in s.unsupported || !valid || s'.failCounter >= MAX_DECODE_FAIL_COUNTER)
            && s.unsupported <= s'.unsupported
  {
  }

  ghost predicate NoDuplicates(s: seq<Codec>) {
    forall i, j :: 0 <= i < j < |s| ==> s[i] != s[j]
  }

  /** Over any run the list of unsupported codecs only grows at its end and never repeats a codec. */
  lemma {:induction false} UnsupportedGrows(t: Traced, xs: seq<Input>)
    requires NoDuplicates(t.s.unsupported)
    ensures NoDuplicates(Run(t, xs).s.unsupported) && t.s.unsupported <= Run(t, xs).s.unsupported
  {
    if xs != [] {
      UnsupportedGrows(t, xs[..|xs| - 1]);
    }
  }
}
