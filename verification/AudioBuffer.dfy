/**
 The audio jitter buffer: a bounded ring of samples, an occupancy histogram of thirty buckets that
 is scanned and cleared in place every twelve seconds, and the decision how many samples to drop.

 The ring is a sequence, oldest sample first; `push_slice_overwrite`, `skip` and `pop_slice` of the
 ring library are the sequence operations they document. The clock is a parameter.
 */
module AudioBuffer {

  import opened Common

  const BUCKETS := 30
  const BUFFER_MS := 3000
  const SHRINK_PERIOD_MS := 12000
  const DIVISOR := 4

  datatype Channel = Left | Right
  datatype Sample = Sample(channel: Channel, value: real)

  // ---------------------------------------------------------------- histogram specification

  /** The number of leading empty buckets among the first `n`. */
  function EmptyPrefix(h: seq<nat>, n: nat): (z: nat)
    requires n <= |h|
    ensures z <= n
  {
    if n == 0 then 0
    else
      var z := EmptyPrefix(h, n - 1);
      if z == n - 1 && h[n - 1] == 0 then n else z
  }

  lemma {:induction false} EmptyPrefixMeaning(h: seq<nat>, n: nat)
    requires n <= |h|
    ensures forall i :: 0 <= i < EmptyPrefix(h, n) ==> h[i] == 0
    ensures EmptyPrefix(h, n) < n ==> h[EmptyPrefix(h, n)] != 0
  {
    if n > 0 {
      EmptyPrefixMeaning(h, n - 1);
    }
  }

  /** `m` is the least index of the largest bucket among 1..n-1, or 0 if those are all empty. */
  ghost predicate IsPeak(h: seq<nat>, n: nat, m: nat)
    requires n <= |h|
  {
    if m == 0 then
      forall i :: 1 <= i < n ==> h[i] == 0
    else
      && m < n && h[m] > 0
      && (forall i :: 1 <= i < m ==> h[i] < h[m])
      && (forall i :: m < i < n ==> h[i] <= h[m])
  }

  function Peak(h: seq<nat>, n: nat): (m: nat)
    requires n <= |h|
    ensures m < n || m == 0
  {
    if n <= 1 then 0
    else
      var m := Peak(h, n - 1);
      if h[n - 1] > (if m == 0 then 0 else h[m]) then n - 1 else m
  }

  lemma {:induction false} PeakMeaning(h: seq<nat>, n: nat)
    requires n <= |h|
    ensures IsPeak(h, n, Peak(h, n))
  {
    if n > 1 {
      PeakMeaning(h, n - 1);
    }
  }

  lemma PeakIsUnique(h: seq<nat>, n: nat, a: nat, b: nat)
    requires n <= |h| && IsPeak(h, n, a) && IsPeak(h, n, b)
    ensures a == b
  {
  }

  /** The bucket that an occupancy falls in: tenths of a second, capped at the last bucket. */
  function BucketOf(having: nat, rate: nat): (b: nat)
    requires rate > 0
    ensures b < BUCKETS
    ensures b * rate <= having * 10
    ensures b < BUCKETS - 1 ==> having * 10 < (b + 1) * rate
  {
    var i := (having * 10) / rate;
    assert i * rate <= having * 10;
    if i > BUCKETS - 1 then
      MulMonotone(BUCKETS - 1, i, rate);
      BUCKETS - 1
    else i
  }

  function EvenDown(x: nat): (r: nat)
    ensures r % 2 == 0 && r <= x < r + 2
  {
    x - x % 2
  }

  /** The number of samples that water mark `max` stands for, in whole frames. */
  function SamplesAt(capacity: nat, max: nat): (r: nat)
    ensures r % 2 == 0 && r <= capacity * max / (BUCKETS * DIVISOR) + 1
  {
    EvenDown(capacity * max / (BUCKETS * DIVISOR) + 1)
  }

  /** The drop decided from the two water marks: whole frames, at most a third of what is buffered. */
  function DropFor(empty: nat, peak: nat, capacity: nat, having: nat): (skip: nat)
    ensures skip % 2 == 0 && (skip > 0 ==> having > skip * 3)
  {
    var zero := empty * 2 / 3;
    if peak < 6 then 0
    else
      var max := if peak > zero * DIVISOR then zero * DIVISOR else peak;
      var skip := SamplesAt(capacity, max);
      if having > skip * 3 && skip > 0 then skip else 0
  }

  /** How many samples one pass over the histogram drops from a ring holding `having`. */
  function DropCount(h: seq<nat>, capacity: nat, having: nat): (skip: nat)
    requires |h| == BUCKETS
    ensures skip <= having && skip % 2 == 0
  {
    DropFor(EmptyPrefix(h, BUCKETS), Peak(h, BUCKETS), capacity, having)
  }

  // ---------------------------------------------------------------- state and its transitions

  datatype State = State(ring: seq<Sample>, capacity: nat, rate: nat, histogram: seq<nat>, lastCheck: int)

  function LastN<T>(s: seq<T>, n: nat): (r: seq<T>)
    ensures |r| == (if |s| <= n then |s| else n)
    ensures forall i :: 0 <= i < |r| ==> r[i] == s[|s| - |r| + i]
  {
    if |s| <= n then s else s[|s| - n..]
  }

  /** Three seconds of samples. */
  function CapacityFor(samplesPerSecond: nat): (c: nat)
    ensures c == 3 * samplesPerSecond
  {
    samplesPerSecond * BUFFER_MS / 1000
  }

  function NoOccupancy(): (h: seq<nat>)
    ensures |h| == BUCKETS && forall i :: 0 <= i < BUCKETS ==> h[i] == 0
  {
    seq(BUCKETS, i => 0)
  }

  function Initial(): State {
    State([], CapacityFor(48000 * 2), 48000 * 2, NoOccupancy(), 0)
  }

  function Resized(s: State, sampleRate: nat, channels: nat): State {
    var capacity := CapacityFor(sampleRate * channels);
    if capacity != s.capacity then s.(ring := [], capacity := capacity, rate := sampleRate * channels) else s
  }

  function Appended(s: State, buffer: seq<Sample>): State {
    s.(ring := LastN(s.ring + buffer, s.capacity))
  }

  function Popped(s: State, n: nat): State {
    s.(ring := s.ring[if n <= |s.ring| then n else |s.ring|..])
  }

  function Shrunk(s: State, having: nat, now: int): State
    requires s.rate > 0 && |s.histogram| == BUCKETS
  {
    var b := BucketOf(having, s.rate);
    var h := s.histogram[b := s.histogram[b] + 1];
    if s.lastCheck == 0 then s.(histogram := h, lastCheck := now)
    else if now < s.lastCheck + SHRINK_PERIOD_MS then s.(histogram := h)
    else s.(ring := s.ring[DropCount(h, s.capacity, |s.ring|)..], histogram := NoOccupancy(), lastCheck := now)
  }

  /** An append keeps the newest samples, as many as there is room for, and touches nothing else. */
  lemma AppendKeepsNewest(s: State, buffer: seq<Sample>)
    ensures var s' := Appended(s, buffer); var all := s.ring + buffer;
            && s' == s.(ring := s'.ring)
            && |s'.ring| == (if |all| <= s.capacity then |all| else s.capacity)
            && s'.ring == all[|all| - |s'.ring|..]
  {
  }

  // ---------------------------------------------------------------- the in-place implementation

  /** One pass over the buckets, clearing them while looking for the two water marks. */
  method ScanHistogram(h: array<nat>) returns (zero: nat, max: nat)
    requires h.Length == BUCKETS
    modifies h
    ensures zero == EmptyPrefix(old(h[..]), BUCKETS)
    ensures max == Peak(old(h[..]), BUCKETS)
    ensures h[..] == NoOccupancy()
  {
    ghost var was := h[..];
    zero, max := 0, 0;
    for i := 0 to BUCKETS
      invariant zero == EmptyPrefix(was, i)
      invariant max == Peak(was, i)
      invariant forall j :: i <= j < BUCKETS ==> h[j] == was[j]
      invariant forall j :: 0 <= j < i && j != max ==> h[j] == 0
      invariant h[max] == if i == 0 || max > 0 then was[max] else 0
    {
      if h[i] == 0 && zero == i {
        zero := zero + 1;
      }
      if h[i] > h[max] {
        h[max] := 0;
        max := i;
      } else {
        h[i] := 0;
      }
    }
    h[max] := 0;
  }

  /** Making room first and then appending leaves the newest samples, too. */
  lemma {:induction false} SkipThenPush(s: State, buffer: seq<Sample>)
    requires |s.ring| <= s.capacity && |buffer| <= s.capacity && |s.ring| + |buffer| > s.capacity
    ensures var k := |s.ring| + |buffer| - s.capacity;
            Appended(s.(ring := s.ring[k..]), buffer) == Appended(s, buffer)
  {
    var k := |s.ring| + |buffer| - s.capacity;
    assert s.ring[k..] + buffer == (s.ring + buffer)[k..];
  }

  class AudioBuffer {
    var ring: seq<Sample>
    var capacity: nat
    var rate: nat
    const histogram: array<nat>
    var lastCheck: int

    ghost predicate Valid()
      reads this
    {
      histogram.Length == BUCKETS && |ring| <= capacity
    }

    ghost function View(): State
      reads this, histogram
    {
      State(ring, capacity, rate, histogram[..], lastCheck)
    }

    constructor ()
      ensures Valid() && View() == Initial() && fresh(histogram)
      ensures ring == [] && capacity == 288000 && rate == 96000 && lastCheck == 0
    {
      ring, capacity, rate, lastCheck := [], CapacityFor(48000 * 2), 48000 * 2, 0;
      histogram := new nat[BUCKETS](i => 0);
    }

    method Resize(sampleRate: nat, channels: nat)
      requires Valid()
      modifies this
      ensures Valid() && View() == Resized(old(View()), sampleRate, channels)
      ensures capacity == 3 * sampleRate * channels && lastCheck == old(lastCheck)
      ensures ring == if capacity == old(capacity) then old(ring) else []
      ensures rate == if capacity == old(capacity) then old(rate) else sampleRate * channels
    {
      var newCapacity := CapacityFor(sampleRate * channels);
      if newCapacity != capacity {
        ring, capacity := [], newCapacity;
        rate := sampleRate * channels;
      }
    }

    method Skip(n: nat)
      requires Valid() && n <= |ring|
      modifies this
      ensures Valid() && View() == old(View()).(ring := old(ring)[n..])
    {
      ring := ring[n..];
    }

    method PushSliceOverwrite(buffer: seq<Sample>)
      requires Valid()
      modifies this
      ensures Valid() && View() == Appended(old(View()), buffer)
    {
      ring := LastN(ring + buffer, capacity);
    }

    method PopSlice(n: nat) returns (elems: seq<Sample>)
      requires Valid()
      modifies this
      ensures Valid() && View() == Popped(old(View()), n)
      ensures old(ring) == elems + ring && |elems| == (if n <= |old(ring)| then n else |old(ring)|)
    {
      var k := if n <= |ring| then n else |ring|;
      elems := ring[..k];
      ring := ring[k..];
    }

    /** Both branches keep exactly the newest `capacity` samples and report the occupancy. */
    method AppendPcm2(buffer: seq<Sample>) returns (having: nat)
      requires Valid()
      modifies this
      ensures Valid() && View() == Appended(old(View()), buffer)
      ensures having == |ring|
    {
      if |buffer| > capacity {
        PushSliceOverwrite(buffer);
        return capacity;
      }
      var total := |ring| + |buffer|;
      if total > capacity {
        SkipThenPush(View(), buffer);
        Skip(total - capacity);
      }
      PushSliceOverwrite(buffer);
      having := |ring|;
    }

    method TryShrink(having: nat, now: int)
      requires Valid() && rate > 0
      modifies this, histogram
      ensures Valid() && View() == Shrunk(old(View()), having, now)
      ensures var early := old(lastCheck) == 0 || now < old(lastCheck) + 12000;
              && (early ==> ring == old(ring))
              && (early ==> exists b ::
                    0 <= b < BUCKETS && histogram[..] == old(histogram[..])[b := old(histogram[..])[b] + 1])
              && (!early ==> forall b :: 0 <= b < BUCKETS ==> histogram[b] == 0)
              && lastCheck == (if early && old(lastCheck) != 0 then old(lastCheck) else now)
    {
      var i := (having * 10) / rate;
      if i > 29 {
        i := 29;
      }
      histogram[i] := histogram[i] + 1;
      assert histogram[..] == old(histogram[..])[i := old(histogram[..])[i] + 1];
      if lastCheck == 0 {
        lastCheck := now;
        return;
      } else if now < lastCheck + SHRINK_PERIOD_MS {
        return;
      }
      lastCheck := now;
      var zero, max := ScanHistogram(histogram);
      DropBuffered(zero, max);
    }

    /** The tail of the shrink: pick the water mark and drop, unless little is buffered. */
    method DropBuffered(empty: nat, peak: nat)
      requires Valid()
      modifies this
      ensures Valid()
      ensures View() == old(View()).(ring := old(ring)[DropFor(empty, peak, capacity, |old(ring)|)..])
    {
      var zero, max := empty * 2 / 3, peak;
      if max < 6 {
        return;
      } else if max > zero * DIVISOR {
        max := zero * DIVISOR;
      }
      var skip := SamplesAt(capacity, max);
      if |ring| > skip * 3 && skip > 0 {
        Skip(skip);
      }
    }

    method AppendPcm(buffer: seq<Sample>, now: int)
      requires Valid() && rate > 0
      modifies this, histogram
      ensures Valid()
      ensures var s := Appended(old(View()), buffer); View() == Shrunk(s, |s.ring|, now)
    {
      var having := AppendPcm2(buffer);
      TryShrink(having, now);
    }
  }

  // ---------------------------------------------------------------- whole runs

  /** An occupancy that was recorded, with the sample rate in force at that moment. */
  datatype Occupancy = Occupancy(having: nat, rate: nat)

  /**
   The buffer with the occupancies recorded since the histogram was last cleared, and the occupancy that an append
   has left and its shrink is about to record.
   */
  datatype Traced = Traced(s: State, log: seq<Occupancy>, pending: Option<nat>)

  /** Appending, shrinking and resizing belong to one thread, which shrinks after each append; popping to another. */
  datatype Step =
    | Append(buffer: seq<Sample>)
    | Shrink(now: int)
    | Resize(sampleRate: nat, channels: nat)
    | Pop(n: nat)

  function Start(): Traced {
    Traced(Initial(), [], None)
  }

  /** A shrink is due, and does not panic: a zero rate would make it divide by zero. */
  predicate Due(t: Traced) {
    t.pending.Some? && t.s.rate > 0 && |t.s.histogram| == BUCKETS
  }

  predicate Enabled(t: Traced, step: Step) {
    match step
    case Append(_) => t.pending.None?
    case Shrink(_) => Due(t)
    case Resize(_, _) => t.pending.None?
    case Pop(_) => true
  }

  predicate ClearsHistogram(s: State, now: int) {
    s.lastCheck != 0 && now >= s.lastCheck + SHRINK_PERIOD_MS
  }

  /** Everything recorded since the last clear, the shrink that is due included. */
  function Recorded(t: Traced): seq<Occupancy>
    requires Due(t)
  {
    t.log + [Occupancy(t.pending.value, t.s.rate)]
  }

  function Next(t: Traced, step: Step): Traced
    requires Enabled(t, step)
  {
    match step
    case Append(buffer) => var s := Appended(t.s, buffer); t.(s := s, pending := Some(|s.ring|))
    case Resize(sampleRate, channels) => t.(s := Resized(t.s, sampleRate, channels))
    case Pop(n) => t.(s := Popped(t.s, n))
    case Shrink(now) =>
      Traced(Shrunk(t.s, t.pending.value, now), if ClearsHistogram(t.s, now) then [] else Recorded(t), None)
  }

  /** `t'` is reached from `t` by the steps, none of which panics. */
  ghost predicate Reaches(t: Traced, steps: seq<Step>, t': Traced)
    decreases |steps|
  {
    if steps == [] then t' == t
    else Enabled(t, steps[0]) && Reaches(Next(t, steps[0]), steps[1..], t')
  }

  function Tally(log: seq<Occupancy>, bucket: nat): nat
    requires forall e :: e in log ==> e.rate > 0
  {
    if log == [] then 0
    else
      var e := log[|log| - 1];
      Tally(log[..|log| - 1], bucket) + if BucketOf(e.having, e.rate) == bucket then 1 else 0
  }

  /**
   The ring, and everything recorded, is bounded by three seconds of samples; the histogram is the tally of the
   log.
   */
  ghost predicate Consistent(t: Traced) {
    && t.s.capacity == 3 * t.s.rate
    && |t.s.ring| <= t.s.capacity
    && (t.pending.Some? ==> t.pending.value <= t.s.capacity)
    && |t.s.histogram| == BUCKETS
    && (forall e :: e in t.log ==> e.rate > 0 && e.having <= 3 * e.rate)
    && (forall b :: 0 <= b < BUCKETS ==> t.s.histogram[b] == Tally(t.log, b))
  }

  lemma NextKeepsConsistent(t: Traced, step: Step)
    requires Consistent(t) && Enabled(t, step)
    ensures Consistent(Next(t, step))
  {
    if step.Shrink? {
      assert Recorded(t)[..|t.log|] == t.log;
    }
  }

  lemma {:induction false} RunKeepsConsistent(t: Traced, steps: seq<Step>, t': Traced)
    requires Consistent(t) && Reaches(t, steps, t')
    ensures Consistent(t')
    decreases |steps|
  {
    if steps != [] {
      NextKeepsConsistent(t, steps[0]);
      RunKeepsConsistent(Next(t, steps[0]), steps[1..], t');
    }
  }

  lemma InitialConsistent()
    ensures Consistent(Start())
  {
  }

  /** A bucket that tallies an entry of the log is not empty. */
  lemma {:induction false} LoggedBucketNotEmpty(log: seq<Occupancy>, e: Occupancy)
    requires forall o :: o in log ==> o.rate > 0
    requires e in log
    ensures Tally(log, BucketOf(e.having, e.rate)) > 0
  {
    if log[|log| - 1] != e {
      LoggedBucketNotEmpty(log[..|log| - 1], e);
    }
  }

  lemma SkipAgainstZero(zero: nat, max: nat, skip: nat, rate: nat)
    requires max <= zero * DIVISOR && skip <= 3 * rate * max / (BUCKETS * DIVISOR) + 1
    ensures 10 * (skip - 1) <= zero * rate
  {
    var m := rate * max;
    assert 3 * rate * max == 3 * m;
    MulMonotone(max, 4 * zero, rate);
    assert max * rate == m;
    var zr := zero * rate;
    assert 4 * zero * rate == 4 * zr;
  }

  lemma ZeroAgainstOccupancy(z: nat, zero: nat, rate: nat, e: Occupancy)
    requires zero == z * 2 / 3 && z * e.rate <= e.having * 10
    ensures 3 * (zero * rate * e.rate) <= 20 * (e.having * rate)
  {
    var re := rate * e.rate;
    MulMonotone(3 * zero, 2 * z, re);
    Regroup(zero, rate, e.rate);
    Regroup(z, rate, e.rate);
    MulMonotone(z * e.rate, e.having * 10, rate);
    Regroup(e.having, 10, rate);
    assert 3 * zero * re == 3 * (zero * re) && 2 * z * re == 2 * (z * re);
  }

  lemma Regroup(a: nat, b: nat, c: nat)
    ensures a * b * c == a * (b * c) && a * c * b == a * (b * c)
  {
    assert a * b * c == a * (b * c);
    assert a * c * b == a * (c * b);
    assert c * b == b * c;
  }

  /** The arithmetic of one drop: `z` leading empty buckets bound the drop against any occupancy above them. */
  lemma DropArithmetic(z: nat, zero: nat, max: nat, skip: nat, rate: nat, e: Occupancy)
    requires zero == z * 2 / 3 && max <= zero * DIVISOR
    requires skip <= 3 * rate * max / (BUCKETS * DIVISOR) + 1
    requires z * e.rate <= e.having * 10
    ensures 3 * (skip - 1) * e.rate <= 2 * e.having * rate
  {
    SkipAgainstZero(zero, max, skip, rate);
    ZeroAgainstOccupancy(z, zero, rate, e);
    MulMonotone(10 * (skip - 1), zero * rate, e.rate);
    var x, y := (skip - 1) * e.rate, e.having * rate;
    assert 10 * (skip - 1) * e.rate == 10 * x;
    assert 3 * (skip - 1) * e.rate == 3 * x;
    assert 2 * e.having * rate == 2 * y;
  }

  /** The samples that the due shrink drops. */
  function Dropped(t: Traced, now: int): int
    requires Due(t)
  {
    |t.s.ring| - |Shrunk(t.s, t.pending.value, now).ring|
  }

  /** What a shrink of a reachable state drops is decided by a histogram that tallies the log. */
  lemma {:induction false} DropFromLog(t: Traced, now: int) returns (h: seq<nat>)
    requires Consistent(t) && Due(t) && Dropped(t, now) > 0
    ensures ClearsHistogram(t.s, now) && |h| == BUCKETS
    ensures forall b :: 0 <= b < BUCKETS ==> h[b] == Tally(Recorded(t), b)
    ensures Dropped(t, now) == DropCount(h, 3 * t.s.rate, |t.s.ring|)
  {
    h := DueHistogram(t, now);
  }

  /** The empty prefix ends before the bucket of anything recorded. */
  lemma PrefixBelowRecorded(log: seq<Occupancy>, h: seq<nat>, e: Occupancy)
    requires |h| == BUCKETS && (forall o :: o in log ==> o.rate > 0) && e in log
    requires forall b :: 0 <= b < BUCKETS ==> h[b] == Tally(log, b)
    ensures EmptyPrefix(h, BUCKETS) <= BucketOf(e.having, e.rate)
  {
    LoggedBucketNotEmpty(log, e);
    EmptyPrefixMeaning(h, BUCKETS);
  }

  /**
   In any reachable state, a drop takes an even number of samples, leaves more than twice as many,
   and measured in time it is at most two thirds of every occupancy recorded since the histogram was
   cleared, one sample aside. A resize in between does no harm.
   */
  lemma DropBounded(steps: seq<Step>, t: Traced, now: int, e: Occupancy)
    requires Reaches(Start(), steps, t) && Due(t) && e in Recorded(t)
    ensures var skip := Dropped(t, now);
            skip > 0 ==>
              && skip % 2 == 0
              && |Next(t, Shrink(now)).s.ring| > 2 * skip
              && 3 * (skip - 1) * e.rate <= 2 * e.having * t.s.rate
  {
    InitialConsistent();
    RunKeepsConsistent(Start(), steps, t);
    if Dropped(t, now) > 0 {
      var h := DropFromLog(t, now);
      PrefixBelowRecorded(Recorded(t), h, e);
      TimeBound(EmptyPrefix(h, BUCKETS), Peak(h, BUCKETS), t.s.rate, |t.s.ring|, e);
    }
  }

  lemma TimeBound(empty: nat, peak: nat, rate: nat, having: nat, e: Occupancy)
    requires e.rate > 0 && empty <= BucketOf(e.having, e.rate)
    ensures var skip := DropFor(empty, peak, 3 * rate, having);
            skip > 0 ==> 3 * (skip - 1) * e.rate <= 2 * e.having * rate
  {
    var skip := DropFor(empty, peak, 3 * rate, having);
    if skip > 0 {
      MulMonotone(empty, BucketOf(e.having, e.rate), e.rate);
      var zero := empty * 2 / 3;
      DropArithmetic(empty, zero, if peak > zero * DIVISOR then zero * DIVISOR else peak, skip, rate, e);
    }
  }

  /**
   The drop in numbers: `empty` leading buckets of the tally are empty, `peak` is the least of the fullest buckets
   from the second on, and `skip` the even number of samples for the lower of the peak and four times two thirds of the
   empty ones, in fortieths of the rate.
   */
  lemma {:induction false} DropInNumbers(t: Traced, now: int, empty: nat, peak: nat, skip: nat)
    requires Consistent(t) && Due(t) && t.s.lastCheck != 0 && now >= t.s.lastCheck + 12000
    requires empty < 30 && Tally(Recorded(t), empty) > 0 && forall b :: 0 <= b < empty ==> Tally(Recorded(t), b) == 0
    requires 1 <= peak < 30 && Tally(Recorded(t), peak) > 0
    requires forall b :: 1 <= b < peak ==> Tally(Recorded(t), b) < Tally(Recorded(t), peak)
    requires forall b :: peak < b < 30 ==> Tally(Recorded(t), b) <= Tally(Recorded(t), peak)
    requires var level := if peak < 4 * (2 * empty / 3) then peak else 4 * (2 * empty / 3);
             skip % 2 == 0 && skip <= t.s.rate * level / 40 + 1 < skip + 2
    ensures Dropped(t, now) == if peak >= 6 && |t.s.ring| > 3 * skip then skip else 0
  {
    var h := DueHistogram(t, now);
    WaterMarks(h, Recorded(t), empty, peak);
    DropForInNumbers(empty, peak, t.s.rate, |t.s.ring|, skip);
  }

  /** The histogram that a due check reads. */
  lemma {:induction false} DueHistogram(t: Traced, now: int) returns (h: seq<nat>)
    requires Consistent(t) && Due(t) && ClearsHistogram(t.s, now)
    ensures |h| == BUCKETS && forall b :: 0 <= b < BUCKETS ==> h[b] == Tally(Recorded(t), b)
    ensures Dropped(t, now) == DropCount(h, 3 * t.s.rate, |t.s.ring|)
  {
    assert Recorded(t)[..|t.log|] == t.log;
    var b := BucketOf(t.pending.value, t.s.rate);
    h := t.s.histogram[b := t.s.histogram[b] + 1];
  }

  lemma WaterMarks(h: seq<nat>, log: seq<Occupancy>, empty: nat, peak: nat)
    requires |h| == BUCKETS && (forall o :: o in log ==> o.rate > 0)
    requires forall b :: 0 <= b < BUCKETS ==> h[b] == Tally(log, b)
    requires empty < 30 && Tally(log, empty) > 0 && forall b :: 0 <= b < empty ==> Tally(log, b) == 0
    requires 1 <= peak < 30 && Tally(log, peak) > 0
    requires forall b :: 1 <= b < peak ==> Tally(log, b) < Tally(log, peak)
    requires forall b :: peak < b < 30 ==> Tally(log, b) <= Tally(log, peak)
    ensures EmptyPrefix(h, BUCKETS) == empty && Peak(h, BUCKETS) == peak
  {
    EmptyPrefixMeaning(h, BUCKETS);
    PeakMeaning(h, BUCKETS);
    PeakIsUnique(h, BUCKETS, Peak(h, BUCKETS), peak);
    var z := EmptyPrefix(h, BUCKETS);
    assert z < BUCKETS ==> h[z] != 0;
    assert h[empty] != 0;
  }

  lemma DropForInNumbers(empty: nat, peak: nat, rate: nat, having: nat, skip: nat)
    requires var level := if peak < 4 * (2 * empty / 3) then peak else 4 * (2 * empty / 3);
             skip % 2 == 0 && skip <= rate * level / 40 + 1 < skip + 2
    ensures DropFor(empty, peak, 3 * rate, having) == if peak >= 6 && having > 3 * skip then skip else 0
  {
    var level := if peak < 4 * (2 * empty / 3) then peak else 4 * (2 * empty / 3);
    InFortieths(rate, level);
    assert SamplesAt(3 * rate, level) == skip;
  }

  lemma InFortieths(rate: nat, level: nat)
    ensures 3 * rate * level / 120 == rate * level / 40
  {
    assert 3 * rate * level == 3 * (rate * level);
  }

  // ---------------------------------------------------------------- the period of the checks

  /** The due shrink leaves an empty histogram. */
  predicate Empties(t: Traced, now: int)
    requires Due(t)
  {
    var h := Next(t, Shrink(now)).s.histogram;
    |h| == BUCKETS && forall b :: 0 <= b < BUCKETS ==> h[b] == 0
  }

  lemma EmptiesExactly(t: Traced, now: int)
    requires Due(t)
    ensures Empties(t, now) <==> t.s.lastCheck != 0 && now >= t.s.lastCheck + 12000
    ensures Empties(t, now) || t.s.lastCheck == 0 ==> Next(t, Shrink(now)).s.lastCheck == now
  {
    var b := BucketOf(t.pending.value, t.s.rate);
    if !ClearsHistogram(t.s, now) {
      assert Next(t, Shrink(now)).s.histogram[b] > 0;
    }
  }

  lemma {:induction false} CheckTimeGrows(t: Traced, steps: seq<Step>, t': Traced)
    requires Reaches(t, steps, t') && t.s.lastCheck > 0
    ensures t'.s.lastCheck >= t.s.lastCheck
    decreases |steps|
  {
    if steps != [] {
      CheckTimeGrows(Next(t, steps[0]), steps[1..], t');
    }
  }

  /** In any run, two shrinks that empty the histogram are at least twelve seconds apart, whatever happens in between. */
  lemma EmptyingsAreApart(t: Traced, now: int, steps: seq<Step>, t': Traced, now': int)
    requires Due(t) && Empties(t, now) && now > 0
    requires Reaches(Next(t, Shrink(now)), steps, t') && Due(t') && Empties(t', now')
    ensures now' >= now + 12000
  {
    EmptiesExactly(t, now);
    CheckTimeGrows(Next(t, Shrink(now)), steps, t');
    EmptiesExactly(t', now');
  }

  /** A shrink within twelve seconds of one that emptied the histogram only adds one to one bucket. */
  lemma EarlyShrinkOnlyRecords(t: Traced, now: int, steps: seq<Step>, t': Traced, now': int)
    requires Due(t) && Empties(t, now) && now > 0
    requires Reaches(Next(t, Shrink(now)), steps, t') && Due(t') && now' < now + 12000
    ensures var s' := Next(t', Shrink(now')).s;
            && s'.ring == t'.s.ring && s'.lastCheck == t'.s.lastCheck
            && s'.capacity == t'.s.capacity && s'.rate == t'.s.rate
            && exists b :: 0 <= b < BUCKETS && s'.histogram == t'.s.histogram[b := t'.s.histogram[b] + 1]
  {
    EmptiesExactly(t, now);
    CheckTimeGrows(Next(t, Shrink(now)), steps, t');
    var b := BucketOf(t'.pending.value, t'.s.rate);
    assert Next(t', Shrink(now')).s.histogram == t'.s.histogram[b := t'.s.histogram[b] + 1];
  }

  /** No shrink of these steps empties the histogram. */
  ghost predicate NoneEmpties(t: Traced, steps: seq<Step>)
    decreases |steps|
  {
    steps == [] ||
    (Enabled(t, steps[0]) && (steps[0].Shrink? ==> !Empties(t, steps[0].now))
     && NoneEmpties(Next(t, steps[0]), steps[1..]))
  }

  lemma {:induction false} CheckTimeStays(t: Traced, steps: seq<Step>, t': Traced)
    requires Reaches(t, steps, t') && NoneEmpties(t, steps) && t.s.lastCheck != 0
    ensures t'.s.lastCheck == t.s.lastCheck
    decreases |steps|
  {
    if steps != [] {
      if steps[0].Shrink? {
        EmptiesExactly(t, steps[0].now);
      }
      CheckTimeStays(Next(t, steps[0]), steps[1..], t');
    }
  }

  lemma {:induction false} NoCheckYet(t: Traced, steps: seq<Step>, t': Traced)
    requires Reaches(t, steps, t') && t.s.lastCheck == 0 && forall step :: step in steps ==> !step.Shrink?
    ensures t'.s.lastCheck == 0
    decreases |steps|
  {
    if steps != [] {
      assert steps[0] in steps;
      NoCheckYet(Next(t, steps[0]), steps[1..], t');
    }
  }

  /**
   The first shrink of a run only starts the clock. After it, or after one that emptied the histogram, the next to
   empty it is exactly the first one that is at least twelve seconds later.
   */
  lemma NextEmptyingExactly(before: seq<Step>, t: Traced, now: int, steps: seq<Step>, t': Traced, now': int)
    requires Reaches(Start(), before, t) && Due(t) && now != 0
    requires (forall step :: step in before ==> !step.Shrink?) || Empties(t, now)
    requires var next := Next(t, Shrink(now)); Reaches(next, steps, t') && NoneEmpties(next, steps) && Due(t')
    ensures (forall step :: step in before ==> !step.Shrink?) ==> !Empties(t, now)
    ensures Empties(t', now') <==> now' >= now + 12000
  {
    if forall step :: step in before ==> !step.Shrink? {
      NoCheckYet(Start(), before, t);
    }
    EmptiesExactly(t, now);
    CheckTimeStays(Next(t, Shrink(now)), steps, t');
    EmptiesExactly(t', now');
  }

  // ---------------------------------------------------------------- first in, first out

  /** What was appended since the ring was last replaced, after one more step. */
  function StreamNext(t: Traced, step: Step, stream: seq<Sample>): seq<Sample> {
    match step
    case Append(buffer) => stream + buffer
    case Resize(sampleRate, channels) => if 3 * (sampleRate * channels) == t.s.capacity then stream else []
    case _ => stream
  }

  function Stream(t: Traced, steps: seq<Step>, stream: seq<Sample>): seq<Sample>
    decreases |steps|
  {
    if steps == [] || !Enabled(t, steps[0]) then stream
    else Stream(Next(t, steps[0]), steps[1..], StreamNext(t, steps[0], stream))
  }

  ghost predicate IsSuffix(ring: seq<Sample>, stream: seq<Sample>) {
    |ring| <= |stream| && ring == stream[|stream| - |ring|..]
  }

  lemma {:induction false} SuffixAfterAppend(s: State, buffer: seq<Sample>, stream: seq<Sample>)
    requires IsSuffix(s.ring, stream)
    ensures IsSuffix(Appended(s, buffer).ring, stream + buffer)
  {
    AppendKeepsNewest(s, buffer);
    assert s.ring + buffer == (stream + buffer)[|stream| - |s.ring|..];
  }

  lemma {:induction false} SuffixOfSuffix(ring: seq<Sample>, k: nat, stream: seq<Sample>)
    requires IsSuffix(ring, stream) && k <= |ring|
    ensures IsSuffix(ring[k..], stream)
  {
  }

  lemma {:induction false} ShrinkDropsOldest(t: Traced, now: int)
    requires Due(t)
    ensures 0 <= Dropped(t, now) <= |t.s.ring| && Next(t, Shrink(now)).s.ring == t.s.ring[Dropped(t, now)..]
  {
  }

  lemma {:induction false} NextKeepsSuffix(t: Traced, step: Step, stream: seq<Sample>)
    requires IsSuffix(t.s.ring, stream) && Enabled(t, step)
    ensures IsSuffix(Next(t, step).s.ring, StreamNext(t, step, stream))
  {
    match step
    case Append(buffer) => SuffixAfterAppend(t.s, buffer, stream);
    case Resize(_, _) =>
    case Shrink(now) =>
      ShrinkDropsOldest(t, now);
      SuffixOfSuffix(t.s.ring, Dropped(t, now), stream);
    case Pop(n) => SuffixOfSuffix(t.s.ring, if n <= |t.s.ring| then n else |t.s.ring|, stream);
  }

  /** In every run the ring is the newest part of what was appended: samples leave it oldest first. */
  lemma {:induction false} RingIsNewestPart(t: Traced, steps: seq<Step>, t': Traced, stream: seq<Sample>)
    requires IsSuffix(t.s.ring, stream) && Reaches(t, steps, t')
    ensures IsSuffix(t'.s.ring, Stream(t, steps, stream))
    decreases |steps|
  {
    if steps != [] {
      NextKeepsSuffix(t, steps[0], stream);
      RingIsNewestPart(Next(t, steps[0]), steps[1..], t', StreamNext(t, steps[0], stream));
    }
  }

  // ---------------------------------------------------------------- the bound counted in samples

  /** The least occupancy that reaches a bucket. */
  function Least(bucket: nat, rate: nat): nat {
    (bucket * rate + 9) / 10
  }

  /**
   The most that a drop takes behind so many empty buckets: the ring full, and the highest level the most
   frequent.
   */
  function LargestDrop(empty: nat, rate: nat): nat {
    DropFor(empty, BUCKETS - 1, 3 * rate, 3 * rate)
  }

  /**
   For some bucket, the largest drop behind it exceeds two thirds of the least occupancy in it, recorded at the
   other rate.
   */
  predicate Overtakes(recorded: nat, current: nat) {
    exists e :: 0 <= e < BUCKETS && Exceeds(recorded, current, e)
  }

  predicate Exceeds(recorded: nat, current: nat, e: nat) {
    3 * (LargestDrop(e, current) - 1) > 2 * Least(e, recorded)
  }

  /**
   Sample for sample, whatever a run drops is at most two thirds of everything recorded at that rate since the
   last clear.
   */
  ghost predicate SampleBound(recorded: nat, current: nat) {
    forall steps, t, now :: Reaches(Start(), steps, t) && Due(t) && t.s.rate == current ==> DropWithin(t, now, recorded)
  }

  ghost predicate DropWithin(t: Traced, now: int, recorded: nat)
    requires Due(t)
  {
    forall e :: e in Recorded(t) && e.rate == recorded && Dropped(t, now) > 0 ==>
      3 * (Dropped(t, now) - 1) <= 2 * e.having
  }

  lemma SamplesMonotone(capacity: nat, a: nat, b: nat)
    requires a <= b
    ensures SamplesAt(capacity, a) <= SamplesAt(capacity, b)
  {
    MulMonotone(a, b, capacity);
    assert capacity * a == a * capacity && capacity * b == b * capacity;
  }

  lemma DropAtMostLargest(empty: nat, peak: nat, rate: nat, having: nat)
    requires peak < BUCKETS && having <= 3 * rate
    ensures DropFor(empty, peak, 3 * rate, having) <= LargestDrop(empty, rate)
  {
    var zero := empty * 2 / 3;
    var max := if peak > zero * DIVISOR then zero * DIVISOR else peak;
    var most := if 29 > zero * DIVISOR then zero * DIVISOR else 29;
    SamplesMonotone(3 * rate, max, most);
    SamplesMonotone(3 * rate, most, 29);
    assert SamplesAt(3 * rate, 29) <= 87 * rate / 120 + 1;
  }

  lemma LeastReaches(bucket: nat, having: nat, rate: nat)
    requires rate > 0 && bucket <= BucketOf(having, rate)
    ensures Least(bucket, rate) <= having
  {
    MulMonotone(bucket, BucketOf(having, rate), rate);
  }

  lemma DropWithinUnlessOvertaken(steps: seq<Step>, t: Traced, now: int, e: Occupancy)
    requires Reaches(Start(), steps, t) && Due(t) && e in Recorded(t) && !Overtakes(e.rate, t.s.rate)
    ensures Dropped(t, now) > 0 ==> 3 * (Dropped(t, now) - 1) <= 2 * e.having
  {
    InitialConsistent();
    RunKeepsConsistent(Start(), steps, t);
    if Dropped(t, now) > 0 {
      var h := DropFromLog(t, now);
      PrefixBelowRecorded(Recorded(t), h, e);
      var empty, peak := EmptyPrefix(h, BUCKETS), Peak(h, BUCKETS);
      DropAtMostLargest(empty, peak, t.s.rate, |t.s.ring|);
      LeastReaches(empty, e.having, e.rate);
      assert !Exceeds(e.rate, t.s.rate, empty);
    }
  }

  /**
   Counted in samples instead of time, the bound holds over every run, resizes included, exactly when the
   current rate does not overtake the recorded one.
   */
  lemma SampleBoundExactly(recorded: nat, current: nat)
    requires recorded > 0 && current > 0
    ensures SampleBound(recorded, current) <==> !Overtakes(recorded, current)
  {
    if Overtakes(recorded, current) {
      var steps, t, e := OvertakingRun(recorded, current);
      assert !DropWithin(t, 20000, recorded);
    } else {
      forall steps, t, now | Reaches(Start(), steps, t) && Due(t) && t.s.rate == current
        ensures DropWithin(t, now, recorded)
      {
        forall e | e in Recorded(t) && e.rate == recorded
          ensures Dropped(t, now) > 0 ==> 3 * (Dropped(t, now) - 1) <= 2 * e.having
        {
          DropWithinUnlessOvertaken(steps, t, now, e);
        }
      }
    }
  }

  /** A rate that did not grow never overtakes; one that grew by more than four samples a second always does. */
  lemma WhichRatesOvertake(recorded: nat, current: nat)
    requires recorded > 0
    ensures current <= recorded ==> !Overtakes(recorded, current)
    ensures current > recorded + 4 ==> Overtakes(recorded, current)
  {
    if current <= recorded {
      forall e | 0 <= e < BUCKETS
        ensures !Exceeds(recorded, current, e)
      {
        SlowerNeverExceeds(recorded, current, e);
      }
    } else if current > recorded + 4 {
      FasterExceeds(recorded, current);
    }
  }

  lemma SlowerNeverExceeds(recorded: nat, current: nat, e: nat)
    requires 0 < recorded && current <= recorded && e < BUCKETS
    ensures !Exceeds(recorded, current, e)
  {
    var skip := LargestDrop(e, current);
    if skip > 0 {
      var having := Least(e, recorded);
      LeastIsEnough(e, recorded);
      TimeBound(e, BUCKETS - 1, current, 3 * current, Occupancy(having, recorded));
      MulMonotone(current, recorded, 2 * having);
      CancelRate(3 * (skip - 1), 2 * having, recorded);
    }
  }

  lemma LeastIsEnough(bucket: nat, rate: nat)
    requires rate > 0 && bucket < BUCKETS
    ensures bucket <= BucketOf(Least(bucket, rate), rate)
  {
    var i := (Least(bucket, rate) * 10) / rate;
    if i < bucket {
      MulMonotone(i + 1, bucket, rate);
    }
  }

  lemma FasterExceeds(recorded: nat, current: nat)
    requires current > recorded + 4
    ensures Overtakes(recorded, current)
  {
    assert 3 * current * 24 / 120 >= (3 * current - 4) / 5;
    assert SamplesAt(3 * current, 24) >= 3 * current * 24 / 120;
    assert LargestDrop(9, current) == SamplesAt(3 * current, 24);
    assert Exceeds(recorded, current, 9);
  }

  /** One more step at the end of a run. */
  lemma {:induction false} ReachesSnoc(t: Traced, steps: seq<Step>, mid: Traced, step: Step)
    requires Reaches(t, steps, mid) && Enabled(mid, step)
    ensures Reaches(t, steps + [step], Next(mid, step))
    decreases |steps|
  {
    if steps == [] {
      assert Reaches(Next(mid, step), [], Next(mid, step));
    } else {
      ReachesSnoc(Next(t, steps[0]), steps[1..], mid, step);
      assert (steps + [step])[1..] == steps[1..] + [step];
    }
  }

  /** Resizing twice, to be sure that the capacity changes, leaves an empty ring at the rate. */
  lemma Emptied(steps: seq<Step>, t: Traced, rate: nat) returns (steps': seq<Step>, t': Traced)
    requires Reaches(Start(), steps, t) && t.pending.None? && t.s.capacity == 3 * t.s.rate
    ensures Reaches(Start(), steps', t')
    ensures t' == t.(s := t.s.(ring := [], capacity := 3 * rate, rate := rate))
  {
    var r, q := Resize(rate + 1, 1), Resize(rate, 1);
    ReachesSnoc(Start(), steps, t, r);
    ReachesSnoc(Start(), steps + [r], Next(t, r), q);
    steps', t' := steps + [r] + [q], Next(Next(t, r), q);
  }

  /** An append fills an empty ring. */
  lemma Filled(steps: seq<Step>, t: Traced, having: nat) returns (steps': seq<Step>, t': Traced)
    requires Reaches(Start(), steps, t) && t.pending.None? && t.s.ring == [] && having <= t.s.capacity
    ensures Reaches(Start(), steps', t') && t'.pending == Some(having) && |t'.s.ring| == having
    ensures t'.log == t.log && t'.s == t.s.(ring := t'.s.ring)
  {
    var buffer := seq(having, i => Sample(Left, 0.0));
    ReachesSnoc(Start(), steps, t, Append(buffer));
    steps', t' := steps + [Append(buffer)], Next(t, Append(buffer));
  }

  /** A run that records these occupancies, each left by an append, early enough for nothing to be cleared. */
  lemma {:induction false} Record(es: seq<Occupancy>) returns (steps: seq<Step>, t: Traced)
    requires forall e :: e in es ==> e.rate > 0 && e.having <= 3 * e.rate
    ensures Reaches(Start(), steps, t) && t.log == es && t.pending.None?
    ensures t.s.capacity == 3 * t.s.rate && |t.s.histogram| == BUCKETS
    ensures t.s.lastCheck == if es == [] then 0 else 1
  {
    if es == [] {
      steps, t := [], Start();
    } else {
      var n := |es| - 1;
      steps, t := Record(es[..n]);
      steps, t := Emptied(steps, t, es[n].rate);
      steps, t := Filled(steps, t, es[n].having);
      ReachesSnoc(Start(), steps, t, Shrink(1));
      steps, t := steps + [Shrink(1)], Next(t, Shrink(1));
      assert es == es[..n] + [es[n]];
    }
  }

  lemma TallySnoc(log: seq<Occupancy>, e: Occupancy, b: nat)
    requires e.rate > 0 && forall o :: o in log ==> o.rate > 0
    ensures Tally(log + [e], b) == Tally(log, b) + if BucketOf(e.having, e.rate) == b then 1 else 0
  {
    assert (log + [e])[..|log|] == log;
  }

  /** One occupancy; then, recorded at a rate of ten, one in a given bucket and two in the last. */
  function FourRecords(a: Occupancy, empty: nat): seq<Occupancy> {
    [a, Occupancy(empty, 10), Occupancy(29, 10), Occupancy(29, 10)]
  }

  lemma TallyOfFour(a: Occupancy, empty: nat, b: nat)
    requires a.rate > 0 && empty < BUCKETS
    ensures Tally(FourRecords(a, empty), b) ==
              (if BucketOf(a.having, a.rate) == b then 1 else 0) + (if empty == b then 1 else 0)
              + (if b == 29 then 2 else 0)
  {
    var e, p := Occupancy(empty, 10), Occupancy(29, 10);
    assert BucketOf(empty, 10) == empty && BucketOf(29, 10) == 29;
    TallySnoc([], a, b);
    TallySnoc([a], e, b);
    TallySnoc([a, e], p, b);
    TallySnoc([a, e, p], p, b);
    assert [] + [a] == [a] && [a] + [e] == [a, e] && [a, e] + [p] == [a, e, p] && [a, e, p] + [p] == [a, e, p, p];
  }

  lemma HighestPeak(h: seq<nat>, empty: nat)
    requires |h| == BUCKETS && empty < BUCKETS
    requires h[empty] > 0 && (forall b :: 0 <= b < empty ==> h[b] == 0)
    requires h[29] >= 3 && forall b :: 0 <= b < 29 ==> h[b] <= 2
    ensures EmptyPrefix(h, BUCKETS) == empty && Peak(h, BUCKETS) == 29
  {
    EmptyPrefixMeaning(h, BUCKETS);
    PeakMeaning(h, BUCKETS);
    PeakIsUnique(h, BUCKETS, Peak(h, BUCKETS), 29);
  }

  /** With the ring full again after the four records, the due shrink makes the largest drop. */
  lemma FullDrop(t: Traced, a: Occupancy, empty: nat)
    requires Consistent(t) && Due(t) && a.rate > 0
    requires |t.s.ring| == 3 * t.s.rate && t.s.lastCheck == 1 && t.pending == Some(3 * t.s.rate)
    requires t.log == FourRecords(a, empty) && empty <= BucketOf(a.having, a.rate)
    ensures Dropped(t, 20000) == LargestDrop(empty, t.s.rate)
  {
    LastBucket(t.s.rate);
    var h := t.s.histogram[29 := t.s.histogram[29] + 1];
    forall b | 0 <= b < BUCKETS
      ensures t.s.histogram[b] == (if BucketOf(a.having, a.rate) == b then 1 else 0)
                                  + (if empty == b then 1 else 0) + (if b == 29 then 2 else 0)
    {
      TallyOfFour(a, empty, b);
    }
    HighestPeak(h, empty);
    assert Shrunk(t.s, 3 * t.s.rate, 20000).ring == t.s.ring[DropCount(h, t.s.capacity, |t.s.ring|)..];
  }

  lemma LastBucket(rate: nat)
    requires rate > 0
    ensures BucketOf(3 * rate, rate) == 29
  {
    var i := (3 * rate * 10) / rate;
    if i < 30 {
      MulMonotone(i + 1, 30, rate);
    }
  }

  /** Every pair of rates where the current one overtakes has a run that breaks the bound. */
  lemma OvertakingRun(recorded: nat, current: nat) returns (steps: seq<Step>, t: Traced, e: Occupancy)
    requires recorded > 0 && current > 0 && Overtakes(recorded, current)
    ensures Reaches(Start(), steps, t) && Due(t) && t.s.rate == current
    ensures e in Recorded(t) && e.rate == recorded
    ensures Dropped(t, 20000) > 0 && 3 * (Dropped(t, 20000) - 1) > 2 * e.having
  {
    var empty :| 0 <= empty < BUCKETS && Exceeds(recorded, current, empty);
    e := Occupancy(Least(empty, recorded), recorded);
    MulMonotone(empty, 29, recorded);
    steps, t := Record(FourRecords(e, empty));
    steps, t := Emptied(steps, t, current);
    steps, t := Filled(steps, t, 3 * current);
    assert t.log[0] == e;
    InitialConsistent();
    RunKeepsConsistent(Start(), steps, t);
    LeastIsEnough(empty, recorded);
    FullDrop(t, e, empty);
  }

  /**
   A drop happens only on a due check whose most frequent occupancy was at least 600 ms and which never
   recorded less than 200 ms, and takes at most a quarter of the most frequent level, one sample aside.
   */
  lemma DropNeedsBacklog(steps: seq<Step>, t: Traced, now: int) returns (b: nat)
    requires Reaches(Start(), steps, t) && Due(t) && Dropped(t, now) > 0
    ensures ClearsHistogram(t.s, now) && Consistent(t)
    ensures var log := Recorded(t);
            && 6 <= b < BUCKETS && Tally(log, b) > 0
            && (forall c :: 0 <= c < BUCKETS ==> Tally(log, c) <= Tally(log, b))
            && Tally(log, 0) == 0 == Tally(log, 1)
    ensures 40 * (Dropped(t, now) - 1) <= b * t.s.rate
  {
    InitialConsistent();
    RunKeepsConsistent(Start(), steps, t);
    var h := DropFromLog(t, now);
    b := Peak(h, BUCKETS);
    PeakMeaning(h, BUCKETS);
    EmptyPrefixMeaning(h, BUCKETS);
    PeakBoundsDrop(EmptyPrefix(h, BUCKETS), b, t.s.rate, |t.s.ring|);
  }

  lemma SamplesWithin(rate: nat, max: nat)
    ensures 40 * (SamplesAt(3 * rate, max) - 1) <= rate * max
  {
    var m := rate * max;
    assert 3 * rate * max == 3 * m;
  }

  lemma PeakBoundsDrop(empty: nat, peak: nat, rate: nat, having: nat)
    ensures var skip := DropFor(empty, peak, 3 * rate, having);
            skip > 0 ==> peak >= 6 && empty >= 2 && 40 * (skip - 1) <= peak * rate
  {
    var zero := empty * 2 / 3;
    var max := if peak > zero * DIVISOR then zero * DIVISOR else peak;
    SamplesWithin(rate, max);
    MulMonotone(max, peak, rate);
    assert max * rate == rate * max;
    if zero == 0 {
      assert SamplesAt(3 * rate, 0) == 0;
    }
  }

  lemma CancelRate(a: int, b: int, c: nat)
    requires c > 0 && a * c <= b * c
    ensures a <= b
  {
    assert (b - a) * c >= 0;
  }

  // ---------------------------------------------------------------- stereo phase

  /** Whole stereo frames: even length, left samples on even positions. */
  ghost predicate Interleaved(s: seq<Sample>) {
    && |s| % 2 == 0
    && forall i :: 0 <= i < |s| ==> s[i].channel == if i % 2 == 0 then Left else Right
  }

  ghost predicate StereoStep(step: Step) {
    match step
    case Append(buffer) => Interleaved(buffer)
    case Resize(_, channels) => channels == 2
    case Pop(n) => n % 2 == 0
    case Shrink(_) => true
  }

  lemma InterleavedDrop(s: seq<Sample>, k: nat)
    requires Interleaved(s) && k <= |s| && k % 2 == 0
    ensures Interleaved(s[k..])
  {
    forall i | 0 <= i < |s| - k
      ensures s[k..][i].channel == if i % 2 == 0 then Left else Right
    {
      assert s[k..][i] == s[k + i];
      assert (k + i) % 2 == i % 2;
    }
  }

  lemma InterleavedConcat(a: seq<Sample>, b: seq<Sample>)
    requires Interleaved(a) && Interleaved(b)
    ensures Interleaved(a + b)
  {
    forall i | 0 <= i < |a| + |b|
      ensures (a + b)[i].channel == if i % 2 == 0 then Left else Right
    {
      if i >= |a| {
        assert (a + b)[i] == b[i - |a|];
        assert (i - |a|) % 2 == i % 2;
      }
    }
  }

  lemma StereoAppend(s: State, buffer: seq<Sample>)
    requires Interleaved(s.ring) && s.capacity % 2 == 0 && Interleaved(buffer)
    ensures Interleaved(Appended(s, buffer).ring)
  {
    InterleavedConcat(s.ring, buffer);
    var all := s.ring + buffer;
    if |all| > s.capacity {
      InterleavedDrop(all, |all| - s.capacity);
    }
  }

  lemma StereoResize(s: State, sampleRate: nat)
    requires Interleaved(s.ring) && s.capacity % 2 == 0
    ensures Interleaved(Resized(s, sampleRate, 2).ring) && Resized(s, sampleRate, 2).capacity % 2 == 0
  {
    assert CapacityFor(sampleRate * 2) == 6 * sampleRate;
  }

  lemma StereoPop(s: State, n: nat)
    requires Interleaved(s.ring) && n % 2 == 0
    ensures Interleaved(Popped(s, n).ring)
  {
    InterleavedDrop(s.ring, if n <= |s.ring| then n else |s.ring|);
  }

  lemma StereoShrink(s: State, having: nat, now: int)
    requires Interleaved(s.ring) && s.rate > 0 && |s.histogram| == BUCKETS
    ensures Interleaved(Shrunk(s, having, now).ring)
  {
    var b := BucketOf(having, s.rate);
    var h := s.histogram[b := s.histogram[b] + 1];
    InterleavedDrop(s.ring, DropCount(h, s.capacity, |s.ring|));
  }

  lemma StereoNext(t: Traced, step: Step)
    requires Enabled(t, step) && StereoStep(step)
    requires Interleaved(t.s.ring) && t.s.capacity % 2 == 0
    ensures Interleaved(Next(t, step).s.ring) && Next(t, step).s.capacity % 2 == 0
  {
    match step
    case Append(buffer) => StereoAppend(t.s, buffer);
    case Resize(sampleRate, channels) => StereoResize(t.s, sampleRate);
    case Pop(n) => StereoPop(t.s, n);
    case Shrink(now) => StereoShrink(t.s, t.pending.value, now);
  }

  /** Two-channel runs of append, shrink, resize and pop keep the head of the ring on a left sample. */
  lemma {:induction false} StereoPhase(t: Traced, steps: seq<Step>, t': Traced)
    requires Interleaved(t.s.ring) && t.s.capacity % 2 == 0
    requires Reaches(t, steps, t')
    requires forall step :: step in steps ==> StereoStep(step)
    ensures Interleaved(t'.s.ring) && t'.s.capacity % 2 == 0
    ensures t'.s.ring != [] ==> t'.s.ring[0].channel == Left
    decreases |steps|
  {
    if steps != [] {
      StereoNext(t, steps[0]);
      StereoPhase(Next(t, steps[0]), steps[1..], t');
    }
  }
}
