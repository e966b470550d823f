/**
 The online query: the server answers a list of ids with one bit for each, most significant bit first.
 */
module OnlineStates {

  import opened Common

  type Byte = bv8

  /** The bit that stands for position `k` of a byte. */
  function Mask(k: nat): Byte
    requires k < 8
  {
    (1 as bv8) << (7 - k)
  }

  predicate BitOf(states: seq<Byte>, i: nat)
    requires i / 8 < |states|
  {
    states[i / 8] & Mask(i % 8) == Mask(i % 8)
  }

  /** The ids whose position satisfies the predicate, in their order. */
  function Select(ids: seq<string>, states: seq<Byte>, online: bool): (r: seq<string>)
    requires |ids| <= 8 * |states|
  {
    if ids == [] then []
    else
      var n := |ids| - 1;
      var init := Select(ids[..n], states, online);
      if BitOf(states, n) == online then init + [ids[n]] else init
  }

  /** Decoding; an answer with too few bytes makes the indexing panic. */
  method QueryOnlineStates(ids: seq<string>, states: seq<Byte>) returns (r: Option<(seq<string>, seq<string>)>)
    ensures r.None? <==> |ids| > 8 * |states|
    ensures r.Some? ==> r.value == (Select(ids, states, true), Select(ids, states, false))
  {
    var onlines, offlines := [], [];
    for i := 0 to |ids|
      invariant i <= 8 * |states|
      invariant onlines == Select(ids[..i], states, true)
      invariant offlines == Select(ids[..i], states, false)
    {
      if i / 8 >= |states| {
        return None;
      }
      assert ids[..i + 1][..i] == ids[..i];
      var bitValue := Mask(i % 8);
      if states[i / 8] & bitValue == bitValue {
        onlines := onlines + [ids[i]];
      } else {
        offlines := offlines + [ids[i]];
      }
    }
    assert ids[..|ids|] == ids;
    return Some((onlines, offlines));
  }

  // ---------------------------------------------------------------- partition

  /** `w` is a shuffle of `a` and `b`: each keeps its order. */
  ghost predicate Shuffle(a: seq<string>, b: seq<string>, w: seq<string>)
    decreases |w|
  {
    if w == [] then a == [] && b == []
    else
      var x := w[|w| - 1];
      || (a != [] && a[|a| - 1] == x && Shuffle(a[..|a| - 1], b, w[..|w| - 1]))
      || (b != [] && b[|b| - 1] == x && Shuffle(a, b[..|b| - 1], w[..|w| - 1]))
  }

  /** The two lists partition the queried ids and keep their order. */
  lemma {:induction false} OrderPreservingPartition(ids: seq<string>, states: seq<Byte>)
    requires |ids| <= 8 * |states|
    ensures Shuffle(Select(ids, states, true), Select(ids, states, false), ids)
  {
    if ids != [] {
      var n := |ids| - 1;
      OrderPreservingPartition(ids[..n], states);
      var on, off := Select(ids[..n], states, true), Select(ids[..n], states, false);
      ShuffleSnoc(on, off, ids[..n], ids[n]);
      assert ids == ids[..n] + [ids[n]];
    }
  }

  lemma ShuffleSnoc(a: seq<string>, b: seq<string>, w: seq<string>, x: string)
    requires Shuffle(a, b, w)
    ensures Shuffle(a + [x], b, w + [x]) && Shuffle(a, b + [x], w + [x])
  {
    assert (a + [x])[..|a|] == a && (b + [x])[..|b|] == b && (w + [x])[..|w|] == w;
  }

  /** A shuffle loses and invents nothing. */
  lemma {:induction false} ShuffleConserves(a: seq<string>, b: seq<string>, w: seq<string>)
    requires Shuffle(a, b, w)
    ensures multiset(w) == multiset(a) + multiset(b)
    decreases |w|
  {
    if w != [] {
      var n := |w| - 1;
      assert w == w[..n] + [w[n]];
      if a != [] && a[|a| - 1] == w[n] && Shuffle(a[..|a| - 1], b, w[..n]) {
        ShuffleConserves(a[..|a| - 1], b, w[..n]);
        assert a == a[..|a| - 1] + [w[n]];
      } else {
        ShuffleConserves(a, b[..|b| - 1], w[..n]);
        assert b == b[..|b| - 1] + [w[n]];
      }
    }
  }

  // ---------------------------------------------------------------- re-encoding

  function Pack(b0: bool, b1: bool, b2: bool, b3: bool, b4: bool, b5: bool, b6: bool, b7: bool): Byte {
    (if b0 then 128 else 0) | (if b1 then 64 else 0) | (if b2 then 32 else 0) | (if b3 then 16 else 0)
    | (if b4 then 8 else 0) | (if b5 then 4 else 0) | (if b6 then 2 else 0) | (if b7 then 1 else 0)
  }

  function EncodeByte(f: nat -> bool): Byte {
    Pack(f(0), f(1), f(2), f(3), f(4), f(5), f(6), f(7))
  }

  /** The server's encoding of who is online. */
  function Encode(ids: seq<string>, onlines: seq<string>, bytes: nat): (r: seq<Byte>)
    ensures |r| == bytes
  {
    seq(bytes, j requires 0 <= j < bytes =>
      EncodeByte((k: nat) => 8 * j + k < |ids| && ids[8 * j + k] in onlines))
  }

  lemma MaskValues(k: nat)
    requires k < 8
    ensures Mask(k) == if k == 0 then 128 else if k == 1 then 64 else if k == 2 then 32 else if k == 3 then 16
                       else if k == 4 then 8 else if k == 5 then 4 else if k == 6 then 2 else 1
  {
    if k == 0 {
    } else if k == 1 {
    } else if k == 2 {
    } else if k == 3 {
    } else if k == 4 {
    } else if k == 5 {
    } else if k == 6 {
    } else {
      assert k == 7;
    }
  }

  lemma PackedBits(b0: bool, b1: bool, b2: bool, b3: bool, b4: bool, b5: bool, b6: bool, b7: bool)
    ensures var p := Pack(b0, b1, b2, b3, b4, b5, b6, b7);
            && (p & 128 == 128 <==> b0) && (p & 64 == 64 <==> b1) && (p & 32 == 32 <==> b2) && (p & 16 == 16 <==> b3)
            && (p & 8 == 8 <==> b4) && (p & 4 == 4 <==> b5) && (p & 2 == 2 <==> b6) && (p & 1 == 1 <==> b7)
  {
  }

  lemma EncodedBit(f: nat -> bool, k: nat)
    requires k < 8
    ensures (EncodeByte(f) & Mask(k) == Mask(k)) <==> f(k)
  {
    var p := EncodeByte(f);
    assert (p & 128 == 128 <==> f(0)) && (p & 64 == 64 <==> f(1)) && (p & 32 == 32 <==> f(2)) && (p & 16 == 16 <==> f(3))
           && (p & 8 == 8 <==> f(4)) && (p & 4 == 4 <==> f(5)) && (p & 2 == 2 <==> f(6)) && (p & 1 == 1 <==> f(7)) by {
      PackedBits(f(0), f(1), f(2), f(3), f(4), f(5), f(6), f(7));
    }
    MaskedBit(p, k, f);
  }

  lemma MaskedBit(p: Byte, k: nat, f: nat -> bool)
    requires k < 8
    requires (p & 128 == 128 <==> f(0)) && (p & 64 == 64 <==> f(1)) && (p & 32 == 32 <==> f(2)) && (p & 16 == 16 <==> f(3))
    requires (p & 8 == 8 <==> f(4)) && (p & 4 == 4 <==> f(5)) && (p & 2 == 2 <==> f(6)) && (p & 1 == 1 <==> f(7))
    ensures (p & Mask(k) == Mask(k)) <==> f(k)
  {
    MaskValues(k);
  }

  lemma {:induction false} SelectedExactly(ids: seq<string>, states: seq<Byte>, i: nat)
    requires |ids| <= 8 * |states| && i < |ids|
    requires forall a, b :: 0 <= a < b < |ids| ==> ids[a] != ids[b]
    ensures ids[i] in Select(ids, states, true) <==> BitOf(states, i)
    ensures forall x :: x in Select(ids, states, true) ==> x in ids
  {
    var n := |ids| - 1;
    SelectedFromIds(ids, states);
    SelectedFromIds(ids[..n], states);
    if i < n {
      SelectedExactly(ids[..n], states, i);
      assert ids[..n][i] == ids[i];
    } else {
      assert ids[n] !in ids[..n];
    }
  }

  lemma {:induction false} SelectedFromIds(ids: seq<string>, states: seq<Byte>)
    requires |ids| <= 8 * |states|
    ensures forall x :: x in Select(ids, states, true) ==> x in ids
  {
    if ids != [] {
      var n := |ids| - 1;
      SelectedFromIds(ids[..n], states);
      assert ids == ids[..n] + [ids[n]];
    }
  }

  /** For distinct ids, encoding the decoded list gives back every bit that was asked for. */
  lemma ReEncoding(ids: seq<string>, states: seq<Byte>, i: nat)
    requires |ids| <= 8 * |states| && i < |ids|
    requires forall a, b :: 0 <= a < b < |ids| ==> ids[a] != ids[b]
    ensures BitOf(Encode(ids, Select(ids, states, true), |states|), i) <==> BitOf(states, i)
  {
    var onlines := Select(ids, states, true);
    var j, k := i / 8, i % 8;
    assert i == 8 * j + k;
    EncodedBit((k: nat) => 8 * j + k < |ids| && ids[8 * j + k] in onlines, k);
    SelectedExactly(ids, states, i);
  }
}
