/**
 Clipboard synchronisation between any number of machines: an owner mark on every clipboard that was
 set from the network, change notifications, checks that send, and messages in flight.

 The operating system keeps the owner format with the clipboard and fires one notification for each
 change. Reading and setting a clipboard may fail. `wire` is whatever the conversion to the wire
 format and back does to a content.
 */
module ClipboardSync {

  import opened Common

  datatype Format = Html | Rtf | ImageRgba | ImagePng | ImageSvg

  datatype Data =
    | Text(text: string)
    | Rich(format: Format, payload: seq<bv8>)
    | FileUrl(urls: seq<string>)
    | Special(name: string, bytes: seq<bv8>)

  type Content = seq<Data>

  const OWNER_FORMAT := "dyn.com.rustdesk.owner"

  datatype Side = Host | Client

  function OwnerData(side: Side): seq<bv8> {
    match side
    case Host => [1]
    case Client => [2]
  }

  predicate IsOwner(bytes: seq<bv8>) {
    |bytes| > 0 && bytes[0] & 3 != 0
  }

  predicate IsMark(c: Data) {
    c.Special? && c.name == OWNER_FORMAT && IsOwner(c.bytes)
  }

  predicate Marked(data: Content) {
    exists i :: 0 <= i < |data| && IsMark(data[i])
  }

  /** What a check lets through: neither the owner format nor an empty text. */
  predicate Sendable(c: Data) {
    match c
    case Special(name, _) => name != OWNER_FORMAT
    case Text(text) => text != ""
    case _ => true
  }

  function Visible(data: Content): (r: Content)
    ensures forall c :: c in r <==> c in data && Sendable(c)
  {
    if data == [] then []
    else
      var init := Visible(data[..|data| - 1]);
      var last := data[|data| - 1];
      assert data == data[..|data| - 1] + [last];
      if Sendable(last) then init + [last] else init
  }

  /** The order of the content is kept. */
  lemma {:induction false} VisibleConcat(a: Content, b: Content)
    ensures Visible(a + b) == Visible(a) + Visible(b)
  {
    if b == [] {
      assert a + b == a;
    } else {
      var n := |b| - 1;
      assert (a + b)[..|a + b| - 1] == a + b[..n];
      VisibleConcat(a, b[..n]);
    }
  }

  /** The content without empty texts and without the owner format. */
  function Bare(data: Content): Content {
    Filter((c: Data) => c != Text("") && !(c.Special? && c.name == "dyn.com.rustdesk.owner"), data)
  }

  lemma {:induction false} VisibleIsFilter(data: Content)
    ensures Visible(data) == Bare(data)
  {
    if data != [] {
      VisibleIsFilter(data[..|data| - 1]);
    }
  }

  /** The first byte of the owner format tells the host, the client, or neither. */
  ghost predicate Owned(data: Content) {
    exists i :: 0 <= i < |data| && data[i].Special? && data[i].name == "dyn.com.rustdesk.owner"
                && |data[i].bytes| > 0 && LowBit(data[i].bytes[0])
  }

  lemma MarkedExactly(data: Content)
    ensures Marked(data) <==> Owned(data)
  {
    forall i | 0 <= i < |data| && data[i].Special? && |data[i].bytes| > 0
      ensures data[i].bytes[0] & 3 != 0 <==> LowBit(data[i].bytes[0])
    {
      LowBits(data[i].bytes[0]);
    }
    if Marked(data) {
      var i :| 0 <= i < |data| && IsMark(data[i]);
      assert LowBit(data[i].bytes[0]);
    }
    if Owned(data) {
      var i :| 0 <= i < |data| && data[i].Special? && data[i].name == "dyn.com.rustdesk.owner"
               && |data[i].bytes| > 0 && LowBit(data[i].bytes[0]);
      assert IsMark(data[i]);
    }
  }

  predicate LowBit(b: bv8) {
    b & 1 == 1 || b & 2 == 2
  }

  lemma LowBits(b: bv8)
    ensures b & 3 != 0 <==> LowBit(b)
  {
  }

  predicate HasFiles(data: Content) {
    exists i :: 0 <= i < |data| && data[i].FileUrl?
  }

  /** What a check of this clipboard sends, or nothing. */
  function Outgoing(data: Content, force: bool): Content {
    var d := if !force && Marked(data) then [] else Visible(data);
    if HasFiles(d) then [] else d
  }

  /** No files, and no owner format that names an owner. */
  ghost predicate FreeToSend(data: Content) {
    !Owned(data) && forall i :: 0 <= i < |data| ==> !data[i].FileUrl?
  }

  /** What a check sends of a copy that is free to be sent; of any other it sends nothing. */
  lemma FreeCopyGoesOut(data: Content)
    ensures FreeToSend(data) ==> Outgoing(data, false) == Bare(data)
    ensures !FreeToSend(data) ==> Outgoing(data, false) == []
  {
    VisibleIsFilter(data);
    MarkedExactly(data);
    if FreeToSend(data) {
      assert forall i :: 0 <= i < |Visible(data)| ==> Visible(data)[i] in data;
    } else if !Marked(data) {
      var i :| 0 <= i < |data| && data[i].FileUrl?;
      assert data[i] in Visible(data);
    }
  }

  function WithMark(data: Content, side: Side): (r: Content)
    ensures Marked(r)
  {
    var r := data + [Special(OWNER_FORMAT, OwnerData(side))];
    assert IsMark(r[|data|]);
    r
  }

  // ---------------------------------------------------------------- one machine, imperatively

  class ClipboardContext {
    var clipboard: Content
    var lastMultiClipboards: Content

    method GetFormatsFilter(force: bool) returns (r: Content)
      ensures r == if !force && Marked(clipboard) then [] else Visible(clipboard)
      ensures r == if !force && Owned(clipboard) then [] else Bare(clipboard)
    {
      VisibleIsFilter(clipboard);
      MarkedExactly(clipboard);
      var data := clipboard;
      if data == [] {
        return [];
      }
      if !force {
        for i := 0 to |data|
          invariant forall j :: 0 <= j < i ==> !IsMark(data[j])
        {
          if IsMark(data[i]) {
            return [];
          }
        }
      }
      r := [];
      for i := 0 to |data|
        invariant r == Visible(data[..i])
      {
        assert data[..i + 1][..i] == data[..i];
        if Sendable(data[i]) {
          r := r + [data[i]];
        }
      }
      assert data[..|data|] == data;
    }

    method Get(force: bool) returns (r: Content)
      ensures r == Outgoing(clipboard, force)
      ensures !force ==> r == if FreeToSend(clipboard) then Bare(clipboard) else []
    {
      FreeCopyGoesOut(clipboard);
      r := GetFormatsFilter(force);
      for i := 0 to |r|
        invariant forall j :: 0 <= j < i ==> !r[j].FileUrl?
      {
        if r[i].FileUrl? {
          return [];
        }
      }
    }

    /** The content to send, if any; it is also cached for peers that connect later. */
    method CheckClipboard(readable: bool) returns (msg: Option<Content>)
      modifies this`lastMultiClipboards
      ensures msg == if readable && Outgoing(clipboard, false) != [] then Some(Outgoing(clipboard, false)) else None
      ensures lastMultiClipboards == if msg.Some? then msg.value else old(lastMultiClipboards)
      ensures readable && FreeToSend(clipboard) ==>
                var kept := Bare(clipboard);
                msg == if kept == [] then None else Some(kept)
      ensures !readable || !FreeToSend(clipboard) ==> msg == None
    {
      FreeCopyGoesOut(clipboard);
      if !readable {
        return None;
      }
      var content := Get(false);
      if content != [] {
        lastMultiClipboards := content;
        return Some(content);
      }
      return None;
    }

    method UpdateClipboard(data: Content, side: Side, settable: bool)
      modifies this`clipboard
      ensures clipboard ==
                if data != [] && settable
                then data + [Special("dyn.com.rustdesk.owner", [if side.Host? then 1 else 2])] else old(clipboard)
    {
      if data == [] {
        return;
      }
      var toUpdate := data + [Special(OWNER_FORMAT, OwnerData(side))];
      if settable {
        clipboard := toUpdate;
      }
    }
  }

  // ---------------------------------------------------------------- the protocol

  /** `copied` is the history of everything the user put on this clipboard. */
  datatype Machine = Machine(clipboard: Content, pending: nat, copied: set<Content>)

  datatype Message = Message(to: nat, content: Content)

  /** `sent` is the history of sends: the sender and the content. */
  datatype System = System(machines: seq<Machine>, flight: seq<Message>, sent: seq<(nat, Content)>)

  datatype Step =
    | UserCopy(m: nat, data: Content)
    | Check(m: nat, readable: bool)
    | Deliver(i: nat, side: Side, settable: bool)
    | Lose(i: nat)

  /** The fixed surroundings: who is connected to whom, and the wire conversion. */
  datatype Net = Net(peers: seq<seq<nat>>, wire: Content -> Content)

  ghost predicate WellFormed(net: Net, sys: System) {
    && |net.peers| == |sys.machines|
    && (forall m, j :: 0 <= m < |net.peers| && 0 <= j < |net.peers[m]| ==> net.peers[m][j] < |sys.machines|)
    && (forall i :: 0 <= i < |sys.flight| ==> sys.flight[i].to < |sys.machines|)
  }

  predicate Enabled(sys: System, step: Step) {
    match step
    case UserCopy(m, _) => m < |sys.machines|
    case Check(m, _) => m < |sys.machines| && sys.machines[m].pending > 0
    case Deliver(i, _, _) => i < |sys.flight|
    case Lose(i) => i < |sys.flight|
  }

  /** This check sends. */
  predicate Sends(sys: System, step: Step)
    requires Enabled(sys, step)
  {
    step.Check? && step.readable && Outgoing(sys.machines[step.m].clipboard, false) != []
  }

  function FanOut(to: seq<nat>, content: Content): (r: seq<Message>)
    ensures |r| == |to|
    ensures forall j :: 0 <= j < |to| ==> r[j] == Message(to[j], content)
  {
    seq(|to|, j requires 0 <= j < |to| => Message(to[j], content))
  }

  function Next(net: Net, sys: System, step: Step): System
    requires Enabled(sys, step)
    requires |net.peers| == |sys.machines|
    requires forall i :: 0 <= i < |sys.flight| ==> sys.flight[i].to < |sys.machines|
  {
    match step
    case UserCopy(m, data) =>
      var k := sys.machines[m];
      sys.(machines := sys.machines[m := Machine(data, k.pending + 1, k.copied + {data})])
    case Check(m, _) =>
      var k := sys.machines[m];
      var s := sys.(machines := sys.machines[m := k.(pending := k.pending - 1)]);
      if Sends(sys, step) then
        var content := Outgoing(k.clipboard, false);
        s.(flight := sys.flight + FanOut(net.peers[m], content), sent := sys.sent + [(m, content)])
      else s
    case Deliver(i, side, settable) =>
      var msg := sys.flight[i];
      var s := sys.(flight := RemoveAt(sys.flight, i));
      var data := net.wire(msg.content);
      if data != [] && settable then
        var k := sys.machines[msg.to];
        s.(machines := sys.machines[msg.to := k.(clipboard := WithMark(data, side), pending := k.pending + 1)])
      else s
    case Lose(i) => sys.(flight := RemoveAt(sys.flight, i))
  }

  lemma NextWellFormed(net: Net, sys: System, step: Step)
    requires WellFormed(net, sys) && Enabled(sys, step)
    ensures WellFormed(net, Next(net, sys, step))
  {
    var sys' := Next(net, sys, step);
    match step
    case Deliver(i, _, _) =>
      assert forall j :: 0 <= j < |sys'.flight| ==> sys'.flight[j] in sys.flight;
    case Lose(i) =>
      assert forall j :: 0 <= j < |sys'.flight| ==> sys'.flight[j] in sys.flight;
    case _ =>
  }

  ghost predicate Reaches(net: Net, sys: System, steps: seq<Step>, sys': System)
    requires WellFormed(net, sys)
    decreases |steps|
  {
    if steps == [] then sys' == sys
    else
      Enabled(sys, steps[0]) &&
      (NextWellFormed(net, sys, steps[0]);
       Reaches(net, Next(net, sys, steps[0]), steps[1..], sys'))
  }

  // ---------------------------------------------------------------- no ping-pong

  /** Notifications that can still make this machine send, if nothing more is copied. */
  function Charge(k: Machine): nat {
    if Outgoing(k.clipboard, false) != [] then k.pending else 0
  }

  function Charges(machines: seq<Machine>): nat {
    if machines == [] then 0 else Charges(machines[..|machines| - 1]) + Charge(machines[|machines| - 1])
  }

  /** Pending notifications on machines whose clipboard carries no owner mark. */
  function UnmarkedPending(machines: seq<Machine>): nat {
    if machines == [] then 0
    else
      var k := machines[|machines| - 1];
      UnmarkedPending(machines[..|machines| - 1]) + if Marked(k.clipboard) then 0 else k.pending
  }

  function AllPending(machines: seq<Machine>): nat {
    if machines == [] then 0 else AllPending(machines[..|machines| - 1]) + machines[|machines| - 1].pending
  }

  lemma {:induction false} SumsAfterUpdate(machines: seq<Machine>, m: nat, k: Machine)
    requires m < |machines|
    ensures Charges(machines[m := k]) == Charges(machines) - Charge(machines[m]) + Charge(k)
    ensures AllPending(machines[m := k]) == AllPending(machines) - machines[m].pending + k.pending
  {
    var n := |machines| - 1;
    if m == n {
      assert machines[m := k][..n] == machines[..n];
    } else {
      assert machines[m := k][..n] == machines[..n][m := k];
      SumsAfterUpdate(machines[..n], m, k);
    }
  }

  lemma {:induction false} ChargesAtMostUnmarked(machines: seq<Machine>)
    ensures Charges(machines) <= UnmarkedPending(machines)
  {
    if machines != [] {
      ChargesAtMostUnmarked(machines[..|machines| - 1]);
    }
  }

  function SendCount(sys: System, sys': System): int {
    |sys'.sent| - |sys.sent|
  }

  /** A step other than a user copy pays for its send with one unit of charge. */
  lemma SendPaysCharge(net: Net, sys: System, step: Step)
    requires WellFormed(net, sys) && Enabled(sys, step) && !step.UserCopy?
    ensures var sys' := Next(net, sys, step);
            Charges(sys'.machines) + SendCount(sys, sys') <= Charges(sys.machines)
  {
    match step
    case Check(m, _) =>
      SumsAfterUpdate(sys.machines, m, sys.machines[m].(pending := sys.machines[m].pending - 1));
    case Deliver(i, side, _) =>
      var to := sys.flight[i].to;
      var k := sys.machines[to].(
        clipboard := WithMark(net.wire(sys.flight[i].content), side), pending := sys.machines[to].pending + 1);
      SumsAfterUpdate(sys.machines, to, k);
    case Lose(_) =>
  }

  /**
   No ping-pong: once user copies stop, the checks that send are at most the notifications then
   pending on machines whose clipboard has something to send, hence on machines without an owner mark.
   */
  lemma {:induction false} SendsAreBounded(net: Net, sys: System, steps: seq<Step>, sys': System)
    requires WellFormed(net, sys) && Reaches(net, sys, steps, sys')
    requires forall step :: step in steps ==> !step.UserCopy?
    ensures SendCount(sys, sys') <= Charges(sys.machines) - Charges(sys'.machines)
    ensures SendCount(sys, sys') <= UnmarkedPending(sys.machines)
    decreases |steps|
  {
    ChargesAtMostUnmarked(sys.machines);
    if steps != [] {
      NextWellFormed(net, sys, steps[0]);
      SendPaysCharge(net, sys, steps[0]);
      SendsAreBounded(net, Next(net, sys, steps[0]), steps[1..], sys');
    }
  }

  /** The bound is met: checking every chargeable machine until its notifications are gone sends that often. */
  lemma {:induction false} BoundIsAttained(net: Net, sys: System) returns (steps: seq<Step>, sys': System)
    requires WellFormed(net, sys)
    ensures Reaches(net, sys, steps, sys')
    ensures forall step :: step in steps ==> !step.UserCopy?
    ensures SendCount(sys, sys') == Charges(sys.machines)
    decreases Charges(sys.machines)
  {
    if Charges(sys.machines) == 0 {
      steps, sys' := [], sys;
    } else {
      var m := ChargedMachine(sys.machines);
      var step := Check(m, true);
      NextWellFormed(net, sys, step);
      var mid := Next(net, sys, step);
      SumsAfterUpdate(sys.machines, m, sys.machines[m].(pending := sys.machines[m].pending - 1));
      var rest;
      rest, sys' := BoundIsAttained(net, mid);
      steps := [step] + rest;
      assert steps[1..] == rest;
    }
  }

  lemma {:induction false} ChargedMachine(machines: seq<Machine>) returns (m: nat)
    requires Charges(machines) > 0
    ensures m < |machines| && Charge(machines[m]) > 0
  {
    var n := |machines| - 1;
    if Charge(machines[n]) > 0 {
      m := n;
    } else {
      m := ChargedMachine(machines[..n]);
    }
  }

  lemma {:induction false} ChargeOfOne(machines: seq<Machine>, m: nat)
    requires m < |machines|
    ensures Charge(machines[m]) <= Charges(machines)
  {
    if m < |machines| - 1 {
      ChargeOfOne(machines[..|machines| - 1], m);
    }
  }

  lemma {:induction false} NothingPending(machines: seq<Machine>)
    requires forall i :: 0 <= i < |machines| ==> machines[i].pending == 0
    ensures Charges(machines) == 0
  {
    if machines != [] {
      NothingPending(machines[..|machines| - 1]);
    }
  }

  lemma {:induction false} NothingIsSent(net: Net, sys: System, steps: seq<Step>, sys': System)
    requires WellFormed(net, sys) && Reaches(net, sys, steps, sys') && Charges(sys.machines) == 0
    requires forall step :: step in steps ==> !step.UserCopy?
    ensures sys'.sent == sys.sent
    decreases |steps|
  {
    if steps != [] {
      NextWellFormed(net, sys, steps[0]);
      SendPaysCharge(net, sys, steps[0]);
      if steps[0].Check? {
        ChargeOfOne(sys.machines, steps[0].m);
      }
      NothingIsSent(net, Next(net, sys, steps[0]), steps[1..], sys');
    }
  }

  /** Machine `m` alone has something to send, once: the copied data. */
  ghost predicate OneSendLeft(sys: System, m: nat, data: Content) {
    && Charges(sys.machines) <= 1
    && forall i :: 0 <= i < |sys.machines| && Charge(sys.machines[i]) > 0 ==> i == m && sys.machines[i].clipboard == data
  }

  lemma NextKeepsOneSend(net: Net, sys: System, m: nat, data: Content, step: Step)
    requires WellFormed(net, sys) && Enabled(sys, step) && !step.UserCopy? && OneSendLeft(sys, m, data)
    ensures var sys' := Next(net, sys, step);
            if Sends(sys, step) then Charges(sys'.machines) == 0 && sys'.sent == sys.sent + [(m, Outgoing(data, false))]
            else OneSendLeft(sys', m, data) && sys'.sent == sys.sent
  {
    SendPaysCharge(net, sys, step);
    if Sends(sys, step) {
      assert Charge(sys.machines[step.m]) > 0;
    }
  }

  lemma {:induction false} SentOnce(net: Net, sys: System, m: nat, data: Content, steps: seq<Step>, sys': System)
    requires WellFormed(net, sys) && Reaches(net, sys, steps, sys') && OneSendLeft(sys, m, data)
    requires forall step :: step in steps ==> !step.UserCopy?
    ensures sys'.sent == sys.sent
            || (Outgoing(data, false) != [] && sys'.sent == sys.sent + [(m, Outgoing(data, false))])
    decreases |steps|
  {
    if steps != [] {
      NextWellFormed(net, sys, steps[0]);
      NextKeepsOneSend(net, sys, m, data, steps[0]);
      if Sends(sys, steps[0]) {
        assert Charge(sys.machines[steps[0].m]) > 0;
        NothingIsSent(net, Next(net, sys, steps[0]), steps[1..], sys');
      } else {
        SentOnce(net, Next(net, sys, steps[0]), m, data, steps[1..], sys');
      }
    }
  }

  /**
   One copy where no notification is pending is sent at most once, as it was copied and by the machine it was copied on,
   however the machines check and deliver afterwards and whatever is still in flight.
   */
  lemma {:induction false} OneCopyIsSentOnce(net: Net, sys: System, m: nat, data: Content, steps: seq<Step>,
          sys': System)
    requires WellFormed(net, sys) && forall i :: 0 <= i < |sys.machines| ==> sys.machines[i].pending == 0
    requires steps != [] && steps[0] == UserCopy(m, data) && Reaches(net, sys, steps, sys')
    requires forall step :: step in steps[1..] ==> !step.UserCopy?
    ensures sys'.sent == sys.sent
            || (FreeToSend(data) && Bare(data) != [] && sys'.sent == sys.sent + [(m, Bare(data))])
  {
    var copied := Next(net, sys, steps[0]);
    NextWellFormed(net, sys, steps[0]);
    NothingPending(sys.machines);
    SumsAfterUpdate(sys.machines, m, copied.machines[m]);
    SentOnce(net, copied, m, data, steps[1..], sys');
    FreeCopyGoesOut(data);
  }

  // ---------------------------------------------------------------- the network falls silent

  /** An upper bound on all further activity, for machines with at most `f` peers each. */
  function Activity(f: nat, sys: System): nat {
    Charges(sys.machines) * (2 * f) + 2 * |sys.flight| + AllPending(sys.machines)
  }

  /** Traffic grows only by the fan-out of a send. */
  lemma TrafficAccounts(net: Net, f: nat, sys: System, step: Step)
    requires WellFormed(net, sys) && Enabled(sys, step) && !step.UserCopy?
    requires forall m :: 0 <= m < |net.peers| ==> |net.peers[m]| <= f
    ensures var sys' := Next(net, sys, step);
            2 * |sys'.flight| + AllPending(sys'.machines)
            < 2 * |sys.flight| + AllPending(sys.machines) + if SendCount(sys, sys') == 1 then 2 * f else 0
    ensures 0 <= SendCount(sys, Next(net, sys, step)) <= 1
  {
    var sys' := Next(net, sys, step);
    match step
    case Check(m, _) =>
      SumsAfterUpdate(sys.machines, m, sys.machines[m].(pending := sys.machines[m].pending - 1));
    case Deliver(i, side, _) =>
      var to := sys.flight[i].to;
      SumsAfterUpdate(sys.machines, to, sys'.machines[to]);
    case Lose(_) =>
  }

  lemma ActivityDecreases(net: Net, f: nat, sys: System, step: Step)
    requires WellFormed(net, sys) && Enabled(sys, step) && !step.UserCopy?
    requires forall m :: 0 <= m < |net.peers| ==> |net.peers[m]| <= f
    ensures Activity(f, Next(net, sys, step)) < Activity(f, sys)
  {
    var sys' := Next(net, sys, step);
    SendPaysCharge(net, sys, step);
    TrafficAccounts(net, f, sys, step);
    ActivityArithmetic(Charges(sys.machines), Charges(sys'.machines), f, SendCount(sys, sys'),
                       2 * |sys.flight| + AllPending(sys.machines), 2 * |sys'.flight| + AllPending(sys'.machines));
  }

  lemma ActivityArithmetic(c: nat, c': nat, f: nat, sends: int, x: nat, x': nat)
    requires 0 <= sends <= 1 && c' + sends <= c && x' < x + if sends == 1 then 2 * f else 0
    ensures c' * (2 * f) + x' < c * (2 * f) + x
  {
    MulMonotone(c' + sends, c, 2 * f);
    assert (c' + 1) * (2 * f) == c' * (2 * f) + 2 * f;
  }

  /** Once user copies stop, no schedule of checks, deliveries and losses goes on for ever. */
  lemma {:induction false} NetworkFallsSilent(net: Net, f: nat, sys: System, steps: seq<Step>, sys': System)
    requires WellFormed(net, sys) && Reaches(net, sys, steps, sys')
    requires forall m :: 0 <= m < |net.peers| ==> |net.peers[m]| <= f
    requires forall step :: step in steps ==> !step.UserCopy?
    ensures |steps| <= Activity(f, sys)
    decreases |steps|
  {
    if steps != [] {
      NextWellFormed(net, sys, steps[0]);
      ActivityDecreases(net, f, sys, steps[0]);
      NetworkFallsSilent(net, f, Next(net, sys, steps[0]), steps[1..], sys');
    }
  }

  // ---------------------------------------------------------------- what travels

  /** A readable check puts a free copy, item by item, on its way to every peer; of any other it sends nothing. */
  lemma FreeCopyReachesEveryPeer(net: Net, sys: System, m: nat)
    requires WellFormed(net, sys) && Enabled(sys, Check(m, true))
    ensures var data := sys.machines[m].clipboard; var n := |sys.flight|;
            var sys' := Next(net, sys, Check(m, true));
            var kept := Bare(data);
            if FreeToSend(data) && kept != [] then
              && sys'.flight[..n] == sys.flight && |sys'.flight| == n + |net.peers[m]|
              && (forall j :: 0 <= j < |net.peers[m]| ==> sys'.flight[n + j] == Message(net.peers[m][j], kept))
              && sys'.sent == sys.sent + [(m, kept)]
            else
              sys'.flight == sys.flight && sys'.sent == sys.sent
    ensures Next(net, sys, Check(m, false)).flight == sys.flight
  {
    FreeCopyGoesOut(sys.machines[m].clipboard);
  }

  /** A delivery that works puts the content on the receiver's clipboard, with a mark behind it, and notifies. */
  lemma DeliveredContentIsMarked(net: Net, sys: System, i: nat, side: Side)
    requires WellFormed(net, sys) && i < |sys.flight| && net.wire(sys.flight[i].content) != []
    ensures var msg := sys.flight[i]; var sys' := Next(net, sys, Deliver(i, side, true));
            var k := sys'.machines[msg.to];
            && k.clipboard == net.wire(msg.content)
                              + [Special("dyn.com.rustdesk.owner", [if side.Host? then 1 else 2])]
            && k.pending == sys.machines[msg.to].pending + 1 && k.copied == sys.machines[msg.to].copied
            && !FreeToSend(k.clipboard)
            && |sys'.machines| == |sys.machines|
            && forall m :: 0 <= m < |sys.machines| && m != msg.to ==> sys'.machines[m] == sys.machines[m]
  {
    var msg := sys.flight[i];
    var k := Next(net, sys, Deliver(i, side, true)).machines[msg.to];
    MarkedExactly(k.clipboard);
  }

  // ---------------------------------------------------------------- only user content is sent

  /** A clipboard without the mark was put there by the user; everything sent is what a copy lets through. */
  ghost predicate Honest(sys: System) {
    && (forall m :: 0 <= m < |sys.machines| && !Marked(sys.machines[m].clipboard) ==>
          sys.machines[m].clipboard in sys.machines[m].copied)
    && (forall i :: 0 <= i < |sys.sent| ==> SentFromCopy(sys, sys.sent[i]))
  }

  ghost predicate SentFromCopy(sys: System, s: (nat, Content)) {
    && s.0 < |sys.machines|
    && exists data :: data in sys.machines[s.0].copied && s.1 == Outgoing(data, false) && !Marked(data)
  }

  lemma SentFromCopyPersists(net: Net, sys: System, step: Step, s: (nat, Content))
    requires WellFormed(net, sys) && Enabled(sys, step) && SentFromCopy(sys, s)
    ensures SentFromCopy(Next(net, sys, step), s)
  {
    var data :| data in sys.machines[s.0].copied && s.1 == Outgoing(data, false) && !Marked(data);
    assert data in Next(net, sys, step).machines[s.0].copied;
  }

  lemma NextKeepsHonest(net: Net, sys: System, step: Step)
    requires WellFormed(net, sys) && Enabled(sys, step) && Honest(sys)
    ensures Honest(Next(net, sys, step))
  {
    var sys' := Next(net, sys, step);
    forall i | 0 <= i < |sys'.sent|
      ensures SentFromCopy(sys', sys'.sent[i])
    {
      if i < |sys.sent| {
        SentFromCopyPersists(net, sys, step, sys.sent[i]);
      } else {
        assert !Marked(sys.machines[step.m].clipboard);
        assert sys.machines[step.m].clipboard in sys'.machines[step.m].copied;
      }
    }
  }

  /** In every run, user copies included, whatever a machine sends was copied by its own user. */
  lemma {:induction false} RunKeepsHonest(net: Net, sys: System, steps: seq<Step>, sys': System)
    requires WellFormed(net, sys) && Reaches(net, sys, steps, sys') && Honest(sys)
    ensures Honest(sys')
    decreases |steps|
  {
    if steps != [] {
      NextWellFormed(net, sys, steps[0]);
      NextKeepsHonest(net, sys, steps[0]);
      RunKeepsHonest(net, Next(net, sys, steps[0]), steps[1..], sys');
    }
  }

  /** Every machine starts with what its user put on the clipboard, and nothing on the way. */
  function Start(contents: seq<Content>): System {
    System(seq(|contents|, m requires 0 <= m < |contents| => Machine(contents[m], 0, {contents[m]})), [], [])
  }

  /**
   From such a start, in every run, every content ever sent is what its sender's user copied, as a check lets it
   through.
   */
  lemma EverySendWasCopied(net: Net, contents: seq<Content>, steps: seq<Step>, sys: System)
    requires WellFormed(net, Start(contents)) && Reaches(net, Start(contents), steps, sys)
    ensures forall i :: 0 <= i < |sys.sent| ==> SentFromCopy(sys, sys.sent[i])
  {
    assert Honest(Start(contents));
    RunKeepsHonest(net, Start(contents), steps, sys);
  }
}
