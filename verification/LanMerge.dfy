/**
 LAN discovery: merging the responses of one discovery round into the stored list of peers.
 Two entries are the same peer when id and user name agree; the set of responders is kept by id only.
 */
module LanMerge {

  import opened Common

  type Addresses = map<string, string>

  datatype Peer = Peer(id: string, username: string, hostname: string, platform: string, online: bool, ipMac: Addresses)

  type Key = (string, string)

  function KeyOf(p: Peer): Key {
    (p.id, p.username)
  }

  /** The list of peers and the ids heard so far. */
  datatype State = State(peers: seq<Peer>, responded: set<string>)

  // ---------------------------------------------------------------- specification of the loop body

  /** The first entry that is the same peer. */
  function Position(peers: seq<Peer>, k: Key): (r: Option<nat>)
    ensures r.Some? ==> r.value < |peers| && KeyOf(peers[r.value]) == k
    ensures r.Some? ==> forall i :: 0 <= i < r.value ==> KeyOf(peers[i]) != k
    ensures r.None? ==> forall i :: 0 <= i < |peers| ==> KeyOf(peers[i]) != k
  {
    if peers == [] then None
    else if KeyOf(peers[0]) == k then Some(0)
    else
      match Position(peers[1..], k)
      case None => None
      case Some(i) =>
        assert forall j :: 1 <= j < |peers| ==> peers[j] == peers[1..][j - 1];
        Some(i + 1)
  }

  /** A repeated response is merged with what the list has for the peer. */
  function Combined(p: Peer, known: Peer): Peer {
    p.(ipMac := p.ipMac + known.ipMac, online := true)
  }

  function Received(s: State, p: Peer): State {
    var again := p.id in s.responded;
    var pos := Position(s.peers, KeyOf(p));
    var rest := if pos.Some? then RemoveAt(s.peers, pos.value) else s.peers;
    var entry := if pos.Some? && again then Combined(p, s.peers[pos.value]) else p;
    State([entry] + rest, s.responded + {p.id})
  }

  function Offline(stored: seq<Peer>): (r: seq<Peer>)
    ensures |r| == |stored|
    ensures forall i :: 0 <= i < |r| ==> r[i] == stored[i].(online := false)
  {
    seq(|stored|, i requires 0 <= i < |stored| => stored[i].(online := false))
  }

  function Merged(stored: seq<Peer>, rs: seq<Peer>): State {
    if rs == [] then State(Offline(stored), {})
    else Received(Merged(stored, rs[..|rs| - 1]), rs[|rs| - 1])
  }

  /** The receive loop; the channel is the sequence of responses it yields before it closes. */
  method HandleReceivedPeers(stored: seq<Peer>, rx: seq<Peer>) returns (peers: seq<Peer>)
    ensures peers == Merged(stored, rx).peers
  {
    peers := Offline(stored);
    var responseSet: set<string> := {};
    for n := 0 to |rx|
      invariant State(peers, responseSet) == Merged(stored, rx[..n])
    {
      assert rx[..n + 1][..n] == rx[..n];
      var peer := rx[n];
      var inResponseSet := peer.id in responseSet;
      responseSet := responseSet + {peer.id};
      var pos := Position(peers, KeyOf(peer));
      if pos.Some? {
        var peer1 := peers[pos.value];
        peers := RemoveAt(peers, pos.value);
        if inResponseSet {
          peer := peer.(ipMac := peer.ipMac + peer1.ipMac);
          peer := peer.(online := true);
        }
      }
      peers := [peer] + peers;
    }
    assert rx[..|rx|] == rx;
  }

  // ---------------------------------------------------------------- what a round heard

  ghost predicate Occurs(ps: seq<Peer>, k: Key) {
    exists i :: 0 <= i < |ps| && KeyOf(ps[i]) == k
  }

  /** The index of the most recent response of a peer, or -1. */
  function LastHeard(rs: seq<Peer>, k: Key): (r: int)
    ensures -1 <= r < |rs|
    ensures r >= 0 ==> KeyOf(rs[r]) == k
    ensures forall i :: r < i < |rs| ==> KeyOf(rs[i]) != k
  {
    if rs == [] then -1
    else if KeyOf(rs[|rs| - 1]) == k then |rs| - 1
    else LastHeard(rs[..|rs| - 1], k)
  }

  ghost predicate HeardAddress(rs: seq<Peer>, k: Key, a: string) {
    exists i :: 0 <= i < |rs| && KeyOf(rs[i]) == k && a in rs[i].ipMac
  }

  /** What the first response of the peer that names the address says about it. */
  ghost function FirstMac(rs: seq<Peer>, k: Key, a: string): (mac: Option<string>)
    ensures mac.Some? <==> HeardAddress(rs, k, a)
  {
    if rs == [] then None
    else
      var n := |rs| - 1;
      var before := FirstMac(rs[..n], k, a);
      if before.Some? then
        var i :| 0 <= i < n && KeyOf(rs[..n][i]) == k && a in rs[..n][i].ipMac;
        assert KeyOf(rs[i]) == k && a in rs[i].ipMac;
        before
      else if KeyOf(rs[n]) == k then Lookup(rs[n].ipMac, a)
      else None
  }

  lemma {:induction false} FirstMacMeaning(rs: seq<Peer>, k: Key, a: string) returns (i: nat)
    requires HeardAddress(rs, k, a)
    ensures i < |rs| && KeyOf(rs[i]) == k && a in rs[i].ipMac && FirstMac(rs, k, a) == Some(rs[i].ipMac[a])
    ensures forall j :: 0 <= j < i && KeyOf(rs[j]) == k ==> a !in rs[j].ipMac
  {
    var n := |rs| - 1;
    if FirstMac(rs[..n], k, a).Some? {
      i := FirstMacMeaning(rs[..n], k, a);
    } else {
      i := n;
      assert forall j :: 0 <= j < n ==> rs[..n][j] == rs[j];
    }
  }

  ghost predicate NotAmongFirst(rs: seq<Peer>, k: Key, n: nat)
    requires n <= |rs|
  {
    forall i :: 0 <= i < n ==> KeyOf(rs[i]) != k
  }

  /** Response `j` carries the id, under another user name, and comes before this peer was first heard. */
  ghost predicate Ahead(rs: seq<Peer>, k: Key, j: int) {
    0 <= j < |rs| && rs[j].id == k.0 && NotAmongFirst(rs, k, j + 1)
  }

  ghost predicate IdHeardBefore(rs: seq<Peer>, k: Key) {
    exists j :: Ahead(rs, k, j)
  }

  function StoredMac(stored: seq<Peer>, k: Key, a: string): Option<string> {
    match Position(stored, k)
    case None => None
    case Some(i) => Lookup(stored[i].ipMac, a)
  }

  /**
   What a responder's entry says about an address: the stored list wins in the one case, and otherwise the first
   response.
   */
  ghost function KeptMac(stored: seq<Peer>, rs: seq<Peer>, k: Key, a: string): Option<string> {
    if IdHeardBefore(rs, k) && StoredMac(stored, k, a).Some? then StoredMac(stored, k, a) else FirstMac(rs, k, a)
  }

  ghost predicate Distinct(peers: seq<Peer>) {
    forall i, j :: 0 <= i < j < |peers| ==> KeyOf(peers[i]) != KeyOf(peers[j])
  }

  /** The stored peers that did not answer, in their order, marked offline. */
  ghost function Silent(stored: seq<Peer>, rs: seq<Peer>): (r: seq<Peer>)
    ensures forall i :: 0 <= i < |r| ==> !Occurs(rs, KeyOf(r[i])) && !r[i].online
  {
    if stored == [] then []
    else
      var init := Silent(stored[..|stored| - 1], rs);
      var last := stored[|stored| - 1];
      if Occurs(rs, KeyOf(last)) then init else init + [last.(online := false)]
  }

  // ---------------------------------------------------------------- the invariant of the loop

  /** The entry is a response in all but its addresses. */
  predicate FromResponse(e: Peer, p: Peer) {
    e.id == p.id && e.username == p.username && e.hostname == p.hostname && e.platform == p.platform
  }

  /**
   One responder: as in its last response, online, with every address heard for it, and stored ones only in the
   one case.
   */
  ghost predicate GoodEntry(stored: seq<Peer>, rs: seq<Peer>, e: Peer) {
    && Occurs(rs, KeyOf(e)) && e.online
    && LastHeard(rs, KeyOf(e)) >= 0 && FromResponse(e, rs[LastHeard(rs, KeyOf(e))])
    && forall a :: Lookup(e.ipMac, a) == KeptMac(stored, rs, KeyOf(e), a)
  }

  ghost predicate Responders(stored: seq<Peer>, rs: seq<Peer>, es: seq<Peer>) {
    && (forall i :: 0 <= i < |es| ==> GoodEntry(stored, rs, es[i]))
    && (forall i, j :: 0 <= i < j < |es| ==> LastHeard(rs, KeyOf(es[i])) > LastHeard(rs, KeyOf(es[j])))
    && (forall k :: Occurs(rs, k) ==> Occurs(es, k))
  }

  lemma HeardSnoc(rs: seq<Peer>, p: Peer, k: Key)
    ensures Occurs(rs + [p], k) <==> Occurs(rs, k) || KeyOf(p) == k
    ensures LastHeard(rs + [p], k) == if KeyOf(p) == k then |rs| else LastHeard(rs, k)
    ensures LastHeard(rs, k) >= 0 <==> Occurs(rs, k)
  {
    var all := rs + [p];
    assert all[..|rs|] == rs;
    if Occurs(rs, k) {
      var i :| 0 <= i < |rs| && KeyOf(rs[i]) == k;
      assert all[i] == rs[i];
    }
    if KeyOf(p) == k {
      assert all[|rs|] == p;
    }
  }

  lemma AddressesSnoc(rs: seq<Peer>, p: Peer, k: Key, a: string)
    ensures FirstMac(rs + [p], k, a) ==
              if FirstMac(rs, k, a).None? && KeyOf(p) == k then Lookup(p.ipMac, a) else FirstMac(rs, k, a)
  {
    assert (rs + [p])[..|rs|] == rs;
  }

  /** One more response never changes who was ahead of a peer that has been heard by then. */
  lemma BeforeSnoc(rs: seq<Peer>, p: Peer, k: Key)
    requires Occurs(rs, k) || KeyOf(p) == k
    ensures IdHeardBefore(rs + [p], k) <==> IdHeardBefore(rs, k)
  {
    var all := rs + [p];
    if j :| Ahead(rs, k, j) {
      assert Ahead(all, k, j);
    }
    if j :| Ahead(all, k, j) {
      if j == |rs| {
        NobodyAheadAtTheEnd(rs, p, k);
      } else {
        assert Ahead(rs, k, j) by {
          assert forall i :: 0 <= i < |rs| ==> rs[i] == all[i];
        }
      }
    }
  }

  lemma NobodyAheadAtTheEnd(rs: seq<Peer>, p: Peer, k: Key)
    requires Occurs(rs, k) || KeyOf(p) == k
    ensures !Ahead(rs + [p], k, |rs|)
  {
    var all := rs + [p];
    if KeyOf(p) == k {
      assert KeyOf(all[|rs|]) == k;
    } else {
      var i :| 0 <= i < |rs| && KeyOf(rs[i]) == k;
      assert KeyOf(all[i]) == k;
    }
  }

  /** At a peer's first response, the set of ids tells whether its id was heard before. */
  lemma BeforeFirst(rs: seq<Peer>, k: Key)
    requires !Occurs(rs, k)
    ensures IdHeardBefore(rs, k) <==> exists j :: 0 <= j < |rs| && rs[j].id == k.0
  {
    if j :| 0 <= j < |rs| && rs[j].id == k.0 {
      assert Ahead(rs, k, j);
    }
    if j :| Ahead(rs, k, j) {
      assert rs[j].id == k.0;
    }
  }

  /** Other responders are untouched by a response. */
  lemma OtherEntryKept(stored: seq<Peer>, rs: seq<Peer>, p: Peer, e: Peer)
    requires GoodEntry(stored, rs, e) && KeyOf(e) != KeyOf(p)
    ensures GoodEntry(stored, rs + [p], e)
  {
    var k := KeyOf(e);
    HeardSnoc(rs, p, k);
    BeforeSnoc(rs, p, k);
    forall a
      ensures KeptMac(stored, rs + [p], k, a) == KeptMac(stored, rs, k, a)
    {
      AddressesSnoc(rs, p, k, a);
    }
  }

  /** A repeated response keeps all that was known about addresses before. */
  lemma RepeatedEntry(stored: seq<Peer>, rs: seq<Peer>, p: Peer, known: Peer)
    requires GoodEntry(stored, rs, known) && KeyOf(known) == KeyOf(p)
    ensures GoodEntry(stored, rs + [p], Combined(p, known))
  {
    var k := KeyOf(p);
    HeardSnoc(rs, p, k);
    BeforeSnoc(rs, p, k);
    forall a
      ensures Lookup(Combined(p, known).ipMac, a) == KeptMac(stored, rs + [p], k, a)
    {
      AddressesSnoc(rs, p, k, a);
      assert Lookup(known.ipMac, a) == KeptMac(stored, rs, k, a);
    }
  }

  /** The first response of a peer replaces a stored entry, unless its id was already heard. */
  lemma FirstEntry(stored: seq<Peer>, rs: seq<Peer>, p: Peer, entry: Peer, known: Addresses)
    requires !Occurs(rs, KeyOf(p)) && entry.online && FromResponse(entry, p)
    requires forall a :: Lookup(known, a) == StoredMac(stored, KeyOf(p), a)
    requires entry.ipMac == if exists j :: 0 <= j < |rs| && rs[j].id == p.id then p.ipMac + known else p.ipMac
    ensures GoodEntry(stored, rs + [p], entry)
  {
    var k := KeyOf(p);
    HeardSnoc(rs, p, k);
    BeforeSnoc(rs, p, k);
    BeforeFirst(rs, k);
    forall a
      ensures Lookup(entry.ipMac, a) == KeptMac(stored, rs + [p], k, a)
    {
      AddressesSnoc(rs, p, k, a);
      assert !HeardAddress(rs, k, a);
      assert Lookup(known, a) == StoredMac(stored, k, a);
    }
  }

  // ---------------------------------------------------------------- the silent part of the list

  lemma {:induction false} SilentUnchanged(stored: seq<Peer>, rs: seq<Peer>, p: Peer)
    requires Occurs(rs, KeyOf(p)) || forall i :: 0 <= i < |stored| ==> KeyOf(stored[i]) != KeyOf(p)
    ensures Silent(stored, rs + [p]) == Silent(stored, rs)
  {
    if stored != [] {
      SilentUnchanged(stored[..|stored| - 1], rs, p);
      HeardSnoc(rs, p, KeyOf(stored[|stored| - 1]));
    }
  }

  /** The silent part holds exactly the stored peers that were not heard. */
  lemma {:induction false} SilentMembers(stored: seq<Peer>, rs: seq<Peer>)
    ensures forall e :: e in Silent(stored, rs) ==>
              exists j :: 0 <= j < |stored| && e == stored[j].(online := false)
    ensures forall j :: 0 <= j < |stored| && !Occurs(rs, KeyOf(stored[j])) ==>
              stored[j].(online := false) in Silent(stored, rs)
  {
    if stored != [] {
      var n := |stored| - 1;
      SilentMembers(stored[..n], rs);
      forall e | e in Silent(stored, rs)
        ensures exists j :: 0 <= j < |stored| && e == stored[j].(online := false)
      {
        if e in Silent(stored[..n], rs) {
          var j :| 0 <= j < n && e == stored[..n][j].(online := false);
          assert e == stored[j].(online := false);
        } else {
          assert e == stored[n].(online := false);
        }
      }
      forall j | 0 <= j < |stored| && !Occurs(rs, KeyOf(stored[j]))
        ensures stored[j].(online := false) in Silent(stored, rs)
      {
        if j < n {
          assert stored[..n][j] == stored[j];
        }
      }
    }
  }

  lemma {:induction false} SilentDistinct(stored: seq<Peer>, rs: seq<Peer>)
    requires Distinct(stored)
    ensures Distinct(Silent(stored, rs))
  {
    if stored != [] {
      var n := |stored| - 1;
      SilentDistinct(stored[..n], rs);
      SilentMembers(stored[..n], rs);
      var init := Silent(stored[..n], rs);
      forall i | 0 <= i < |init|
        ensures KeyOf(init[i]) != KeyOf(stored[n])
      {
        assert init[i] in init;
        var j :| 0 <= j < n && init[i] == stored[..n][j].(online := false);
        assert KeyOf(stored[j]) != KeyOf(stored[n]);
      }
    }
  }

  /** The first response of a stored peer takes it out of the silent part. */
  lemma {:induction false} SilentLoses(stored: seq<Peer>, rs: seq<Peer>, p: Peer, m: nat)
    requires Distinct(stored) && m < |Silent(stored, rs)| && KeyOf(Silent(stored, rs)[m]) == KeyOf(p)
    ensures Silent(stored, rs + [p]) == RemoveAt(Silent(stored, rs), m)
  {
    var n := |stored| - 1;
    var init, last := stored[..n], stored[n];
    HeardSnoc(rs, p, KeyOf(last));
    if m == |Silent(init, rs)| {
      assert forall i :: 0 <= i < n ==> KeyOf(init[i]) != KeyOf(last);
      SilentUnchanged(init, rs, p);
      assert RemoveAt(Silent(stored, rs), m) == Silent(init, rs);
    } else {
      SilentLoses(init, rs, p, m);
      LastIsAnother(stored, rs, m);
      if !Occurs(rs, KeyOf(last)) {
        assert RemoveAt(Silent(stored, rs), m) == RemoveAt(Silent(init, rs), m) + [last.(online := false)];
      }
    }
  }

  lemma LastIsAnother(stored: seq<Peer>, rs: seq<Peer>, m: nat)
    requires Distinct(stored) && stored != [] && m < |Silent(stored[..|stored| - 1], rs)|
    ensures KeyOf(Silent(stored[..|stored| - 1], rs)[m]) != KeyOf(stored[|stored| - 1])
  {
    var n := |stored| - 1;
    var init := Silent(stored[..n], rs);
    SilentMembers(stored[..n], rs);
    assert init[m] in init;
    var j :| 0 <= j < n && init[m] == stored[..n][j].(online := false);
    assert KeyOf(stored[j]) != KeyOf(stored[n]);
  }

  // ---------------------------------------------------------------- one response

  lemma RespondedIds(stored: seq<Peer>, rs: seq<Peer>, id: string)
    ensures id in Merged(stored, rs).responded <==> exists j :: 0 <= j < |rs| && rs[j].id == id
  {
    if rs != [] {
      var n := |rs| - 1;
      RespondedIds(stored, rs[..n], id);
      if j :| 0 <= j < n && rs[..n][j].id == id {
        assert rs[j].id == id;
      }
      if j :| 0 <= j < |rs| && rs[j].id == id && j != n {
        assert rs[..n][j].id == id;
      }
    }
  }

  /** Taking one responder out leaves the others, in order. */
  lemma {:induction false} OneTakenOut(stored: seq<Peer>, rs: seq<Peer>, es: seq<Peer>, i: nat)
    requires Responders(stored, rs, es) && i < |es|
    ensures var others := RemoveAt(es, i);
            && (forall j :: 0 <= j < |others| ==> GoodEntry(stored, rs, others[j]))
            && (forall j :: 0 <= j < |others| ==> KeyOf(others[j]) != KeyOf(es[i]))
            && (forall j, m :: 0 <= j < m < |others| ==> LastHeard(rs, KeyOf(others[j])) > LastHeard(rs, KeyOf(others[m])))
  {
  }

  lemma OthersListed(rs: seq<Peer>, es: seq<Peer>, i: nat)
    requires i < |es| && forall k :: Occurs(rs, k) ==> Occurs(es, k)
    ensures forall k :: Occurs(rs, k) && k != KeyOf(es[i]) ==> Occurs(RemoveAt(es, i), k)
  {
    var others := RemoveAt(es, i);
    forall k | Occurs(rs, k) && k != KeyOf(es[i])
      ensures Occurs(others, k)
    {
      var j :| 0 <= j < |es| && KeyOf(es[j]) == k;
      assert KeyOf(others[if j < i then j else j - 1]) == k;
    }
  }

  /** A peer heard before moves to the front. */
  lemma Reheard(stored: seq<Peer>, rs: seq<Peer>, p: Peer, es: seq<Peer>, i: nat)
    requires Responders(stored, rs, es) && i < |es| && KeyOf(es[i]) == KeyOf(p)
    ensures Responders(stored, rs + [p], [Combined(p, es[i])] + RemoveAt(es, i))
  {
    RepeatedEntry(stored, rs, p, es[i]);
    OneTakenOut(stored, rs, es, i);
    OthersListed(rs, es, i);
    Promoted(stored, rs, p, Combined(p, es[i]), RemoveAt(es, i));
    AllListed(rs, p, Combined(p, es[i]), RemoveAt(es, i));
  }

  lemma AllListed(rs: seq<Peer>, p: Peer, entry: Peer, others: seq<Peer>)
    requires KeyOf(entry) == KeyOf(p)
    requires forall k :: Occurs(rs, k) && k != KeyOf(p) ==> Occurs(others, k)
    ensures forall k :: Occurs(rs + [p], k) ==> Occurs([entry] + others, k)
  {
    var es := [entry] + others;
    forall k | Occurs(rs + [p], k)
      ensures Occurs(es, k)
    {
      HeardSnoc(rs, p, k);
      if k == KeyOf(p) {
        assert KeyOf(es[0]) == k;
      } else {
        var j :| 0 <= j < |others| && KeyOf(others[j]) == k;
        assert KeyOf(es[j + 1]) == k;
      }
    }
  }

  /** Putting a new entry in front of other responders keeps the order by most recent response. */
  lemma Promoted(stored: seq<Peer>, rs: seq<Peer>, p: Peer, entry: Peer, others: seq<Peer>)
    requires GoodEntry(stored, rs + [p], entry) && KeyOf(entry) == KeyOf(p)
    requires forall i :: 0 <= i < |others| ==> GoodEntry(stored, rs, others[i]) && KeyOf(others[i]) != KeyOf(p)
    requires forall i, j :: 0 <= i < j < |others| ==> LastHeard(rs, KeyOf(others[i])) > LastHeard(rs, KeyOf(others[j]))
    ensures var es := [entry] + others;
            && (forall i :: 0 <= i < |es| ==> GoodEntry(stored, rs + [p], es[i]))
            && (forall i, j :: 0 <= i < j < |es| ==>
                  LastHeard(rs + [p], KeyOf(es[i])) > LastHeard(rs + [p], KeyOf(es[j])))
  {
    HeardSnoc(rs, p, KeyOf(p));
    forall i | 0 <= i < |others|
      ensures GoodEntry(stored, rs + [p], others[i])
      ensures LastHeard(rs + [p], KeyOf(others[i])) == LastHeard(rs, KeyOf(others[i])) < |rs|
    {
      OtherEntryKept(stored, rs, p, others[i]);
      HeardSnoc(rs, p, KeyOf(others[i]));
    }
  }

  /** A peer heard for the first time goes to the front. */
  lemma FirstHeard(stored: seq<Peer>, rs: seq<Peer>, p: Peer, es: seq<Peer>, entry: Peer)
    requires Responders(stored, rs, es) && !Occurs(rs, KeyOf(p))
    requires GoodEntry(stored, rs + [p], entry) && KeyOf(entry) == KeyOf(p)
    ensures Responders(stored, rs + [p], [entry] + es)
  {
    Promoted(stored, rs, p, entry, es);
    AllListed(rs, p, entry, es);
  }

  lemma StoredAddresses(stored: seq<Peer>, rs: seq<Peer>, m: nat, a: string)
    requires Distinct(stored) && m < |Silent(stored, rs)|
    ensures StoredMac(stored, KeyOf(Silent(stored, rs)[m]), a) == Lookup(Silent(stored, rs)[m].ipMac, a)
  {
    var e := Silent(stored, rs)[m];
    SilentMembers(stored, rs);
    assert e in Silent(stored, rs);
    var j :| 0 <= j < |stored| && e == stored[j].(online := false);
    assert KeyOf(stored[j]) == KeyOf(e);
    assert Position(stored, KeyOf(e)) == Some(j);
  }

  ghost predicate SplitsInto(stored: seq<Peer>, rs: seq<Peer>, s: State, es: seq<Peer>) {
    && Responders(stored, rs, es) && s.peers == es + Silent(stored, rs)
    && forall id :: id in s.responded <==> exists j :: 0 <= j < |rs| && rs[j].id == id
  }

  lemma RemoveFromConcat<T>(a: seq<T>, b: seq<T>, i: nat)
    requires i < |a| + |b|
    ensures i < |a| ==> RemoveAt(a + b, i) == RemoveAt(a, i) + b
    ensures i >= |a| ==> RemoveAt(a + b, i) == a + RemoveAt(b, i - |a|)
  {
  }

  /** Where a peer that was heard before is found. */
  lemma FindResponder(stored: seq<Peer>, rs: seq<Peer>, p: Peer, s: State, es: seq<Peer>) returns (at: nat)
    requires SplitsInto(stored, rs, s, es) && Occurs(rs, KeyOf(p))
    ensures p.id in s.responded && Position(s.peers, KeyOf(p)) == Some(at)
    ensures at < |es| && s.peers[at] == es[at] && KeyOf(es[at]) == KeyOf(p)
  {
    var w :| 0 <= w < |rs| && KeyOf(rs[w]) == KeyOf(p);
    assert rs[w].id == p.id;
    assert Occurs(es, KeyOf(p));
    var i :| 0 <= i < |es| && KeyOf(es[i]) == KeyOf(p);
    assert s.peers[i] == es[i];
    at := Position(s.peers, KeyOf(p)).value;
  }

  lemma ReceivedRepeat(stored: seq<Peer>, rs: seq<Peer>, p: Peer, s: State, es: seq<Peer>) returns (es': seq<Peer>)
    requires SplitsInto(stored, rs, s, es) && Occurs(rs, KeyOf(p))
    ensures Responders(stored, rs + [p], es')
    ensures Received(s, p).peers == es' + Silent(stored, rs + [p])
  {
    var at := FindResponder(stored, rs, p, s, es);
    es' := [Combined(p, es[at])] + RemoveAt(es, at);
    SilentUnchanged(stored, rs, p);
    MovedToFront(s, p, es, Silent(stored, rs), at);
    Reheard(stored, rs, p, es, at);
  }

  lemma MovedToFront(s: State, p: Peer, es: seq<Peer>, sil: seq<Peer>, at: nat)
    requires s.peers == es + sil && at < |es| && p.id in s.responded
    requires Position(s.peers, KeyOf(p)) == Some(at)
    ensures Received(s, p).peers == [Combined(p, es[at])] + RemoveAt(es, at) + sil
  {
    assert s.peers[at] == es[at];
    RemoveFromConcat(es, sil, at);
    assert [Combined(p, es[at])] + (RemoveAt(es, at) + sil) == [Combined(p, es[at])] + RemoveAt(es, at) + sil;
  }

  /** The entry that the first response of a stored peer leaves. */
  lemma FirstEntryOfStored(stored: seq<Peer>, rs: seq<Peer>, p: Peer, s: State, es: seq<Peer>, m: nat)
    requires Distinct(stored) && p.online && SplitsInto(stored, rs, s, es) && !Occurs(rs, KeyOf(p))
    requires m < |Silent(stored, rs)| && KeyOf(Silent(stored, rs)[m]) == KeyOf(p)
    ensures GoodEntry(stored, rs + [p], if p.id in s.responded then Combined(p, Silent(stored, rs)[m]) else p)
  {
    var sil := Silent(stored, rs);
    forall a
      ensures Lookup(sil[m].ipMac, a) == StoredMac(stored, KeyOf(p), a)
    {
      StoredAddresses(stored, rs, m, a);
    }
    FirstEntry(stored, rs, p, if p.id in s.responded then Combined(p, sil[m]) else p, sil[m].ipMac);
  }

  lemma ReceivedStored(stored: seq<Peer>, rs: seq<Peer>, p: Peer, s: State, es: seq<Peer>, m: nat)
    returns (es': seq<Peer>)
    requires Distinct(stored) && p.online && SplitsInto(stored, rs, s, es) && !Occurs(rs, KeyOf(p))
    requires m < |Silent(stored, rs)| && Position(s.peers, KeyOf(p)) == Some(|es| + m)
    ensures Responders(stored, rs + [p], es')
    ensures Received(s, p).peers == es' + Silent(stored, rs + [p])
  {
    var sil := Silent(stored, rs);
    assert s.peers[|es| + m] == sil[m];
    var entry := if p.id in s.responded then Combined(p, sil[m]) else p;
    es' := [entry] + es;
    SilentLoses(stored, rs, p, m);
    TakenFromSilent(s, p, es, sil, m);
    FirstEntryOfStored(stored, rs, p, s, es, m);
    FirstHeard(stored, rs, p, es, entry);
  }

  lemma TakenFromSilent(s: State, p: Peer, es: seq<Peer>, sil: seq<Peer>, m: nat)
    requires s.peers == es + sil && m < |sil| && Position(s.peers, KeyOf(p)) == Some(|es| + m)
    ensures var entry := if p.id in s.responded then Combined(p, sil[m]) else p;
            Received(s, p).peers == [entry] + es + RemoveAt(sil, m)
  {
    assert s.peers[|es| + m] == sil[m];
    RemoveFromConcat(es, sil, |es| + m);
    var entry := if p.id in s.responded then Combined(p, sil[m]) else p;
    assert [entry] + (es + RemoveAt(sil, m)) == [entry] + es + RemoveAt(sil, m);
  }

  lemma NotStored(stored: seq<Peer>, rs: seq<Peer>, s: State, es: seq<Peer>, k: Key)
    requires s.peers == es + Silent(stored, rs) && !Occurs(rs, k) && Position(s.peers, k).None?
    ensures forall j :: 0 <= j < |stored| ==> KeyOf(stored[j]) != k
  {
    var sil := Silent(stored, rs);
    assert forall i :: 0 <= i < |sil| ==> s.peers[|es| + i] == sil[i];
    SilentMembers(stored, rs);
    forall j | 0 <= j < |stored|
      ensures KeyOf(stored[j]) != k
    {
      if !Occurs(rs, KeyOf(stored[j])) {
        var e := stored[j].(online := false);
        assert e in sil;
        var i :| 0 <= i < |sil| && sil[i] == e;
        assert KeyOf(s.peers[|es| + i]) == KeyOf(stored[j]);
      }
    }
  }

  lemma ReceivedNew(stored: seq<Peer>, rs: seq<Peer>, p: Peer, s: State, es: seq<Peer>) returns (es': seq<Peer>)
    requires p.online && SplitsInto(stored, rs, s, es) && !Occurs(rs, KeyOf(p))
    requires Position(s.peers, KeyOf(p)).None?
    ensures Responders(stored, rs + [p], es')
    ensures Received(s, p).peers == es' + Silent(stored, rs + [p])
  {
    NotStored(stored, rs, s, es, KeyOf(p));
    SilentUnchanged(stored, rs, p);
    NewEntry(stored, rs, p);
    FirstHeard(stored, rs, p, es, p);
    es' := [p] + es;
    PutInFront(s, p, es, Silent(stored, rs));
  }

  lemma NewEntry(stored: seq<Peer>, rs: seq<Peer>, p: Peer)
    requires p.online && !Occurs(rs, KeyOf(p)) && forall j :: 0 <= j < |stored| ==> KeyOf(stored[j]) != KeyOf(p)
    ensures GoodEntry(stored, rs + [p], p)
  {
    FirstEntry(stored, rs, p, p, map[]);
  }

  lemma PutInFront(s: State, p: Peer, es: seq<Peer>, sil: seq<Peer>)
    requires s.peers == es + sil && Position(s.peers, KeyOf(p)).None?
    ensures Received(s, p).peers == [p] + es + sil
  {
    assert [p] + (es + sil) == [p] + es + sil;
  }

  /** The state after the responses `rs` splits into responders and silent peers; one more response keeps that. */
  lemma ReceivedSplits(stored: seq<Peer>, rs: seq<Peer>, p: Peer, s: State, es: seq<Peer>) returns (es': seq<Peer>)
    requires Distinct(stored) && p.online && SplitsInto(stored, rs, s, es)
    ensures Responders(stored, rs + [p], es')
    ensures Received(s, p).peers == es' + Silent(stored, rs + [p])
  {
    var pos := Position(s.peers, KeyOf(p));
    if Occurs(rs, KeyOf(p)) {
      es' := ReceivedRepeat(stored, rs, p, s, es);
    } else if pos.None? {
      es' := ReceivedNew(stored, rs, p, s, es);
    } else {
      NotAmongResponders(stored, rs, es, Silent(stored, rs), KeyOf(p));
      es' := ReceivedStored(stored, rs, p, s, es, pos.value - |es|);
    }
  }

  lemma NotAmongResponders(stored: seq<Peer>, rs: seq<Peer>, es: seq<Peer>, tail: seq<Peer>, k: Key)
    requires Responders(stored, rs, es) && !Occurs(rs, k)
    ensures Position(es + tail, k).Some? ==> Position(es + tail, k).value >= |es|
  {
    assert forall i :: 0 <= i < |es| ==> (es + tail)[i] == es[i] && Occurs(rs, KeyOf(es[i]));
  }

  // ---------------------------------------------------------------- the whole round

  /**
   The merged list is the responders, most recent first, each online with every address heard for it,
   followed by the stored peers that stayed silent, in their order and offline. A responder also keeps
   its stored addresses exactly when its id was heard under another user name before it.
   */
  lemma {:induction false} RoundOutcome(stored: seq<Peer>, rs: seq<Peer>) returns (es: seq<Peer>)
    requires Distinct(stored) && forall p :: p in rs ==> p.online
    ensures Merged(stored, rs).peers == es + Silent(stored, rs)
    ensures Responders(stored, rs, es)
  {
    if rs == [] {
      es := [];
      AllSilent(stored);
    } else {
      var n := |rs| - 1;
      var init := rs[..n];
      assert init + [rs[n]] == rs;
      var es0 := RoundOutcome(stored, init);
      MergedSplits(stored, init, es0);
      es := ReceivedSplits(stored, init, rs[n], Merged(stored, init), es0);
    }
  }

  lemma MergedSplits(stored: seq<Peer>, rs: seq<Peer>, es: seq<Peer>)
    requires Responders(stored, rs, es) && Merged(stored, rs).peers == es + Silent(stored, rs)
    ensures SplitsInto(stored, rs, Merged(stored, rs), es)
  {
    forall id
      ensures id in Merged(stored, rs).responded <==> exists j :: 0 <= j < |rs| && rs[j].id == id
    {
      RespondedIds(stored, rs, id);
    }
  }

  lemma {:induction false} AllSilent(stored: seq<Peer>)
    ensures Silent(stored, []) == Offline(stored)
  {
    if stored != [] {
      AllSilent(stored[..|stored| - 1]);
    }
  }

  lemma KeysOfRound(stored: seq<Peer>, rs: seq<Peer>, es: seq<Peer>, k: Key)
    requires Responders(stored, rs, es)
    ensures Occurs(es + Silent(stored, rs), k) <==> Occurs(rs, k) || Occurs(stored, k)
  {
    var sil := Silent(stored, rs);
    var peers := es + sil;
    SilentMembers(stored, rs);
    if Occurs(peers, k) {
      var i :| 0 <= i < |peers| && KeyOf(peers[i]) == k;
      if i >= |es| {
        assert peers[i] in sil;
        var j :| 0 <= j < |stored| && peers[i] == stored[j].(online := false);
        assert KeyOf(stored[j]) == k;
      } else {
        assert GoodEntry(stored, rs, es[i]);
      }
    }
    if Occurs(rs, k) {
      var i :| 0 <= i < |es| && KeyOf(es[i]) == k;
      assert KeyOf(peers[i]) == k;
    } else if Occurs(stored, k) {
      var j :| 0 <= j < |stored| && KeyOf(stored[j]) == k;
      var e := stored[j].(online := false);
      assert e in sil;
      var i :| 0 <= i < |sil| && sil[i] == e;
      assert KeyOf(peers[|es| + i]) == k;
    }
  }

  /** Seen from outside: no duplicates, exactly the stored and the heard peers, and online means heard. */
  lemma RoundKeepsList(stored: seq<Peer>, rs: seq<Peer>)
    requires Distinct(stored) && forall p :: p in rs ==> p.online
    ensures var peers := Merged(stored, rs).peers;
            && Distinct(peers)
            && (forall k :: Occurs(peers, k) <==> Occurs(rs, k) || Occurs(stored, k))
            && (forall i :: 0 <= i < |peers| ==> (peers[i].online <==> Occurs(rs, KeyOf(peers[i]))))
  {
    var es := RoundOutcome(stored, rs);
    var sil := Silent(stored, rs);
    SilentDistinct(stored, rs);
    assert Distinct(es + sil) by {
      assert forall i :: 0 <= i < |es| ==> Occurs(rs, KeyOf(es[i]));
      assert forall i :: 0 <= i < |sil| ==> !Occurs(rs, KeyOf(sil[i]));
    }
    forall k
      ensures Occurs(es + sil, k) <==> Occurs(rs, k) || Occurs(stored, k)
    {
      KeysOfRound(stored, rs, es, k);
    }
  }
}
