/**
 Fleet registration: every device of a fleet fetches one shared address book, merges its own row and,
 when that row is absent or stale, replaces the whole book. Fetching and replacing are separate steps
 that interleave freely between devices.

 The server may hand rows back with other fields than were posted (time stamps); it keeps the fields
 that the projection of a row retains.
 */
module FleetSync {

  import opened Common

  datatype Field =
    | Id | Username | Hostname | PlatformName | Alias | Password | Hash | Tags
    | Extra(name: string)

  datatype Json =
    | JString(text: string)
    | JArray(items: seq<Json>)
    | JObject(fields: map<Field, Json>)
    | JOther(tag: nat)

  function FieldOf(p: Json, k: Field): Option<Json> {
    if p.JObject? && k in p.fields then Some(p.fields[k]) else None
  }

  function StringAt(p: Json, k: Field): Option<string> {
    match FieldOf(p, k)
    case Some(JString(text)) => Some(text)
    case _ => None
  }

  /** What the running binary knows about its device; the bootstrap skips a device without an id. */
  datatype Device = Device(id: string, password: string, alias: string, hostname: string, platform: string)

  predicate Registrable(d: Device) {
    d.id != "" && d.password != "" && d.alias != ""
  }

  datatype AddressBook = AddressBook(tags: Json, peers: seq<Json>, tagColors: Json)

  /** The outcome of the fetch; `NoBook` is a failed status or a body that does not parse. */
  datatype Fetched =
    | NoBook
    | Book(peers: Option<seq<Json>>, tags: Option<Json>, tagColors: Option<Json>)

  // ---------------------------------------------------------------- rows

  const POSTED_STRINGS: seq<Field> := [Id, Username, Hostname, PlatformName, Alias, Password, Hash]

  const POSTED: set<Field> := {Id, Username, Hostname, PlatformName, Alias, Password, Hash, Tags}

  function Default(k: Field): Json {
    if k == Tags then JArray([]) else JString("")
  }

  function FieldOr(p: Json, k: Field): Json {
    match FieldOf(p, k)
    case Some(v) => v
    case None => Default(k)
  }

  /** The projection onto the fields that the replace endpoint accepts. */
  function Normalized(p: Json): Json {
    JObject(map k | k in POSTED :: FieldOr(p, k))
  }

  lemma NormalizedIdempotent(p: Json)
    ensures Normalized(Normalized(p)) == Normalized(p)
  {
    assert Normalized(Normalized(p)).fields == Normalized(p).fields;
  }

  predicate IsOwn(d: Device, p: Json) {
    StringAt(p, Id) == Some(d.id)
  }

  /** The row that decides: the last one filed under the device's id. */
  function OwnRow(d: Device, rows: seq<Json>): (r: Option<Json>)
    ensures r.Some? ==> r.value in rows && IsOwn(d, r.value)
    ensures r.None? <==> forall p :: p in rows ==> !IsOwn(d, p)
  {
    if rows == [] then None
    else
      var n := |rows| - 1;
      assert rows == rows[..n] + [rows[n]];
      if IsOwn(d, rows[n]) then Some(rows[n]) else OwnRow(d, rows[..n])
  }

  function OthersNormalized(d: Device, rows: seq<Json>): seq<Json> {
    if rows == [] then []
    else
      var n := |rows| - 1;
      var init := OthersNormalized(d, rows[..n]);
      if IsOwn(d, rows[n]) then init else init + [Normalized(rows[n])]
  }

  predicate RowInSync(d: Device, p: Json) {
    StringAt(p, Password) == Some(d.password) && StringAt(p, Alias) == Some(d.alias)
  }

  predicate InSync(d: Device, rows: seq<Json>) {
    OwnRow(d, rows).Some? && RowInSync(d, OwnRow(d, rows).value)
  }

  /** Row `i` is the last one with the id. */
  ghost predicate IsLast(rows: seq<Json>, i: int, id: string) {
    && 0 <= i < |rows| && StringAt(rows[i], Id) == Some(id)
    && forall j :: i < j < |rows| ==> StringAt(rows[j], Id) != Some(id)
  }

  /** Read off the rows: the last one with the device's id has its password and its alias. */
  ghost predicate Stands(d: Device, rows: seq<Json>) {
    exists i :: IsLast(rows, i, d.id) && StringAt(rows[i], Password) == Some(d.password)
                && StringAt(rows[i], Alias) == Some(d.alias)
  }

  lemma {:induction false} OwnRowIsLast(d: Device, rows: seq<Json>) returns (i: int)
    requires OwnRow(d, rows).Some?
    ensures IsLast(rows, i, d.id) && rows[i] == OwnRow(d, rows).value
  {
    var n := |rows| - 1;
    if IsOwn(d, rows[n]) {
      i := n;
    } else {
      i := OwnRowIsLast(d, rows[..n]);
      assert forall j :: 0 <= j < n ==> rows[..n][j] == rows[j];
    }
  }

  lemma InSyncMeansStands(d: Device, rows: seq<Json>)
    ensures InSync(d, rows) <==> Stands(d, rows)
  {
    if OwnRow(d, rows).Some? {
      var i := OwnRowIsLast(d, rows);
      if k :| IsLast(rows, k, d.id) && StringAt(rows[k], Password) == Some(d.password)
                   && StringAt(rows[k], Alias) == Some(d.alias) {
        assert k == i;
      }
    } else {
      forall k | 0 <= k < |rows|
        ensures !IsOwn(d, rows[k])
      {
        assert rows[k] in rows;
      }
    }
  }

  function FreshRow(d: Device): Json {
    JObject(map[
      Id := JString(d.id), Username := JString(""), Hostname := JString(d.hostname),
      PlatformName := JString(d.platform), Alias := JString(d.alias), Tags := JArray([]),
      Password := JString(d.password), Hash := JString("")])
  }

  // ---------------------------------------------------------------- one registration

  function Rows(f: Fetched): seq<Json> {
    if f.Book? && f.peers.Some? then f.peers.value else []
  }

  function Merged(d: Device, f: Fetched): AddressBook {
    AddressBook(
      if f.Book? && f.tags.Some? then f.tags.value else JArray([]),
      OthersNormalized(d, Rows(f)) + [FreshRow(d)],
      if f.Book? && f.tagColors.Some? then f.tagColors.value else JString("{}"))
  }

  /** The book after the device acts on what it fetched; a rejected post changes nothing. */
  function Registered(d: Device, f: Fetched, accepted: bool, book: AddressBook): AddressBook {
    if InSync(d, Rows(f)) || !accepted then book else Merged(d, f)
  }

  /** Read off the book: what a post leaves. */
  ghost predicate Posted(d: Device, f: Fetched, book: AddressBook) {
    && book.peers == Map(Normalized, Filter((p: Json) => StringAt(p, Id) != Some(d.id),
                                            if f.Book? && f.peers.Some? then f.peers.value else []))
                     + [JObject(map[Id := JString(d.id), Username := JString(""), Hostname := JString(d.hostname),
                                    PlatformName := JString(d.platform), Alias := JString(d.alias),
                                    Tags := JArray([]), Password := JString(d.password), Hash := JString("")])]
    && book.tags == (if f.Book? && f.tags.Some? then f.tags.value else JArray([]))
    && book.tagColors == (if f.Book? && f.tagColors.Some? then f.tagColors.value else JString("{}"))
  }

  lemma {:induction false} OthersAreFiltered(d: Device, rows: seq<Json>)
    ensures OthersNormalized(d, rows) == Map(Normalized, Filter((p: Json) => StringAt(p, Id) != Some(d.id), rows))
  {
    if rows != [] {
      var n := |rows| - 1;
      OthersAreFiltered(d, rows[..n]);
      var kept := Filter((p: Json) => StringAt(p, Id) != Some(d.id), rows[..n]);
      assert Map(Normalized, kept + [rows[n]]) == Map(Normalized, kept) + [Normalized(rows[n])];
    }
  }

  lemma PostedBook(d: Device, f: Fetched)
    ensures Posted(d, f, Merged(d, f))
  {
    OthersAreFiltered(d, Rows(f));
  }

  lemma PostedStrings()
    ensures forall k :: k in POSTED_STRINGS <==> k in POSTED && k != Tags
  {
    assert POSTED_STRINGS[0] == Id && POSTED_STRINGS[1] == Username && POSTED_STRINGS[2] == Hostname;
    assert POSTED_STRINGS[3] == PlatformName && POSTED_STRINGS[4] == Alias;
    assert POSTED_STRINGS[5] == Password && POSTED_STRINGS[6] == Hash;
  }

  lemma FilledIsNormalized(p: Json, out: map<Field, Json>)
    requires forall k :: k in out <==> k in POSTED_STRINGS
    requires forall k :: k in out ==> out[k] == FieldOr(p, k)
    ensures JObject(out[Tags := FieldOr(p, Tags)]) == Normalized(p)
  {
    PostedStrings();
    assert out[Tags := FieldOr(p, Tags)] == Normalized(p).fields;
  }

  method NormalizePeer(p: Json) returns (r: Json)
    ensures r == Normalized(p)
    ensures r.JObject? && r.fields.Keys == {Id, Username, Hostname, PlatformName, Alias, Password, Hash, Tags}
    ensures forall k :: k in r.fields ==>
              r.fields[k]
              == if p.JObject? && k in p.fields then p.fields[k] else if k == Tags then JArray([]) else JString("")
  {
    var out: map<Field, Json> := map[];
    for i := 0 to |POSTED_STRINGS|
      invariant forall k :: k in out <==> k in POSTED_STRINGS[..i]
      invariant forall k :: k in out ==> k != Tags && out[k] == FieldOr(p, k)
    {
      var k := POSTED_STRINGS[i];
      assert POSTED_STRINGS[..i + 1] == POSTED_STRINGS[..i] + [k];
      PostedStrings();
      assert k in POSTED_STRINGS;
      var v := FieldOf(p, k);
      if v.Some? {
        out := out[k := v.value];
      } else {
        out := out[k := JString("")];
      }
    }
    assert POSTED_STRINGS[..|POSTED_STRINGS|] == POSTED_STRINGS;
    FilledIsNormalized(p, out);
    var t := FieldOf(p, Tags);
    out := out[Tags := if t.Some? then t.value else JArray([])];
    r := JObject(out);
  }

  /** The one loop of the merge: other rows are projected in order, the last own row is remembered. */
  method SplitRows(d: Device, rows: seq<Json>) returns (others: seq<Json>, own: Option<Json>)
    ensures others == OthersNormalized(d, rows)
    ensures own == OwnRow(d, rows)
  {
    others, own := [], None;
    for i := 0 to |rows|
      invariant others == OthersNormalized(d, rows[..i])
      invariant own == OwnRow(d, rows[..i])
    {
      assert rows[..i + 1][..i] == rows[..i];
      if IsOwn(d, rows[i]) {
        own := Some(rows[i]);
      } else {
        var p := NormalizePeer(rows[i]);
        others := others + [p];
      }
    }
    assert rows[..|rows|] == rows;
  }

  class Server {
    var book: AddressBook

    constructor (b: AddressBook)
      ensures book == b
    {
      book := b;
    }

    /** `ok` is whether the device may consider itself registered. */
    method FleetRegisterCall(d: Device, f: Fetched, accepted: bool) returns (ok: bool)
      modifies this
      ensures book == Registered(d, f, accepted, old(book))
      ensures ok == (accepted || InSync(d, Rows(f)))
      ensures var fetched := f.Book? && f.peers.Some?;
              && (fetched && Stands(d, f.peers.value) ==> ok && book == old(book))
              && (!(fetched && Stands(d, f.peers.value)) ==> ok == accepted && (!accepted ==> book == old(book)))
              && (!(fetched && Stands(d, f.peers.value)) && accepted ==> Posted(d, f, book))
    {
      InSyncMeansStands(d, Rows(f));
      PostedBook(d, f);
      var tags, tagColors := JArray([]), JString("{}");
      var others, own := [], None;
      if f.Book? {
        if f.peers.Some? {
          others, own := SplitRows(d, f.peers.value);
        }
        if f.tags.Some? {
          tags := f.tags.value;
        }
        if f.tagColors.Some? {
          tagColors := f.tagColors.value;
        }
      }
      if own.Some? && RowInSync(d, own.value) {
        return true;
      }
      if accepted {
        book := AddressBook(tags, others + [FreshRow(d)], tagColors);
      }
      return accepted;
    }
  }

  // ---------------------------------------------------------------- what the projection keeps

  ghost predicate SameRows(a: seq<Json>, b: seq<Json>) {
    |a| == |b| && forall i :: 0 <= i < |a| ==> Normalized(a[i]) == Normalized(b[i])
  }

  /** A successful fetch: the rows of the book, whatever else they carry, with its tags and colours. */
  ghost predicate Fetches(book: AddressBook, f: Fetched) {
    && f.Book? && f.peers.Some? && SameRows(book.peers, f.peers.value)
    && f.tags == Some(book.tags) && f.tagColors == Some(book.tagColors)
  }

  /** Non-empty strings are seen through the projection. */
  lemma StringThroughProjection(p: Json, q: Json, k: Field, text: string)
    requires Normalized(p) == Normalized(q) && text != ""
    requires k in POSTED && k != Tags
    ensures StringAt(p, k) == Some(text) <==> StringAt(q, k) == Some(text)
  {
    assert Normalized(p).fields[k] == FieldOr(p, k);
    assert Normalized(q).fields[k] == FieldOr(q, k);
  }

  lemma SameStanding(d: Device, p: Json, q: Json)
    requires Registrable(d) && Normalized(p) == Normalized(q)
    ensures IsOwn(d, p) <==> IsOwn(d, q)
    ensures RowInSync(d, p) <==> RowInSync(d, q)
  {
    StringThroughProjection(p, q, Id, d.id);
    StringThroughProjection(p, q, Password, d.password);
    StringThroughProjection(p, q, Alias, d.alias);
  }

  lemma {:induction false} InSyncThroughProjection(d: Device, a: seq<Json>, b: seq<Json>)
    requires Registrable(d) && SameRows(a, b)
    ensures InSync(d, a) <==> InSync(d, b)
  {
    if a != [] {
      var n := |a| - 1;
      SameStanding(d, a[n], b[n]);
      InSyncThroughProjection(d, a[..n], b[..n]);
    }
  }

  /** Another device's merge leaves the standing of `d` as it was in the snapshot. */
  lemma {:induction false} OthersKeepStanding(d: Device, e: Device, rows: seq<Json>)
    requires Registrable(d) && e.id != d.id
    ensures InSync(d, OthersNormalized(e, rows)) <==> InSync(d, rows)
  {
    if rows != [] {
      var n := |rows| - 1;
      OthersKeepStanding(d, e, rows[..n]);
      if !IsOwn(e, rows[n]) {
        NormalizedIdempotent(rows[n]);
        SameStanding(d, rows[n], Normalized(rows[n]));
        var init := OthersNormalized(e, rows[..n]);
        assert (init + [Normalized(rows[n])])[..|init|] == init;
      }
    }
  }

  /** A post by another device keeps `d` registered exactly when its snapshot had `d` registered. */
  lemma PostKeepsExactly(d: Device, e: Device, f: Fetched)
    requires Registrable(d) && e.id != d.id
    ensures InSync(d, Merged(e, f).peers) <==> InSync(d, Rows(f))
  {
    OthersKeepStanding(d, e, Rows(f));
    var others := OthersNormalized(e, Rows(f));
    assert (others + [FreshRow(e)])[..|others|] == others;
  }

  lemma PostRegistersSelf(d: Device, f: Fetched)
    ensures InSync(d, Merged(d, f).peers)
  {
    var rows := OthersNormalized(d, Rows(f)) + [FreshRow(d)];
    assert rows[|rows| - 1] == FreshRow(d);
    assert IsOwn(d, FreshRow(d)) && RowInSync(d, FreshRow(d));
  }

  // ---------------------------------------------------------------- one registration, by itself

  function CountOwn(d: Device, rows: seq<Json>): nat {
    if rows == [] then 0
    else CountOwn(d, rows[..|rows| - 1]) + if IsOwn(d, rows[|rows| - 1]) then 1 else 0
  }

  lemma {:induction false} OthersHoldNoOwn(d: Device, rows: seq<Json>)
    requires d.id != ""
    ensures CountOwn(d, OthersNormalized(d, rows)) == 0
    ensures OthersNormalized(d, OthersNormalized(d, rows)) == OthersNormalized(d, rows)
  {
    if rows != [] {
      var n := |rows| - 1;
      OthersHoldNoOwn(d, rows[..n]);
      if !IsOwn(d, rows[n]) {
        NormalizedIdempotent(rows[n]);
        StringThroughProjection(rows[n], Normalized(rows[n]), Id, d.id);
        var init := OthersNormalized(d, rows[..n]);
        assert (init + [Normalized(rows[n])])[..|init|] == init;
      }
    }
  }

  /**
   A post leaves exactly one own row, in sync; every other row is kept, in order, up to the projection;
   tags and colours that were returned are kept.
   */
  lemma PostContents(d: Device, f: Fetched)
    requires d.id != ""
    ensures var book := Merged(d, f);
            && CountOwn(d, book.peers) == 1 && InSync(d, book.peers)
            && OthersNormalized(d, book.peers) == OthersNormalized(d, Rows(f))
            && (f.Book? && f.tags.Some? ==> book.tags == f.tags.value)
            && (f.Book? && f.tagColors.Some? ==> book.tagColors == f.tagColors.value)
  {
    OthersHoldNoOwn(d, Rows(f));
    FreshRowAppended(d, OthersNormalized(d, Rows(f)));
  }

  lemma FreshRowAppended(d: Device, others: seq<Json>)
    ensures var rows := others + [FreshRow(d)];
            && CountOwn(d, rows) == CountOwn(d, others) + 1 && InSync(d, rows)
            && OthersNormalized(d, rows) == OthersNormalized(d, others)
  {
    var rows := others + [FreshRow(d)];
    assert rows[..|others|] == others && rows[|rows| - 1] == FreshRow(d);
    assert IsOwn(d, FreshRow(d));
  }

  /** Read off a row: the device as it is. */
  ghost predicate IsRowOf(d: Device, row: Json) {
    && StringAt(row, Id) == Some(d.id) && StringAt(row, Password) == Some(d.password)
    && StringAt(row, Alias) == Some(d.alias) && StringAt(row, Hostname) == Some(d.hostname)
    && StringAt(row, PlatformName) == Some(d.platform)
  }

  lemma {:induction false} PostedRow(d: Device, f: Fetched, book: AddressBook)
    requires Posted(d, f, book)
    ensures book.peers != [] && IsRowOf(d, book.peers[|book.peers| - 1])
  {
  }

  /**
   After a successful fetch and an accepted call, the last row with the device's id has its password and alias; the book
   is left alone exactly when the fetched row had both, and otherwise the row is the last of all, with host name and
   platform.
   */
  lemma {:induction false} CallLeavesTheRow(d: Device, f: Fetched, book: AddressBook)
    requires Registrable(d) && Fetches(book, f)
    ensures var after := Registered(d, f, true, book);
            && Stands(d, after.peers)
            && (Stands(d, f.peers.value) ==> after == book)
            && (!Stands(d, f.peers.value) ==>
                  Posted(d, f, after) && after.peers != [] && IsRowOf(d, after.peers[|after.peers| - 1]))
  {
    RegistrationRegisters(d, f, book);
    InSyncMeansStands(d, Registered(d, f, true, book).peers);
    InSyncMeansStands(d, f.peers.value);
    PostedBook(d, f);
    if !InSync(d, f.peers.value) {
      PostedRow(d, f, Merged(d, f));
    }
  }

  /** Registering again after a successful registration posts nothing. */
  lemma RegistrationIsIdempotent(d: Device, f: Fetched, book: AddressBook, again: Fetched)
    requires Registrable(d) && Fetches(book, f)
    requires Fetches(Registered(d, f, true, book), again)
    ensures InSync(d, Rows(again))
    ensures Registered(d, again, true, Registered(d, f, true, book)) == Registered(d, f, true, book)
  {
    var next := Registered(d, f, true, book);
    if InSync(d, Rows(f)) {
      InSyncThroughProjection(d, book.peers, Rows(f));
    } else {
      PostRegistersSelf(d, f);
    }
    InSyncThroughProjection(d, next.peers, Rows(again));
  }

  // ---------------------------------------------------------------- interleaved registrations

  datatype Call = Call(d: Device, f: Fetched)

  datatype System = System(book: AddressBook, outstanding: seq<Call>)

  datatype Step =
    | Get(d: Device, f: Fetched)
    | Finish(i: nat, accepted: bool)

  ghost predicate Enabled(sys: System, step: Step) {
    match step
    case Get(d, f) => Registrable(d) && (f.NoBook? || Fetches(sys.book, f))
    case Finish(i, _) => i < |sys.outstanding|
  }

  function Next(sys: System, step: Step): System
    requires step.Finish? ==> step.i < |sys.outstanding|
  {
    match step
    case Get(d, f) => sys.(outstanding := sys.outstanding + [Call(d, f)])
    case Finish(i, accepted) =>
      var c := sys.outstanding[i];
      System(Registered(c.d, c.f, accepted, sys.book), RemoveAt(sys.outstanding, i))
  }

  ghost predicate Reaches(sys: System, steps: seq<Step>, sys': System)
    decreases |steps|
  {
    if steps == [] then sys' == sys
    else Enabled(sys, steps[0]) && Reaches(Next(sys, steps[0]), steps[1..], sys')
  }

  /** `d` is registered on the server and in every snapshot that may still be posted. */
  ghost predicate Safe(d: Device, sys: System) {
    && InSync(d, sys.book.peers)
    && forall i :: 0 <= i < |sys.outstanding| ==>
         (sys.outstanding[i].d.id == d.id ==> sys.outstanding[i].d == d) && InSync(d, Rows(sys.outstanding[i].f))
  }

  /** No other device uses the id, and the fetch succeeds. */
  ghost predicate Orderly(d: Device, step: Step) {
    step.Get? ==> step.f.Book? && (step.d.id == d.id ==> step.d == d)
  }

  lemma FinishKeepsRow(d: Device, c: Call, accepted: bool, book: AddressBook)
    requires Registrable(d) && InSync(d, book.peers) && InSync(d, Rows(c.f)) && (c.d.id == d.id ==> c.d == d)
    ensures InSync(d, Registered(c.d, c.f, accepted, book).peers)
  {
    if c.d.id != d.id {
      PostKeepsExactly(d, c.d, c.f);
    }
  }

  lemma NextKeepsSafe(d: Device, sys: System, step: Step)
    requires Registrable(d) && Safe(d, sys) && Enabled(sys, step) && Orderly(d, step)
    ensures Safe(d, Next(sys, step))
  {
    match step
    case Get(e, f) =>
      InSyncThroughProjection(d, sys.book.peers, Rows(f));
    case Finish(i, accepted) =>
      FinishKeepsRow(d, sys.outstanding[i], accepted, sys.book);
  }

  /** However gets and posts interleave, a registered row in every live snapshot is never lost. */
  lemma {:induction false} RowIsNeverLost(d: Device, sys: System, steps: seq<Step>, sys': System)
    requires Registrable(d) && Safe(d, sys) && Reaches(sys, steps, sys')
    requires forall step :: step in steps ==> Orderly(d, step)
    ensures Safe(d, sys') && Stands(d, sys'.book.peers)
    decreases |steps|
  {
    InSyncMeansStands(d, sys'.book.peers);
    if steps != [] {
      NextKeepsSafe(d, sys, steps[0]);
      RowIsNeverLost(d, Next(sys, steps[0]), steps[1..], sys');
    }
  }

  /** Finishing a call on a registered row: exactly the posts from a snapshot without the row lose it. */
  lemma FinishLosesExactly(d: Device, sys: System, i: nat)
    requires Registrable(d) && i < |sys.outstanding| && InSync(d, sys.book.peers)
    requires sys.outstanding[i].d.id != d.id
    ensures var c := sys.outstanding[i];
            InSync(d, Next(sys, Finish(i, true)).book.peers)
            <==> InSync(c.d, Rows(c.f)) || InSync(d, Rows(c.f))
  {
    PostKeepsExactly(d, sys.outstanding[i].d, sys.outstanding[i].f);
  }

  // ---------------------------------------------------------------- self-healing

  /** Registrations one after the other, each with its own successful fetch and an accepted post. */
  ghost predicate Sequential(book: AddressBook, calls: seq<Call>, book': AddressBook)
    decreases |calls|
  {
    if calls == [] then book' == book
    else
      && Registrable(calls[0].d) && Fetches(book, calls[0].f)
      && Sequential(Registered(calls[0].d, calls[0].f, true, book), calls[1..], book')
  }

  ghost predicate DistinctDevices(calls: seq<Call>) {
    forall i, j :: 0 <= i < |calls| && 0 <= j < |calls| && calls[i].d.id == calls[j].d.id ==> calls[i].d == calls[j].d
  }

  lemma RegistrationRegisters(d: Device, f: Fetched, book: AddressBook)
    requires Registrable(d) && Fetches(book, f)
    ensures InSync(d, Registered(d, f, true, book).peers)
  {
    if InSync(d, Rows(f)) {
      InSyncThroughProjection(d, book.peers, Rows(f));
    } else {
      PostRegistersSelf(d, f);
    }
  }

  lemma RegistrationSpares(d: Device, c: Call, book: AddressBook)
    requires Registrable(d) && Registrable(c.d) && Fetches(book, c.f) && c.d.id != d.id
    requires InSync(d, book.peers)
    ensures InSync(d, Registered(c.d, c.f, true, book).peers)
  {
    InSyncThroughProjection(d, book.peers, Rows(c.f));
    PostKeepsExactly(d, c.d, c.f);
  }

  lemma {:induction false} SequentialKeeps(d: Device, book: AddressBook, calls: seq<Call>, book': AddressBook)
    requires Registrable(d) && Sequential(book, calls, book') && InSync(d, book.peers)
    requires forall c :: c in calls && c.d.id == d.id ==> c.d == d
    ensures InSync(d, book'.peers)
    decreases |calls|
  {
    if calls != [] {
      var next := Registered(calls[0].d, calls[0].f, true, book);
      if calls[0].d.id == d.id {
        RegistrationRegisters(d, calls[0].f, book);
      } else {
        RegistrationSpares(d, calls[0], book);
      }
      SequentialKeeps(d, next, calls[1..], book');
    }
  }

  lemma {:induction false} SequentialRegisters(book: AddressBook, calls: seq<Call>, book': AddressBook, i: nat)
    requires Sequential(book, calls, book') && DistinctDevices(calls) && i < |calls|
    ensures InSync(calls[i].d, book'.peers)
    decreases |calls|
  {
    if i == 0 {
      FirstStaysRegistered(book, calls, book');
    } else {
      var rest := calls[1..];
      assert rest[i - 1] == calls[i];
      DistinctTail(calls);
      SequentialRegisters(Registered(calls[0].d, calls[0].f, true, book), rest, book', i - 1);
    }
  }

  /**
   Self-healing: from any book, whatever races or failed fetches produced it, registrations that do not
   overlap leave every device that took part registered: its last row has its password and its alias.
   */
  lemma SequentialHeals(book: AddressBook, calls: seq<Call>, book': AddressBook, i: nat)
    requires Sequential(book, calls, book') && DistinctDevices(calls) && i < |calls|
    ensures InSync(calls[i].d, book'.peers) && Stands(calls[i].d, book'.peers)
  {
    SequentialRegisters(book, calls, book', i);
    InSyncMeansStands(calls[i].d, book'.peers);
  }

  lemma {:induction false} FirstStaysRegistered(book: AddressBook, calls: seq<Call>, book': AddressBook)
    requires Sequential(book, calls, book') && DistinctDevices(calls) && calls != []
    ensures InSync(calls[0].d, book'.peers)
  {
    RegistrationRegisters(calls[0].d, calls[0].f, book);
    DistinctTail(calls);
    SequentialKeeps(calls[0].d, Registered(calls[0].d, calls[0].f, true, book), calls[1..], book');
  }

  lemma DistinctTail(calls: seq<Call>)
    requires DistinctDevices(calls) && calls != []
    ensures DistinctDevices(calls[1..])
    ensures forall c :: c in calls[1..] && c.d.id == calls[0].d.id ==> c.d == calls[0].d
  {
    assert forall j :: 0 <= j < |calls| - 1 ==> calls[1..][j] == calls[j + 1];
    forall c | c in calls[1..] && c.d.id == calls[0].d.id
      ensures c.d == calls[0].d
    {
      var j :| 0 <= j < |calls| - 1 && calls[1..][j] == c;
      assert calls[j + 1] == c;
    }
  }

  /** After a failed fetch the post wipes every other device. */
  lemma FailedFetchWipes(d: Device, e: Device, book: AddressBook)
    requires Registrable(d) && e.id != d.id
    ensures var after := Registered(e, NoBook, true, book).peers;
            |after| == 1 && StringAt(after[0], Id) == Some(e.id) && !InSync(d, after) && !Stands(d, after)
  {
    PostKeepsExactly(d, e, NoBook);
    InSyncMeansStands(d, Registered(e, NoBook, true, book).peers);
  }

  /** Two first boots that overlap: the later post loses the earlier device. */
  lemma OverlappingFirstBoots(d: Device, e: Device, book: AddressBook) returns (steps: seq<Step>, sys': System)
    requires Registrable(d) && Registrable(e) && d.id != e.id
    requires !InSync(d, book.peers) && !InSync(e, book.peers)
    ensures Reaches(System(book, []), steps, sys')
    ensures InSync(e, sys'.book.peers) && !InSync(d, sys'.book.peers)
    ensures Stands(e, sys'.book.peers) && !Stands(d, sys'.book.peers)
  {
    var f := Book(Some(book.peers), Some(book.tags), Some(book.tagColors));
    var s0 := System(book, []);
    var s1 := Next(s0, Get(d, f));
    var s2 := Next(s1, Get(e, f));
    var s3 := Next(s2, Finish(0, true));
    sys' := Next(s3, Finish(0, true));
    steps := [Get(d, f), Get(e, f), Finish(0, true), Finish(0, true)];
    assert steps[1..] == [Get(e, f), Finish(0, true), Finish(0, true)];
    assert steps[1..][1..] == [Finish(0, true), Finish(0, true)];
    assert steps[1..][1..][1..] == [Finish(0, true)];
    assert Reaches(sys', [], sys');
    assert Reaches(s3, [Finish(0, true)], sys');
    assert Reaches(s2, [Finish(0, true), Finish(0, true)], sys');
    assert Reaches(s1, [Get(e, f), Finish(0, true), Finish(0, true)], sys');
    assert s2.outstanding[0] == Call(d, f) && s3.outstanding[0] == Call(e, f);
    PostKeepsExactly(d, e, f);
    PostRegistersSelf(e, f);
    InSyncMeansStands(d, sys'.book.peers);
    InSyncMeansStands(e, sys'.book.peers);
  }
}
