/**
 Where the remembered password comes from: the part of the login configuration that keeps a password
 for reconnecting, its source, and the rules for writing it to the stored peer configuration.

 SHA-256 over a text and a salt is an uninterpreted function that never returns nothing. The stored
 password is the one on disk, which the handler reloads before it changes it.
 */
module LoginPassword {

  import opened Common

  type Bytes = seq<bv8>
  type Digest = (string, string) -> Bytes

  datatype Source = PersonalAb(hash: Bytes) | SharedAb(text: string) | Undefined

  datatype Token = Token(password: Bytes, source: Source)

  /** `switchUuid` holds whether the identifier of a pending side switch parses. */
  datatype Handler = Handler(
    password: Bytes, source: Source, salt: string, shared: Option<string>,
    switchUuid: Option<bool>, remember: bool, stored: Bytes)

  predicate IsPersonalAb(source: Source, password: Bytes) {
    password != [] && source.PersonalAb? && source.hash == password
  }

  predicate IsSharedAb(sha: Digest, source: Source, password: Bytes, salt: string) {
    password != [] && source.SharedAb? && password == sha(source.text, salt)
  }

  // ---------------------------------------------------------------- the steps of a login

  function Initialized(h: Handler, token: Option<Token>, shared: Option<string>, switchUuid: Option<bool>): Handler {
    var h1 := h.(remember := h.stored != [], shared := shared, switchUuid := switchUuid);
    if token.Some? then h1.(password := token.value.password, source := token.value.source) else h1
  }

  /** What a reconnect is given to carry on with. */
  function ConnToken(h: Handler): Option<Token> {
    if h.password == [] then None else Some(Token(h.password, h.source))
  }

  /** What the peer's hash message brings together with the passwords that are at hand. */
  datatype HashInputs = HashInputs(salt: string, preset: string, personal: Bytes, default: string)

  predicate SwitchesSides(h: Handler) {
    h.switchUuid == Some(true)
  }

  /** The order in which passwords are tried. */
  function Chosen(sha: Digest, h: Handler, x: HashInputs): Token {
    if h.shared.Some? && h.shared.value != "" then Token(sha(h.shared.value, x.salt), SharedAb(h.shared.value))
    else if h.password != [] then Token(h.password, h.source)
    else if x.preset != "" then Token(sha(x.preset, x.salt), Undefined)
    else if h.stored != [] then Token(h.stored, Undefined)
    else if x.personal != [] then Token(x.personal, PersonalAb(x.personal))
    else if x.default != "" then Token(sha(x.default, x.salt), SharedAb(x.default))
    else Token([], h.source)
  }

  function AfterHash(sha: Digest, h: Handler, x: HashInputs): Handler {
    if SwitchesSides(h) then h.(salt := x.salt, switchUuid := None, source := Undefined)
    else
      var t := Chosen(sha, h, x);
      h.(salt := x.salt, switchUuid := None, shared := None, password := t.password, source := t.source)
  }

  /** A wrong or missing password is forgotten; its source stays. */
  function AfterLoginError(h: Handler, passwordEmptyOrWrong: bool): Handler {
    if passwordEmptyOrWrong then h.(password := []) else h
  }

  function AfterUiLogin(sha: Digest, h: Handler, text: string, remember: bool): Handler {
    if text != "" then h.(password := sha(text, h.salt), source := Undefined, remember := remember)
    else if h.password != [] then h
    else if h.stored != [] then h.(password := h.stored, source := Undefined)
    else h
  }

  /** The login is accepted: remember, forget or leave the stored password. */
  function StoredAfterPeerInfo(sha: Digest, h: Handler): Bytes {
    if h.remember then
      if h.password != [] && !IsSharedAb(sha, h.source, h.password, h.salt) then h.password else h.stored
    else if IsPersonalAb(h.source, h.password) then h.password
    else []
  }

  function AfterPeerInfo(sha: Digest, h: Handler): Handler {
    h.(stored := StoredAfterPeerInfo(sha, h))
  }

  /** The password that is pushed to the personal address book, if any. */
  function SyncedToPersonalAb(sha: Digest, h: Handler): Option<Bytes> {
    var stored := StoredAfterPeerInfo(sha, h);
    if stored != [] && !IsSharedAb(sha, h.source, h.password, h.salt) && !IsPersonalAb(h.source, h.password)
    then Some(stored) else None
  }

  /**
   A reconnect, by whatever handler, goes on with the password and source of the connection that made its
   token, and asks nobody else for one, unless it brings a shared password or switches sides.
   */
  lemma ReconnectKeepsPassword(sha: Digest, h: Handler, again: Handler, shared: Option<string>, uuid: Option<bool>,
          x: HashInputs)
    requires ConnToken(h).Some?
    ensures var login := AfterHash(sha, Initialized(again, ConnToken(h), shared, uuid), x);
            ConnToken(login) == ConnToken(h) <==>
              || (uuid == Some(true) && h.source == Undefined)
              || (uuid != Some(true) && (shared.None? || shared.value == ""
                   || (h.source == SharedAb(shared.value) && h.password == sha(shared.value, x.salt))))
  {
    var mid := Initialized(again, ConnToken(h), shared, uuid);
    assert mid.password == h.password && mid.source == h.source;
  }

  // ---------------------------------------------------------------- the imperative handler

  ghost predicate NeverEmpty(sha: Digest) {
    forall text, salt :: sha(text, salt) != []
  }

  class LoginConfigHandler {
    var password: Bytes
    var source: Source
    var salt: string
    var shared: Option<string>
    var switchUuid: Option<bool>
    var remember: bool
    var stored: Bytes

    ghost function View(): Handler
      reads this
    {
      Handler(password, source, salt, shared, switchUuid, remember, stored)
    }

    method Initialize(token: Option<Token>, sharedPassword: Option<string>, uuid: Option<bool>)
      modifies this
      ensures View() == Initialized(old(View()), token, sharedPassword, uuid)
      ensures remember == (stored != []) && stored == old(stored) && salt == old(salt)
      ensures switchUuid == uuid && shared == sharedPassword
      ensures password == (if token.Some? then token.value.password else old(password))
      ensures source == (if token.Some? then token.value.source else old(source))
    {
      remember := stored != [];
      if token.Some? {
        password := token.value.password;
        source := token.value.source;
      }
      switchUuid := uuid;
      shared := sharedPassword;
    }

    method HandleHash(sha: Digest, x: HashInputs)
      requires NeverEmpty(sha)
      modifies this
      ensures View() == AfterHash(sha, old(View()), x)
      ensures salt == x.salt && switchUuid == None && remember == old(remember) && stored == old(stored)
      // A side switch sends no password and leaves the rest for later.
      ensures old(switchUuid) == Some(true) ==>
                password == old(password) && shared == old(shared) && source == Undefined
      ensures old(switchUuid) != Some(true) ==> shared == None
      // A shared password that was just handed over comes before everything else.
      ensures old(switchUuid) != Some(true) && old(shared).Some? && old(shared).value != "" ==>
                password == sha(old(shared).value, x.salt) && source == SharedAb(old(shared).value)
      // Otherwise the last password is kept, and without one comes what is at hand: preset, stored, personal, default.
      ensures old(switchUuid) != Some(true) && (old(shared).None? || old(shared).value == "") ==>
                && (old(password) != [] ==> password == old(password) && source == old(source))
                && (old(password) == [] && x.preset != "" ==> password == sha(x.preset, x.salt) && source == Undefined)
                && (old(password) == [] && x.preset == "" && stored != [] ==> password == stored && source == Undefined)
                && (old(password) == [] && x.preset == "" && stored == [] ==>
                      && (x.personal != [] ==> password == x.personal && source == PersonalAb(x.personal))
                      && (x.personal == [] && x.default != "" ==>
                            password == sha(x.default, x.salt) && source == SharedAb(x.default))
                      && (x.personal == [] && x.default == "" ==> password == [] && source == old(source)))
    {
      salt := x.salt;
      var uuid := switchUuid;
      switchUuid := None;
      if uuid == Some(true) {
        source := Undefined;
        return;
      }
      var p := password;
      if p == [] && x.preset != "" {
        p := sha(x.preset, salt);
        source := Undefined;
      }
      var s := shared;
      shared := None;
      if s.Some? && s.value != "" {
        p := sha(s.value, salt);
        source := SharedAb(s.value);
      }
      if p == [] {
        p := stored;
        if p != [] {
          source := Undefined;
        }
      }
      if p == [] && x.personal != [] {
        p := x.personal;
        source := PersonalAb(x.personal);
      }
      if p == [] && x.default != "" {
        p := sha(x.default, salt);
        source := SharedAb(x.default);
      }
      password := p;
    }

    method HandleLoginError(passwordEmptyOrWrong: bool)
      modifies this`password
      ensures View() == AfterLoginError(old(View()), passwordEmptyOrWrong)
      ensures password == if passwordEmptyOrWrong then [] else old(password)
    {
      if passwordEmptyOrWrong {
        password := [];
      }
    }

    method HandleLoginFromUi(sha: Digest, text: string, rememberIt: bool)
      modifies this
      ensures View() == AfterUiLogin(sha, old(View()), text, rememberIt)
      ensures stored == old(stored) && salt == old(salt) && shared == old(shared) && switchUuid == old(switchUuid)
      ensures text != "" ==> password == sha(text, salt) && source == Undefined && remember == rememberIt
      ensures text == "" ==> remember == old(remember)
      ensures text == "" && old(password) != [] ==> password == old(password) && source == old(source)
      ensures text == "" && old(password) == [] ==>
                password == stored && source == if stored != [] then Undefined else old(source)
    {
      var p;
      if text == "" {
        p := password;
        if p == [] {
          p := stored;
          if p != [] {
            source := Undefined;
          }
        }
      } else {
        source := Undefined;
        p := sha(text, salt);
        remember := rememberIt;
      }
      password := p;
    }

    method HandlePeerInfo(sha: Digest) returns (synced: Option<Bytes>)
      modifies this`stored
      ensures View() == AfterPeerInfo(sha, old(View()))
      ensures synced == SyncedToPersonalAb(sha, old(View()))
      ensures var isShared := source.SharedAb? && password != [] && password == sha(source.text, salt);
              var isPersonal := source.PersonalAb? && password != [] && password == source.hash;
              && (remember && password != [] && !isShared ==> stored == password)
              && (remember && (password == [] || isShared) ==> stored == old(stored))
              && (!remember && isPersonal ==> stored == password)
              && (!remember && !isPersonal ==> stored == [])
              && (synced.Some? <==> stored != [] && !isShared && !isPersonal)
              && (synced.Some? ==> synced.value == stored)
    {
      var before := stored;
      if remember {
        if password != [] && password != before && !IsSharedAb(sha, source, password, salt) {
          stored := password;
        }
      } else {
        if IsPersonalAb(source, password) {
          stored := password;
        } else if before != [] {
          stored := [];
        }
      }
      if stored != [] && !IsSharedAb(sha, source, password, salt) && !IsPersonalAb(source, password) {
        return Some(stored);
      }
      return None;
    }

    method GetConnToken() returns (t: Option<Token>)
      ensures t == ConnToken(View())
    {
      return if password == [] then None else Some(Token(password, source));
    }
  }

  // ---------------------------------------------------------------- whole runs

  /**
   Where a password really came from, independently of the source field; a shared one with the salt it was
   hashed with.
   */
  datatype Origin = NoPassword | FromUser | FromStored | FromPersonalAb | FromShared(text: string, salt: string)

  datatype TracedToken = TracedToken(t: Token, origin: Origin)

  /** The handler with true origins, and the connection tokens handed out so far. */
  datatype Traced = Traced(h: Handler, origin: Origin, storedOrigin: Origin, tokens: seq<TracedToken>)

  /** A new handler, with whatever the user once stored. */
  function Fresh(salt: string, stored: Bytes): Traced {
    Traced(Handler([], Undefined, salt, None, None, false, stored), NoPassword, FromUser, [])
  }

  datatype Step =
    | Init(token: Option<nat>, shared: Option<string>, switchUuid: Option<bool>)
    | HashMsg(x: HashInputs)
    | LoginError(passwordEmptyOrWrong: bool)
    | UiLogin(text: string, remember: bool)
    | PeerInfo
    | MakeToken

  predicate Enabled(t: Traced, step: Step) {
    step.Init? && step.token.Some? ==> step.token.value < |t.tokens|
  }

  function OriginAfterHash(t: Traced, x: HashInputs): Origin {
    var h := t.h;
    if SwitchesSides(h) then t.origin
    else if h.shared.Some? && h.shared.value != "" then FromShared(h.shared.value, x.salt)
    else if h.password != [] then t.origin
    else if x.preset != "" then FromUser
    else if h.stored != [] then FromStored
    else if x.personal != [] then FromPersonalAb
    else if x.default != "" then FromShared(x.default, x.salt)
    else NoPassword
  }

  function Next(sha: Digest, t: Traced, step: Step): Traced
    requires Enabled(t, step)
  {
    match step
    case Init(None, shared, uuid) => t.(h := Initialized(t.h, None, shared, uuid))
    case Init(Some(i), shared, uuid) =>
      t.(h := Initialized(t.h, Some(t.tokens[i].t), shared, uuid), origin := t.tokens[i].origin)
    case HashMsg(x) => t.(h := AfterHash(sha, t.h, x), origin := OriginAfterHash(t, x))
    case LoginError(bad) => t.(h := AfterLoginError(t.h, bad), origin := if bad then NoPassword else t.origin)
    case UiLogin(text, remember) =>
      t.(h := AfterUiLogin(sha, t.h, text, remember),
         origin := if text != "" then FromUser
                   else if t.h.password == [] && t.h.stored != [] then FromStored else t.origin)
    case PeerInfo =>
      var h' := AfterPeerInfo(sha, t.h);
      t.(h := h',
         storedOrigin := if h'.stored == t.h.stored then t.storedOrigin
                         else if h'.stored == [] then NoPassword else t.origin)
    case MakeToken =>
      match ConnToken(t.h)
      case None => t
      case Some(token) => t.(tokens := t.tokens + [TracedToken(token, t.origin)])
  }

  ghost predicate Reaches(sha: Digest, t: Traced, steps: seq<Step>, t': Traced)
    decreases |steps|
  {
    if steps == [] then t' == t
    else Enabled(t, steps[0]) && Reaches(sha, Next(sha, t, steps[0]), steps[1..], t')
  }

  // ---------------------------------------------------------------- what an accepted login leaves on disk

  /** The disk changes only when a login is accepted. */
  lemma {:induction false} DiskStays(sha: Digest, t: Traced, steps: seq<Step>, t': Traced)
    requires Reaches(sha, t, steps, t') && PeerInfo !in steps
    ensures t'.h.stored == t.h.stored && t'.storedOrigin == t.storedOrigin
    decreases |steps|
  {
    if steps != [] {
      DiskStays(sha, Next(sha, t, steps[0]), steps[1..], t');
    }
  }

  /**
   After a login that is accepted with remembering off, unless the personal address book dictates the password, nothing is
   left on disk nor published, until another login is accepted.
   */
  lemma ForgottenStaysForgotten(sha: Digest, t: Traced, steps: seq<Step>, t': Traced)
    requires !t.h.remember && !(t.h.password != [] && t.h.source == PersonalAb(t.h.password))
    requires Reaches(sha, Next(sha, t, PeerInfo), steps, t') && PeerInfo !in steps
    ensures t'.h.stored == [] && SyncedToPersonalAb(sha, t.h) == None
  {
    DiskStays(sha, Next(sha, t, PeerInfo), steps, t');
  }

  /** A typed password is on disk after the login exactly if the user asked for that, and then it is also published. */
  lemma TypedPasswordIsStoredIfAsked(sha: Digest, t: Traced, text: string, remember: bool, steps: seq<Step>, t': Traced)
    requires NeverEmpty(sha) && text != ""
    requires var typed := Next(sha, t, UiLogin(text, remember));
             Reaches(sha, Next(sha, typed, PeerInfo), steps, t') && PeerInfo !in steps
    ensures t'.h.stored == if remember then sha(text, t.h.salt) else []
    ensures SyncedToPersonalAb(sha, Next(sha, t, UiLogin(text, remember)).h)
            == if remember then Some(sha(text, t.h.salt)) else None
  {
    DiskStays(sha, Next(sha, Next(sha, t, UiLogin(text, remember)), PeerInfo), steps, t');
  }

  // ---------------------------------------------------------------- the source field tells the truth

  /** The password is empty, its source undefined, or it is what its source dictates. */
  ghost predicate Dictated(sha: Digest, salt: string, t: Token) {
    t.password == [] ||
    match t.source
    case Undefined => true
    case PersonalAb(hash) => t.password == hash
    case SharedAb(text) => t.password == sha(text, salt)
  }

  ghost predicate Provenance(sha: Digest, salt: string, t: Traced) {
    && t.h.salt == salt
    && Dictated(sha, salt, Token(t.h.password, t.h.source))
    && forall i :: 0 <= i < |t.tokens| ==> Dictated(sha, salt, t.tokens[i].t)
  }

  ghost predicate SaltFixed(salt: string, step: Step) {
    step.HashMsg? ==> step.x.salt == salt
  }

  lemma NextKeepsProvenance(sha: Digest, salt: string, t: Traced, step: Step)
    requires Provenance(sha, salt, t) && Enabled(t, step) && SaltFixed(salt, step)
    ensures Provenance(sha, salt, Next(sha, t, step))
  {
  }

  lemma {:induction false} RunKeepsProvenance(sha: Digest, salt: string, t: Traced, steps: seq<Step>, t': Traced)
    requires Provenance(sha, salt, t) && Reaches(sha, t, steps, t')
    requires forall step :: step in steps ==> SaltFixed(salt, step)
    ensures Provenance(sha, salt, t')
    decreases |steps|
  {
    if steps != [] {
      NextKeepsProvenance(sha, salt, t, steps[0]);
      RunKeepsProvenance(sha, salt, Next(sha, t, steps[0]), steps[1..], t');
    }
  }

  /** After any run with one salt, accepting the login never stores or publishes a password whose source is shared. */
  lemma SharedSourceIsNeverSaved(sha: Digest, salt: string, t: Traced, steps: seq<Step>, t': Traced)
    requires Provenance(sha, salt, t) && Reaches(sha, t, steps, t')
    requires forall step :: step in steps ==> SaltFixed(salt, step)
    requires t'.h.source.SharedAb? && t'.h.password != []
    ensures StoredAfterPeerInfo(sha, t'.h) == t'.h.stored || StoredAfterPeerInfo(sha, t'.h) == []
    ensures SyncedToPersonalAb(sha, t'.h) == None
  {
    RunKeepsProvenance(sha, salt, t, steps, t');
  }

  /**
   A hash message with another salt keeps the rule exactly if no shared password is carried over that the new
   salt misreads.
   */
  lemma SaltChangeExactly(sha: Digest, h: Handler, x: HashInputs)
    requires Dictated(sha, h.salt, Token(h.password, h.source))
    ensures var h' := AfterHash(sha, h, x);
            Dictated(sha, h'.salt, Token(h'.password, h'.source))
            <==> SwitchesSides(h) || (h.shared.Some? && h.shared.value != "") || h.password == []
                 || !h.source.SharedAb? || sha(h.source.text, x.salt) == h.password
  {
  }

  // ---------------------------------------------------------------- shared passwords stay off the disk

  /** A password that really is a shared one says so in its source. */
  ghost predicate Declared(sha: Digest, t: Token, origin: Origin) {
    origin.FromShared? && t.password != [] ==>
      t.source == SharedAb(origin.text) && t.password == sha(origin.text, origin.salt)
  }

  ghost predicate Clean(sha: Digest, t: Traced) {
    && Declared(sha, Token(t.h.password, t.h.source), t.origin)
    && (forall i :: 0 <= i < |t.tokens| ==> Declared(sha, t.tokens[i].t, t.tokens[i].origin))
    && !t.storedOrigin.FromShared?
  }

  lemma FreshIsClean(sha: Digest, salt: string, stored: Bytes)
    ensures Clean(sha, Fresh(salt, stored)) && Provenance(sha, salt, Fresh(salt, stored))
    ensures OneSalt(salt, Fresh(salt, stored))
  {
  }

  /** A side switch while a shared password is remembered. */
  predicate SwitchesWithShared(t: Traced, step: Step) {
    step.HashMsg? && SwitchesSides(t.h) && t.origin.FromShared? && t.h.password != []
  }

  /** A login is accepted, and remembered, under a salt that no longer explains the shared password. */
  predicate StoresUnderOtherSalt(sha: Digest, t: Traced, step: Step) {
    && step.PeerInfo? && t.h.remember && t.origin.FromShared?
    && t.h.password != [] && t.h.password != t.h.stored && t.h.password != sha(t.origin.text, t.h.salt)
  }

  /** Whatever the salts, every step keeps shared passwords declared and off the disk, except exactly these two. */
  lemma NextKeepsCleanExactly(sha: Digest, t: Traced, step: Step)
    requires Clean(sha, t) && Enabled(t, step)
    ensures Clean(sha, Next(sha, t, step)) <==> !SwitchesWithShared(t, step) && !StoresUnderOtherSalt(sha, t, step)
  {
  }

  ghost predicate Guarded(sha: Digest, t: Traced, steps: seq<Step>)
    decreases |steps|
  {
    steps == [] ||
    (Enabled(t, steps[0]) && !SwitchesWithShared(t, steps[0]) && !StoresUnderOtherSalt(sha, t, steps[0])
     && Guarded(sha, Next(sha, t, steps[0]), steps[1..]))
  }

  ghost predicate CleanThroughout(sha: Digest, t: Traced, steps: seq<Step>)
    decreases |steps|
  {
    Clean(sha, t) && (steps == [] || (Enabled(t, steps[0]) && CleanThroughout(sha, Next(sha, t, steps[0]), steps[1..])))
  }

  /**
   Over whole runs, reconnects and changes of salt included, nothing shared reaches the disk or loses its source
   exactly when every step is guarded.
   */
  lemma {:induction false} SharedStaysOffDiskExactly(sha: Digest, t: Traced, steps: seq<Step>, t': Traced)
    requires Clean(sha, t) && Reaches(sha, t, steps, t')
    ensures CleanThroughout(sha, t, steps) <==> Guarded(sha, t, steps)
    decreases |steps|
  {
    if steps != [] {
      NextKeepsCleanExactly(sha, t, steps[0]);
      if Clean(sha, Next(sha, t, steps[0])) {
        SharedStaysOffDiskExactly(sha, Next(sha, t, steps[0]), steps[1..], t');
      } else {
        assert !CleanThroughout(sha, Next(sha, t, steps[0]), steps[1..]);
      }
    }
  }

  /** So it is from a new handler, whatever the user once stored. */
  lemma NewHandlerKeepsSharedOffDisk(sha: Digest, salt: string, stored: Bytes, steps: seq<Step>, t': Traced)
    requires Reaches(sha, Fresh(salt, stored), steps, t')
    ensures CleanThroughout(sha, Fresh(salt, stored), steps) <==> Guarded(sha, Fresh(salt, stored), steps)
  {
    FreshIsClean(sha, salt, stored);
    SharedStaysOffDiskExactly(sha, Fresh(salt, stored), steps, t');
  }

  /** Everything was hashed with the salt of the peer. */
  ghost predicate OneSalt(salt: string, t: Traced) {
    && t.h.salt == salt && (t.origin.FromShared? ==> t.origin.salt == salt)
    && forall i :: 0 <= i < |t.tokens| && t.tokens[i].origin.FromShared? ==> t.tokens[i].origin.salt == salt
  }

  lemma NextKeepsOneSalt(sha: Digest, salt: string, t: Traced, step: Step)
    requires OneSalt(salt, t) && Enabled(t, step) && SaltFixed(salt, step)
    ensures OneSalt(salt, Next(sha, t, step))
    ensures Clean(sha, t) ==> !StoresUnderOtherSalt(sha, t, step)
  {
  }

  ghost predicate NoSharedSwitch(sha: Digest, t: Traced, steps: seq<Step>)
    decreases |steps|
  {
    steps == [] ||
    (Enabled(t, steps[0]) && !SwitchesWithShared(t, steps[0]) && NoSharedSwitch(sha, Next(sha, t, steps[0]), steps[1..]))
  }

  /** While the peer keeps its salt, only a side switch can put a shared password on disk. */
  lemma {:induction false} SharedStaysOffDisk(sha: Digest, salt: string, t: Traced, steps: seq<Step>, t': Traced)
    requires Clean(sha, t) && OneSalt(salt, t) && Reaches(sha, t, steps, t')
    requires forall step :: step in steps ==> SaltFixed(salt, step)
    requires NoSharedSwitch(sha, t, steps)
    ensures Clean(sha, t') && !t'.storedOrigin.FromShared?
    decreases |steps|
  {
    if steps != [] {
      NextKeepsOneSalt(sha, salt, t, steps[0]);
      NextKeepsCleanExactly(sha, t, steps[0]);
      SharedStaysOffDisk(sha, salt, Next(sha, t, steps[0]), steps[1..], t');
    }
  }

  /** One more step at the end of a run. */
  lemma {:induction false} Extend(sha: Digest, t: Traced, steps: seq<Step>, mid: Traced, step: Step)
    returns (steps': seq<Step>, t': Traced)
    requires Reaches(sha, t, steps, mid) && Enabled(mid, step)
    ensures t' == Next(sha, mid, step) && steps' == steps + [step] && Reaches(sha, t, steps', t')
    decreases |steps|
  {
    t' := Next(sha, mid, step);
    steps' := steps + [step];
    if steps == [] {
      assert Reaches(sha, t', [], t');
    } else {
      var rest, end := Extend(sha, Next(sha, t, steps[0]), steps[1..], mid, step);
      assert steps'[1..] == rest;
    }
  }

  /** The first excluded run: a reconnect with a token that switches sides stores the shared password. */
  lemma SideSwitchStoresShared(sha: Digest, salt: string, text: string, stored: Bytes)
    returns (steps: seq<Step>, t': Traced)
    requires NeverEmpty(sha) && text != "" && stored != [] && stored != sha(text, salt)
    ensures Reaches(sha, Fresh(salt, stored), steps, t') && forall step :: step in steps ==> SaltFixed(salt, step)
    ensures t'.h.stored == sha(text, salt) && t'.storedOrigin == FromShared(text, salt)
  {
    var t := Fresh(salt, stored);
    var hash := HashMsg(HashInputs(salt, "", [], ""));
    assert Reaches(sha, t, [], t);
    steps, t' := Extend(sha, t, [], t, Init(None, Some(text), None));
    steps, t' := Extend(sha, t, steps, t', hash);
    steps, t' := Extend(sha, t, steps, t', MakeToken);
    steps, t' := Extend(sha, t, steps, t', Init(Some(0), None, Some(true)));
    steps, t' := Extend(sha, t, steps, t', hash);
    steps, t' := Extend(sha, t, steps, t', PeerInfo);
  }

  /** The second: the peer sends another salt before it accepts the login. */
  lemma SaltChangeStoresShared(sha: Digest, a: string, b: string, text: string, stored: Bytes)
    returns (steps: seq<Step>, t': Traced)
    requires NeverEmpty(sha) && text != "" && stored != [] && stored != sha(text, a) && sha(text, a) != sha(text, b)
    ensures Reaches(sha, Fresh(a, stored), steps, t') && NoSharedSwitch(sha, Fresh(a, stored), steps)
    ensures t'.h.stored == sha(text, a) && t'.storedOrigin == FromShared(text, a)
  {
    var t := Fresh(a, stored);
    var s1 := Init(None, Some(text), None);
    var s2, s3 := HashMsg(HashInputs(a, "", [], "")), HashMsg(HashInputs(b, "", [], ""));
    var t1 := Next(sha, t, s1);
    var t2 := Next(sha, t1, s2);
    var t3 := Next(sha, t2, s3);
    assert Reaches(sha, t, [], t);
    steps, t' := Extend(sha, t, [], t, s1);
    steps, t' := Extend(sha, t, steps, t', s2);
    steps, t' := Extend(sha, t, steps, t', s3);
    steps, t' := Extend(sha, t, steps, t', PeerInfo);
    assert NoSharedSwitch(sha, t3, [PeerInfo]);
    assert NoSharedSwitch(sha, t2, [s3, PeerInfo]) by {
      assert [s3, PeerInfo][1..] == [PeerInfo];
    }
    assert NoSharedSwitch(sha, t1, [s2, s3, PeerInfo]) by {
      assert [s2, s3, PeerInfo][1..] == [s3, PeerInfo];
    }
    assert steps == [s1, s2, s3, PeerInfo] && steps[1..] == [s2, s3, PeerInfo];
  }
}
