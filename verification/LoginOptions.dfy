/**
 Session options of a default connection: each toggle changes the peer configuration and sends an
 incremental option message, while a (re)connect sends one full message built from the configuration.
 The peer applies a message field by field; a fresh peer starts with every flag off.

 The configuration on disk equals the one in memory, as every toggle stores what it changes.
 */
module LoginOptions {

  import opened Common

  /** The option names that the toggle distinguishes; every other name is a plain stored option. */
  datatype Name =
    | ShowRemoteCursor | FollowRemoteCursor | FollowRemoteWindow | DisableAudio | DisableClipboard
    | LockAfterSessionEnd | TerminalPersistent | PrivacyMode | EnableFileCopyPaste
    | BlockInput | UnblockInput | ShowQualityMonitor | AllowSwapKey | ViewOnly | ShowMyCursor
    | OtherOption(key: string)

  datatype Config = Config(
    showRemoteCursor: bool, followRemoteCursor: bool, followRemoteWindow: bool, disableAudio: bool,
    disableClipboard: bool, lockAfterSessionEnd: bool, terminalPersistent: bool, privacyMode: bool,
    enableFileCopyPaste: bool, showQualityMonitor: bool, allowSwapKey: bool, viewOnly: bool,
    showMyCursor: bool, options: map<string, string>)

  datatype BoolOption = NotSet | Yes | No

  datatype OptionMessage = OptionMessage(
    showRemoteCursor: BoolOption, followRemoteCursor: BoolOption, followRemoteWindow: BoolOption,
    disableAudio: BoolOption, disableClipboard: BoolOption, lockAfterSessionEnd: BoolOption,
    terminalPersistent: BoolOption, privacyMode: BoolOption, enableFileTransfer: BoolOption,
    blockInput: BoolOption, disableKeyboard: BoolOption, showMyCursor: BoolOption)

  const EMPTY := OptionMessage(NotSet, NotSet, NotSet, NotSet, NotSet, NotSet, NotSet, NotSet, NotSet, NotSet, NotSet, NotSet)

  function Flag(b: bool): BoolOption {
    if b then Yes else No
  }

  /** `Yes` if set, otherwise left out: how the full message encodes a flag. */
  function OnlyIf(b: bool): BoolOption {
    if b then Yes else NotSet
  }

  // ---------------------------------------------------------------- the two kinds of message

  /** The full message of a default connection. */
  function GetOptionMessage(c: Config): OptionMessage {
    EMPTY.(
      disableKeyboard := OnlyIf(c.viewOnly),
      showRemoteCursor := OnlyIf(c.viewOnly || c.showRemoteCursor),
      showMyCursor := OnlyIf(c.viewOnly && c.showMyCursor),
      followRemoteCursor := OnlyIf(c.followRemoteCursor),
      followRemoteWindow := OnlyIf(c.followRemoteWindow),
      lockAfterSessionEnd := OnlyIf(!c.viewOnly && c.lockAfterSessionEnd),
      disableAudio := OnlyIf(c.disableAudio),
      enableFileTransfer := OnlyIf(!c.viewOnly && c.enableFileCopyPaste),
      disableClipboard := OnlyIf(c.viewOnly || c.disableClipboard))
  }

  datatype Toggled = Toggled(config: Config, message: Option<OptionMessage>)

  /** The incremental form: the configuration after a toggle and the message it sends. */
  function ToggleOption(c: Config, name: Name): Toggled {
    match name
    case ShowRemoteCursor =>
      var b := !c.showRemoteCursor;
      Toggled(c.(showRemoteCursor := b), Some(EMPTY.(showRemoteCursor := Flag(b))))
    case FollowRemoteCursor =>
      var b := !c.followRemoteCursor;
      Toggled(c.(followRemoteCursor := b), Some(EMPTY.(followRemoteCursor := Flag(b))))
    case FollowRemoteWindow =>
      var b := !c.followRemoteWindow;
      Toggled(c.(followRemoteWindow := b), Some(EMPTY.(followRemoteWindow := Flag(b))))
    case DisableAudio =>
      var b := !c.disableAudio;
      Toggled(c.(disableAudio := b), Some(EMPTY.(disableAudio := Flag(b))))
    case DisableClipboard =>
      var b := !c.disableClipboard;
      Toggled(c.(disableClipboard := b), Some(EMPTY.(disableClipboard := Flag(b))))
    case LockAfterSessionEnd =>
      var b := !c.lockAfterSessionEnd;
      Toggled(c.(lockAfterSessionEnd := b), Some(EMPTY.(lockAfterSessionEnd := Flag(b))))
    case TerminalPersistent =>
      var b := !c.terminalPersistent;
      Toggled(c.(terminalPersistent := b), Some(EMPTY.(terminalPersistent := Flag(b))))
    case PrivacyMode => Toggled(c, Some(EMPTY.(privacyMode := Flag(!c.privacyMode))))
    case EnableFileCopyPaste =>
      var b := !c.enableFileCopyPaste;
      Toggled(c.(enableFileCopyPaste := b), Some(EMPTY.(enableFileTransfer := Flag(b))))
    case BlockInput => Toggled(c, Some(EMPTY.(blockInput := Yes)))
    case UnblockInput => Toggled(c, Some(EMPTY.(blockInput := No)))
    case ShowQualityMonitor => Toggled(c.(showQualityMonitor := !c.showQualityMonitor), Some(EMPTY))
    case AllowSwapKey => Toggled(c.(allowSwapKey := !c.allowSwapKey), Some(EMPTY))
    case ViewOnly =>
      if !c.viewOnly then
        Toggled(c.(viewOnly := true),
                Some(EMPTY.(disableKeyboard := Yes, disableClipboard := Yes, showRemoteCursor := Yes,
                            enableFileTransfer := No, lockAfterSessionEnd := No)))
      else
        Toggled(c.(viewOnly := false, showMyCursor := false),
                Some(EMPTY.(disableKeyboard := No, disableClipboard := Flag(c.disableClipboard),
                            showRemoteCursor := Flag(c.showRemoteCursor),
                            enableFileTransfer := Flag(c.enableFileCopyPaste),
                            lockAfterSessionEnd := Flag(c.lockAfterSessionEnd),
                            showMyCursor := if c.showMyCursor then No else NotSet)))
    case ShowMyCursor =>
      var b := !c.showMyCursor;
      Toggled(c.(showMyCursor := b), Some(EMPTY.(showMyCursor := Flag(b))))
    case OtherOption(key) =>
      var isSet := key in c.options && c.options[key] != "";
      Toggled(c.(options := if isSet then c.options - {key} else c.options[key := "Y"]), None)
  }

  class LoginConfigHandler {
    var config: Config

    method ToggleOptionInPlace(name: Name) returns (message: Option<OptionMessage>)
      modifies this
      ensures Toggled(config, message) == ToggleOption(old(config), name)
    {
      ghost var toggled := ToggleOption(config, name);
      var option := EMPTY;
      var c := config;
      match name {
        case ShowRemoteCursor =>
          c := c.(showRemoteCursor := !c.showRemoteCursor);
          option := option.(showRemoteCursor := Flag(c.showRemoteCursor));
        case FollowRemoteCursor =>
          c := c.(followRemoteCursor := !c.followRemoteCursor);
          option := option.(followRemoteCursor := Flag(c.followRemoteCursor));
        case FollowRemoteWindow =>
          c := c.(followRemoteWindow := !c.followRemoteWindow);
          option := option.(followRemoteWindow := Flag(c.followRemoteWindow));
        case DisableAudio =>
          c := c.(disableAudio := !c.disableAudio);
          option := option.(disableAudio := Flag(c.disableAudio));
        case DisableClipboard =>
          c := c.(disableClipboard := !c.disableClipboard);
          option := option.(disableClipboard := Flag(c.disableClipboard));
        case LockAfterSessionEnd =>
          c := c.(lockAfterSessionEnd := !c.lockAfterSessionEnd);
          option := option.(lockAfterSessionEnd := Flag(c.lockAfterSessionEnd));
        case TerminalPersistent =>
          c := c.(terminalPersistent := !c.terminalPersistent);
          option := option.(terminalPersistent := Flag(c.terminalPersistent));
        case PrivacyMode =>
          option := option.(privacyMode := if c.privacyMode then No else Yes);
        case EnableFileCopyPaste =>
          c := c.(enableFileCopyPaste := !c.enableFileCopyPaste);
          option := option.(enableFileTransfer := Flag(c.enableFileCopyPaste));
        case BlockInput => option := option.(blockInput := Yes);
        case UnblockInput => option := option.(blockInput := No);
        case ShowQualityMonitor => c := c.(showQualityMonitor := !c.showQualityMonitor);
        case AllowSwapKey => c := c.(allowSwapKey := !c.allowSwapKey);
        case ViewOnly =>
          c := c.(viewOnly := !c.viewOnly);
          if c.viewOnly {
            option := option.(disableKeyboard := Yes, disableClipboard := Yes, showRemoteCursor := Yes);
            option := option.(enableFileTransfer := No, lockAfterSessionEnd := No);
          } else {
            option := option.(disableKeyboard := No, disableClipboard := Flag(config.disableClipboard));
            option := option.(showRemoteCursor := Flag(config.showRemoteCursor));
            option := option.(enableFileTransfer := Flag(config.enableFileCopyPaste));
            option := option.(lockAfterSessionEnd := Flag(config.lockAfterSessionEnd));
            if c.showMyCursor {
              c := c.(showMyCursor := false);
              option := option.(showMyCursor := No);
            }
          }
        case ShowMyCursor =>
          c := c.(showMyCursor := !c.showMyCursor);
          option := option.(showMyCursor := Flag(c.showMyCursor));
        case OtherOption(key) =>
          if key in config.options && config.options[key] != "" {
            config := config.(options := config.options - {key});
          } else {
            config := config.(options := config.options[key := "Y"]);
          }
          return None;
      }
      assert c == toggled.config;
      assert toggled.message == Some(option);
      if !name.BlockInput? && !name.UnblockInput? {
        config := c;
      }
      return Some(option);
    }
  }

  // ---------------------------------------------------------------- the peer

  datatype Peer = Peer(
    cursor: bool, followCursor: bool, followWindow: bool, audioOff: bool, clipboardOff: bool,
    lock: bool, files: bool, keyboardOff: bool, myCursor: bool)

  const FRESH_PEER := Peer(false, false, false, false, false, false, false, false, false)

  function Applied(was: bool, o: BoolOption): bool {
    match o
    case NotSet => was
    case Yes => true
    case No => false
  }

  /** The peer's `update_options`. */
  function UpdateOptions(p: Peer, m: OptionMessage): Peer {
    Peer(Applied(p.cursor, m.showRemoteCursor), Applied(p.followCursor, m.followRemoteCursor),
         Applied(p.followWindow, m.followRemoteWindow), Applied(p.audioOff, m.disableAudio),
         Applied(p.clipboardOff, m.disableClipboard), Applied(p.lock, m.lockAfterSessionEnd),
         Applied(p.files, m.enableFileTransfer), Applied(p.keyboardOff, m.disableKeyboard),
         Applied(p.myCursor, m.showMyCursor))
  }

  /** The peer after a fresh login with this configuration. */
  function LoggedIn(c: Config): Peer {
    UpdateOptions(FRESH_PEER, GetOptionMessage(c))
  }

  datatype Session = Session(config: Config, peer: Peer)

  predicate InStep(s: Session) {
    s.peer == LoggedIn(s.config)
  }

  function Told(p: Peer, m: Option<OptionMessage>): Peer {
    if m.Some? then UpdateOptions(p, m.value) else p
  }

  function Next(s: Session, name: Name): Session {
    var t := ToggleOption(s.config, name);
    Session(t.config, Told(s.peer, t.message))
  }

  /**
   The toggles whose message says what a fresh login would: inside view-only a toggle of an overridden
   flag must happen to agree with the override, and the own cursor matters only inside view-only.
   */
  predicate Faithful(c: Config, name: Name) {
    match name
    case ShowRemoteCursor => !c.viewOnly || !c.showRemoteCursor
    case DisableClipboard => !c.viewOnly || !c.disableClipboard
    case LockAfterSessionEnd => !c.viewOnly || c.lockAfterSessionEnd
    case EnableFileCopyPaste => !c.viewOnly || c.enableFileCopyPaste
    case ShowMyCursor => c.viewOnly || c.showMyCursor
    case ViewOnly => c.viewOnly || !c.showMyCursor
    case _ => true
  }

  /** What a fresh login makes of each flag. */
  lemma LoginGives(c: Config)
    ensures LoggedIn(c) == Peer(
      c.viewOnly || c.showRemoteCursor, c.followRemoteCursor, c.followRemoteWindow, c.disableAudio,
      c.viewOnly || c.disableClipboard, !c.viewOnly && c.lockAfterSessionEnd,
      !c.viewOnly && c.enableFileCopyPaste, c.viewOnly, c.viewOnly && c.showMyCursor)
  {
  }

  lemma CursorAndClipboardExactly(s: Session)
    requires InStep(s)
    ensures InStep(Next(s, ShowRemoteCursor)) <==> Faithful(s.config, ShowRemoteCursor)
    ensures InStep(Next(s, DisableClipboard)) <==> Faithful(s.config, DisableClipboard)
  {
    LoginGives(s.config);
    LoginGives(Next(s, ShowRemoteCursor).config);
    LoginGives(Next(s, DisableClipboard).config);
  }

  lemma LockAndFilesExactly(s: Session)
    requires InStep(s)
    ensures InStep(Next(s, LockAfterSessionEnd)) <==> Faithful(s.config, LockAfterSessionEnd)
    ensures InStep(Next(s, EnableFileCopyPaste)) <==> Faithful(s.config, EnableFileCopyPaste)
  {
    LoginGives(s.config);
    LoginGives(Next(s, LockAfterSessionEnd).config);
    LoginGives(Next(s, EnableFileCopyPaste).config);
  }

  lemma ViewOnlyExactly(s: Session)
    requires InStep(s)
    ensures InStep(Next(s, ViewOnly)) <==> Faithful(s.config, ViewOnly)
  {
    LoginGives(s.config);
    LoginGives(Next(s, ViewOnly).config);
  }

  lemma OwnCursorExactly(s: Session)
    requires InStep(s)
    ensures InStep(Next(s, ShowMyCursor)) <==> Faithful(s.config, ShowMyCursor)
  {
    LoginGives(s.config);
    LoginGives(Next(s, ShowMyCursor).config);
  }

  lemma FollowTogglesInStep(s: Session)
    requires InStep(s)
    ensures InStep(Next(s, FollowRemoteCursor)) && InStep(Next(s, FollowRemoteWindow))
  {
    LoginGives(s.config);
    LoginGives(Next(s, FollowRemoteCursor).config);
    LoginGives(Next(s, FollowRemoteWindow).config);
  }

  lemma AudioToggleInStep(s: Session)
    requires InStep(s)
    ensures InStep(Next(s, DisableAudio))
  {
    LoginGives(s.config);
    LoginGives(Next(s, DisableAudio).config);
  }

  lemma TerminalToggleInStep(s: Session)
    requires InStep(s)
    ensures InStep(Next(s, TerminalPersistent))
  {
    LoginGives(s.config);
    LoginGives(Next(s, TerminalPersistent).config);
  }

  lemma LocalTogglesInStep(s: Session)
    requires InStep(s)
    ensures InStep(Next(s, ShowQualityMonitor)) && InStep(Next(s, AllowSwapKey))
  {
    LoginGives(s.config);
    LoginGives(Next(s, ShowQualityMonitor).config);
    LoginGives(Next(s, AllowSwapKey).config);
  }

  lemma OtherToggleInStep(s: Session, key: string)
    requires InStep(s)
    ensures InStep(Next(s, OtherOption(key)))
  {
  }

  lemma MessageOnlyTogglesInStep(s: Session)
    requires InStep(s)
    ensures InStep(Next(s, PrivacyMode)) && InStep(Next(s, BlockInput)) && InStep(Next(s, UnblockInput))
  {
  }

  /** One toggle keeps the peer in step exactly when it is faithful. */
  lemma ToggleInStepExactly(s: Session, name: Name)
    requires InStep(s)
    ensures InStep(Next(s, name)) <==> Faithful(s.config, name)
  {
    match name
    case ShowRemoteCursor | DisableClipboard => CursorAndClipboardExactly(s);
    case LockAfterSessionEnd | EnableFileCopyPaste => LockAndFilesExactly(s);
    case ViewOnly => ViewOnlyExactly(s);
    case ShowMyCursor => OwnCursorExactly(s);
    case FollowRemoteCursor | FollowRemoteWindow => FollowTogglesInStep(s);
    case DisableAudio => AudioToggleInStep(s);
    case TerminalPersistent => TerminalToggleInStep(s);
    case PrivacyMode | BlockInput | UnblockInput => MessageOnlyTogglesInStep(s);
    case OtherOption(key) => OtherToggleInStep(s, key);
    case _ => LocalTogglesInStep(s);
  }

  /** A toggle flips its own flag in the configuration, and no other. */
  lemma ToggleFlips(c: Config)
    ensures ToggleOption(c, ShowRemoteCursor).config == c.(showRemoteCursor := !c.showRemoteCursor)
    ensures ToggleOption(c, FollowRemoteCursor).config == c.(followRemoteCursor := !c.followRemoteCursor)
    ensures ToggleOption(c, FollowRemoteWindow).config == c.(followRemoteWindow := !c.followRemoteWindow)
    ensures ToggleOption(c, DisableAudio).config == c.(disableAudio := !c.disableAudio)
    ensures ToggleOption(c, DisableClipboard).config == c.(disableClipboard := !c.disableClipboard)
    ensures ToggleOption(c, LockAfterSessionEnd).config == c.(lockAfterSessionEnd := !c.lockAfterSessionEnd)
  {
  }

  lemma MoreTogglesFlip(c: Config)
    ensures ToggleOption(c, TerminalPersistent).config == c.(terminalPersistent := !c.terminalPersistent)
    ensures ToggleOption(c, EnableFileCopyPaste).config == c.(enableFileCopyPaste := !c.enableFileCopyPaste)
    ensures ToggleOption(c, ShowQualityMonitor).config == c.(showQualityMonitor := !c.showQualityMonitor)
    ensures ToggleOption(c, AllowSwapKey).config == c.(allowSwapKey := !c.allowSwapKey)
  {
  }

  lemma ViewTogglesFlip(c: Config)
    ensures ToggleOption(c, ShowMyCursor).config == c.(showMyCursor := !c.showMyCursor)
    ensures ToggleOption(c, ViewOnly).config
            == c.(viewOnly := !c.viewOnly, showMyCursor := !c.viewOnly && c.showMyCursor)
    ensures ToggleOption(c, PrivacyMode).config == c
    ensures ToggleOption(c, BlockInput).config == ToggleOption(c, UnblockInput).config == c
  {
  }

  /** Any other option is set to `Y` and, if it was set to anything, removed; the peer hears nothing of it. */
  lemma OtherOptionIsLocal(c: Config, key: string)
    ensures var t := ToggleOption(c, OtherOption(key));
            && t.message == None && t.config == c.(options := t.config.options)
            && t.config.options - {key} == c.options - {key}
            && (key in t.config.options <==> key !in c.options || c.options[key] == "")
            && (key in t.config.options ==> t.config.options[key] == "Y")
  {
  }

  /** The session after a sequence of toggles. */
  function Run(s: Session, names: seq<Name>): Session {
    if names == [] then s else Next(Run(s, names[..|names| - 1]), names[|names| - 1])
  }

  function ConfigAfter(c: Config, names: seq<Name>): Config {
    if names == [] then c else ToggleOption(ConfigAfter(c, names[..|names| - 1]), names[|names| - 1]).config
  }

  lemma {:induction false} RunConfig(s: Session, names: seq<Name>)
    ensures Run(s, names).config == ConfigAfter(s.config, names)
  {
    if names != [] {
      RunConfig(s, names[..|names| - 1]);
    }
  }

  lemma RunPrefix(s: Session, names: seq<Name>, n: nat)
    requires n < |names|
    ensures Run(s, names[..n + 1]) == Next(Run(s, names[..n]), names[n])
    ensures Run(s, names[..n]).config == ConfigAfter(s.config, names[..n])
  {
    assert names[..n + 1][..n] == names[..n];
    RunConfig(s, names[..n]);
  }

  lemma PrefixInStepExactly(s: Session, names: seq<Name>, n: nat)
    requires n < |names| && InStep(Run(s, names[..n]))
    ensures InStep(Run(s, names[..n + 1])) <==> Faithful(ConfigAfter(s.config, names[..n]), names[n])
  {
    RunPrefix(s, names, n);
    ToggleInStepExactly(Run(s, names[..n]), names[n]);
  }

  /**
   Whole sessions: the peer is in step with the configuration after every prefix of the toggles if and
   only if each toggle was faithful to the configuration it found.
   */
  lemma SessionInStepExactly(s: Session, names: seq<Name>)
    requires InStep(s)
    ensures (forall n: nat :: n <= |names| ==> InStep(Run(s, names[..n])))
            <==> (forall n: nat :: n < |names| ==> Faithful(ConfigAfter(s.config, names[..n]), names[n]))
  {
    var p := (n: nat) => n <= |names| ==> InStep(Run(s, names[..n]));
    var q := (n: nat) => n < |names| ==> Faithful(ConfigAfter(s.config, names[..n]), names[n]);
    assert names[..0] == [];
    forall n: nat | n < |names| && p(n)
      ensures p(n + 1) <==> q(n)
    {
      PrefixInStepExactly(s, names, n);
    }
    ThroughoutExactly(|names|, p, q);
    assert forall n: nat :: n <= |names| ==> (p(n) <==> InStep(Run(s, names[..n])));
    assert forall n: nat :: n < |names| ==> (q(n) <==> Faithful(ConfigAfter(s.config, names[..n]), names[n]));
  }

  // ---------------------------------------------------------------- what only toggles tell the peer

  /** Flags of the peer that a full message of a default connection never mentions. */
  datatype Extras = Extras(inputBlocked: bool, privacy: bool, terminal: bool)

  function UpdateExtras(x: Extras, m: Option<OptionMessage>): Extras {
    if m.None? then x
    else
      Extras(Applied(x.inputBlocked, m.value.blockInput), Applied(x.privacy, m.value.privacyMode),
             Applied(x.terminal, m.value.terminalPersistent))
  }

  function ExtrasAfter(c: Config, x: Extras, names: seq<Name>): Extras {
    if names == [] then x
    else
      var n := |names| - 1;
      UpdateExtras(ExtrasAfter(c, x, names[..n]), ToggleOption(ConfigAfter(c, names[..n]), names[n]).message)
  }

  /** What the latest of the toggles that satisfy a predicate says, if there is one. */
  function Latest(names: seq<Name>, p: Name -> bool): Option<Name> {
    if names == [] then None
    else if p(names[|names| - 1]) then Some(names[|names| - 1])
    else Latest(names[..|names| - 1], p)
  }

  lemma ToggleExtras(c: Config, x: Extras, name: Name)
    ensures var x' := UpdateExtras(x, ToggleOption(c, name).message);
            && x'.inputBlocked == (name == BlockInput || (x.inputBlocked && name != UnblockInput))
            && x'.privacy == (if name == PrivacyMode then !c.privacyMode else x.privacy)
            && x'.terminal == (if name == TerminalPersistent then !c.terminalPersistent else x.terminal)
    ensures var c' := ToggleOption(c, name).config;
            c'.privacyMode == c.privacyMode
            && c'.terminalPersistent
               == (if name == TerminalPersistent then !c.terminalPersistent else c.terminalPersistent)
  {
  }

  /** Over any run of toggles, the peer's input is blocked as the latest of blocking and unblocking says. */
  lemma {:induction false} InputBlockedByLatest(c: Config, x: Extras, names: seq<Name>)
    ensures ExtrasAfter(c, x, names).inputBlocked ==
              match Latest(names, n => n == BlockInput || n == UnblockInput)
              case None => x.inputBlocked
              case Some(n) => n == BlockInput
  {
    if names != [] {
      var n := |names| - 1;
      InputBlockedByLatest(c, x, names[..n]);
      ToggleExtras(ConfigAfter(c, names[..n]), ExtrasAfter(c, x, names[..n]), names[n]);
    }
  }

  /**
   Over any run of toggles, privacy mode is asked for as the opposite of the stored flag once it is toggled at all, and
   the terminal follows its stored flag once that is toggled.
   */
  lemma {:induction false} PrivacyAndTerminal(c: Config, x: Extras, names: seq<Name>)
    ensures var x' := ExtrasAfter(c, x, names); var c' := ConfigAfter(c, names);
            && c'.privacyMode == c.privacyMode
            && (TerminalPersistent !in names ==> c'.terminalPersistent == c.terminalPersistent)
            && x'.privacy == (if PrivacyMode in names then !c.privacyMode else x.privacy)
            && x'.terminal == (if TerminalPersistent in names then c'.terminalPersistent else x.terminal)
  {
    if names != [] {
      var n := |names| - 1;
      assert names == names[..n] + [names[n]];
      PrivacyAndTerminal(c, x, names[..n]);
      ToggleExtras(ConfigAfter(c, names[..n]), ExtrasAfter(c, x, names[..n]), names[n]);
    }
  }

  /** Toggling the overridden flags outside view-only and the own cursor inside it. */
  predicate Offered(c: Config, name: Name) {
    match name
    case ShowRemoteCursor | DisableClipboard | LockAfterSessionEnd | EnableFileCopyPaste => !c.viewOnly
    case ShowMyCursor => c.viewOnly
    case _ => true
  }

  /** The own cursor is shown only inside view-only. */
  predicate Modest(c: Config) {
    c.viewOnly || !c.showMyCursor
  }

  /** In step in every flag but the own cursor. */
  predicate InStepButCursor(s: Session) {
    s.peer.(myCursor := false) == LoggedIn(s.config).(myCursor := false)
  }

  /** A message treats the other flags alike, whatever the own cursor is. */
  lemma CursorIsSeparate(q: Peer, b: bool, m: OptionMessage)
    ensures UpdateOptions(q.(myCursor := b), m).(myCursor := false) == UpdateOptions(q, m).(myCursor := false)
  {
  }

  lemma ToldCursorIsSeparate(p: Peer, q: Peer, m: Option<OptionMessage>, login: Peer)
    requires p.(myCursor := false) == q.(myCursor := false) && Told(q, m) == login
    ensures Told(p, m).(myCursor := false) == login.(myCursor := false)
  {
    assert p == q.(myCursor := p.myCursor);
    if m.Some? {
      CursorIsSeparate(q, p.myCursor, m.value);
    }
  }

  lemma OfferedFaithfulStep(s: Session, name: Name)
    requires InStepButCursor(s) && Faithful(s.config, name)
    ensures InStepButCursor(Next(s, name))
  {
    var right := Session(s.config, LoggedIn(s.config));
    ToggleInStepExactly(right, name);
    var t := ToggleOption(s.config, name);
    ToldCursorIsSeparate(s.peer, right.peer, t.message, LoggedIn(t.config));
  }

  lemma ViewOnlyStep(s: Session)
    requires InStepButCursor(s)
    ensures InStepButCursor(Next(s, ViewOnly))
  {
    LoginGives(s.config);
    LoginGives(Next(s, ViewOnly).config);
  }

  lemma OfferedStep(s: Session, name: Name)
    requires InStepButCursor(s) && Offered(s.config, name)
    ensures InStepButCursor(Next(s, name))
    ensures InStep(s) && Modest(s.config) ==> InStep(Next(s, name)) && Modest(Next(s, name).config)
  {
    if InStep(s) {
      ToggleInStepExactly(s, name);
    }
    if name.ViewOnly? {
      ViewOnlyStep(s);
    } else {
      OfferedFaithfulStep(s, name);
    }
  }

  lemma OfferedPrefix(s: Session, names: seq<Name>, n: nat)
    requires n < |names| && InStepButCursor(Run(s, names[..n]))
    requires Offered(ConfigAfter(s.config, names[..n]), names[n])
    ensures InStepButCursor(Run(s, names[..n + 1]))
    ensures InStep(Run(s, names[..n])) && Modest(Run(s, names[..n]).config) ==>
              InStep(Run(s, names[..n + 1])) && Modest(Run(s, names[..n + 1]).config)
  {
    RunPrefix(s, names, n);
    OfferedStep(Run(s, names[..n]), names[n]);
  }

  /**
   A session that toggles only what is offered never gets out of step: the own cursor if it started hidden or inside
   view-only, every other flag from any configuration.
   */
  lemma {:induction false} OfferedSessionInStep(s: Session, names: seq<Name>, n: nat)
    requires InStep(s) && n <= |names|
    requires forall i :: 0 <= i < n ==> Offered(ConfigAfter(s.config, names[..i]), names[i])
    ensures InStepButCursor(Run(s, names[..n]))
    ensures Modest(s.config) ==> InStep(Run(s, names[..n])) && Modest(Run(s, names[..n]).config)
  {
    if n > 0 {
      OfferedSessionInStep(s, names, n - 1);
      OfferedPrefix(s, names, n - 1);
    }
  }

  /**
   View-only repairs: whatever state the peer is in, toggling it brings every flag that view-only
   overrides back in step, and leaves the follow and audio flags alone.
   */
  lemma ViewOnlyResynchronises(s: Session)
    ensures var t := Next(s, ViewOnly); var login := LoggedIn(t.config);
            && t.peer.cursor == login.cursor && t.peer.clipboardOff == login.clipboardOff
            && t.peer.files == login.files && t.peer.lock == login.lock
            && t.peer.keyboardOff == login.keyboardOff
            && t.peer.followCursor == s.peer.followCursor && t.peer.followWindow == s.peer.followWindow
            && t.peer.audioOff == s.peer.audioOff
  {
    LoginGives(Next(s, ViewOnly).config);
  }
}
