/**
 The server settings that a renamed installer carries in its file name, such as
 `rustdesk-host=a,key=b,api=c,relay=d.exe`.

 The parser searches in the lower-cased name and slices the name itself at the byte offset it found, so lower-casing
 is modelled character by character, each giving one or more characters, and texts have a length in bytes of UTF-8.
 Slicing inside a character, or past the end, panics.
 */
module FileNameConfig {

  import opened Common

  datatype CustomServer = CustomServer(key: string, host: string, api: string, relay: string)

  const NOTHING := CustomServer("", "", "", "")

  // ---------------------------------------------------------------- letters and bytes

  function LowerChar(c: char): char {
    if 'A' <= c <= 'Z' then (c as int + 32) as char else c
  }

  predicate Ascii(c: char) {
    c as int < 0x80
  }

  /** What is asked of lower-casing: never nothing, and the usual thing for ASCII. */
  ghost predicate LowerCases(lower: char -> string) {
    forall c: char :: lower(c) != [] && (Ascii(c) ==> lower(c) == [LowerChar(c)])
  }

  function Lower(lower: char -> string, s: string): string {
    if s == "" then "" else lower(s[0]) + Lower(lower, s[1..])
  }

  lemma {:induction false} LowerConcat(lower: char -> string, a: string, b: string)
    ensures Lower(lower, a + b) == Lower(lower, a) + Lower(lower, b)
  {
    if a == "" {
      assert a + b == b;
    } else {
      assert (a + b)[1..] == a[1..] + b;
      LowerConcat(lower, a[1..], b);
    }
  }

  /** The bytes of a character in UTF-8. */
  function Width(c: char): (n: nat)
    ensures 1 <= n <= 4
  {
    var n := c as int;
    if n < 0x80 then 1 else if n < 0x800 then 2 else if n < 0x1_0000 then 3 else 4
  }

  function Bytes(s: string): nat {
    if s == "" then 0 else Width(s[0]) + Bytes(s[1..])
  }

  lemma {:induction false} BytesConcat(a: string, b: string)
    ensures Bytes(a + b) == Bytes(a) + Bytes(b)
  {
    if a == "" {
      assert a + b == b;
    } else {
      assert (a + b)[1..] == a[1..] + b;
      BytesConcat(a[1..], b);
    }
  }

  /** The first `i` characters take `n` bytes. */
  predicate IsBoundary(s: string, n: nat, i: nat) {
    i <= |s| && Bytes(s[..i]) == n
  }

  /** The position in characters of a byte offset, if it is not inside a character or past the end. */
  function Boundary(s: string, n: nat): (r: Option<nat>)
    ensures r.Some? ==> IsBoundary(s, n, r.value)
    ensures r.None? ==> forall i :: !IsBoundary(s, n, i)
  {
    BoundaryFrom(s, n, 0)
  }

  function BoundaryFrom(s: string, n: nat, from: nat): (r: Option<nat>)
    requires from <= |s|
    ensures r.Some? ==> IsBoundary(s, n, r.value)
    ensures r.None? ==> forall i :: from <= i ==> !IsBoundary(s, n, i)
    decreases |s| - from
  {
    if IsBoundary(s, n, from) then Some(from)
    else if from == |s| then None
    else BoundaryFrom(s, n, from + 1)
  }

  lemma {:induction false} BytesGrow(s: string, i: nat, j: nat)
    requires i < j <= |s|
    ensures Bytes(s[..i]) < Bytes(s[..j])
  {
    BytesConcat(s[..i], s[i..j]);
    assert s[..i] + s[i..j] == s[..j];
  }

  /** There is at most one boundary for an offset. */
  lemma {:induction false} BoundaryIs(s: string, n: nat, i: nat)
    requires IsBoundary(s, n, i)
    ensures Boundary(s, n) == Some(i)
  {
    var j := Boundary(s, n).value;
    if i < j {
      BytesGrow(s, i, j);
    } else if j < i {
      BytesGrow(s, j, i);
    }
  }

  lemma {:induction false} BoundaryAtEnd(s: string)
    ensures Boundary(s, Bytes(s)) == Some(|s|)
  {
    assert s[..|s|] == s;
    BoundaryIs(s, Bytes(s), |s|);
  }

  lemma {:induction false} BoundaryInFirst(a: string, b: string, n: nat)
    requires n <= Bytes(a)
    ensures Boundary(a + b, n) == Boundary(a, n)
  {
    var r := Boundary(a + b, n);
    if r.Some? {
      assert a[..|a|] == a && (a + b)[..|a|] == a;
      if r.value > |a| {
        BytesGrow(a + b, |a|, r.value);
      }
      assert (a + b)[..r.value] == a[..r.value];
      BoundaryIs(a, n, r.value);
    } else if Boundary(a, n).Some? {
      var i := Boundary(a, n).value;
      assert (a + b)[..i] == a[..i];
      assert IsBoundary(a + b, n, i);
    }
  }

  function Shifted(i: Option<nat>, k: nat): Option<nat> {
    match i
    case None => None
    case Some(n) => Some(k + n)
  }

  lemma {:induction false} BoundaryInSecond(a: string, b: string, n: nat)
    ensures Boundary(a + b, Bytes(a) + n) == Shifted(Boundary(b, n), |a|)
  {
    var r, q := Boundary(a + b, Bytes(a) + n), Boundary(b, n);
    if q.Some? {
      assert (a + b)[..|a| + q.value] == a + b[..q.value];
      BytesConcat(a, b[..q.value]);
      BoundaryIs(a + b, Bytes(a) + n, |a| + q.value);
    } else if r.Some? {
      assert (a + b)[..|a|] == a;
      if r.value < |a| {
        BytesGrow(a + b, r.value, |a|);
      } else {
        var k := r.value - |a|;
        assert (a + b)[..r.value] == a + b[..k];
        BytesConcat(a, b[..k]);
        assert IsBoundary(b, n, k);
      }
    }
  }

  // ---------------------------------------------------------------- strings

  predicate At(s: string, pat: string, i: nat) {
    i + |pat| <= |s| && s[i..i + |pat|] == pat
  }

  predicate StartsWith(s: string, pat: string) {
    At(s, pat, 0)
  }

  predicate EndsWith(s: string, pat: string) {
    |pat| <= |s| && At(s, pat, |s| - |pat|)
  }

  /** The first position of the pattern. */
  function Find(s: string, pat: string, from: nat): (r: Option<nat>)
    requires from <= |s|
    ensures r.Some? ==> from <= r.value <= |s| && At(s, pat, r.value)
    ensures r.Some? ==> forall i :: from <= i < r.value ==> !At(s, pat, i)
    ensures r.None? ==> forall i :: from <= i <= |s| ==> !At(s, pat, i)
    decreases |s| - from
  {
    if At(s, pat, from) then Some(from)
    else if from == |s| then None
    else Find(s, pat, from + 1)
  }

  function Split(s: string): (parts: seq<string>)
    ensures parts != []
  {
    SplitFrom(s, "")
  }

  function SplitFrom(s: string, current: string): (parts: seq<string>)
    ensures parts != []
    decreases |s|
  {
    if s == "" then [current]
    else if s[0] == ',' then [current] + SplitFrom(s[1..], "")
    else SplitFrom(s[1..], current + [s[0]])
  }

  function Join(parts: seq<string>): string
    requires parts != []
  {
    if |parts| == 1 then parts[0] else parts[0] + "," + Join(parts[1..])
  }

  ghost predicate NoComma(s: string) {
    forall i :: 0 <= i < |s| ==> s[i] != ','
  }

  lemma {:induction false} SplitOne(part: string, current: string, rest: string)
    requires NoComma(part)
    ensures SplitFrom(part + rest, current) == SplitFrom(rest, current + part)
    decreases |part|
  {
    if part == "" {
      assert part + rest == rest && current + part == current;
    } else {
      assert (part + rest)[1..] == part[1..] + rest;
      SplitOne(part[1..], current + [part[0]], rest);
      assert current + [part[0]] + part[1..] == current + part;
    }
  }

  /** Splitting undoes joining. */
  lemma {:induction false} SplitJoin(parts: seq<string>)
    requires parts != [] && forall i :: 0 <= i < |parts| ==> NoComma(parts[i])
    ensures Split(Join(parts)) == parts
  {
    if |parts| == 1 {
      assert parts[0] + "" == parts[0];
      SplitOne(parts[0], "", "");
      assert "" + parts[0] == parts[0];
    } else {
      var rest := "," + Join(parts[1..]);
      assert Join(parts) == parts[0] + rest;
      SplitOne(parts[0], "", rest);
      assert "" + parts[0] == parts[0];
      assert rest[1..] == Join(parts[1..]);
      SplitJoin(parts[1..]);
    }
  }

  /** What follows the last comma of one text goes on in the next. */
  lemma {:induction false} SplitConcat(a: string, b: string, current: string)
    ensures var parts := SplitFrom(a, current); var n := |parts| - 1;
            SplitFrom(a + b, current) == parts[..n] + SplitFrom(b, parts[n])
    decreases |a|
  {
    if a == "" {
      assert a + b == b;
    } else {
      assert (a + b)[1..] == a[1..] + b;
      if a[0] == ',' {
        SplitConcat(a[1..], b, "");
        var rest := SplitFrom(a[1..], "");
        var m := |rest| - 1;
        assert ([current] + rest)[..m + 1] == [current] + rest[..m];
      } else {
        SplitConcat(a[1..], b, current + [a[0]]);
      }
    }
  }

  lemma {:induction false} SplitNoComma(part: string, current: string)
    requires NoComma(part)
    ensures SplitFrom(part, current) == [current + part]
  {
    assert part + "" == part;
    SplitOne(part, current, "");
  }

  // ---------------------------------------------------------------- the parser

  /** The text without its last `n` bytes. */
  function Cut(s: string, n: nat): Option<string> {
    if Bytes(s) < n then None
    else
      match Boundary(s, Bytes(s) - n)
      case None => None
      case Some(i) => Some(s[..i])
  }

  function WithoutExtension(lower: char -> string, s: string): Option<string> {
    if EndsWith(Lower(lower, s), ".exe.exe") then Cut(s, 8)
    else if EndsWith(Lower(lower, s), ".exe") then Cut(s, 4)
    else Some(s)
  }

  /** The text without its first `n` characters. */
  function Skip(s: string, n: nat): string {
    if n <= |s| then s[n..] else ""
  }

  function Updated(lower: char -> string, acc: CustomServer, el: string): CustomServer {
    var l := Lower(lower, el);
    CustomServer(
      if StartsWith(l, "key=") then Skip(el, 4) else acc.key,
      if StartsWith(l, "host=") then Skip(el, 5) else acc.host,
      if StartsWith(l, "api=") then Skip(el, 4) else acc.api,
      if StartsWith(l, "relay=") then Skip(el, 6) else acc.relay)
  }

  function Fields(lower: char -> string, parts: seq<string>): CustomServer {
    if parts == [] then NOTHING else Updated(lower, Fields(lower, parts[..|parts| - 1]), parts[|parts| - 1])
  }

  datatype Outcome = Panics | Result(server: Option<CustomServer>)

  /** What is read from a position on, if there is one. */
  function ReadFrom(lower: char -> string, s: string, at: Option<nat>): Outcome {
    match at
    case None => Panics
    case Some(j) => if j <= |s| then Result(Some(Fields(lower, Split(s[j..])))) else Panics
  }

  /** The settings in a file name; `licensed` stands for the other branch, which decodes a licence string. */
  function Parsed(name: string, lower: char -> string, licensed: string -> Option<CustomServer>): Outcome {
    match WithoutExtension(lower, name)
    case None => Panics
    case Some(s) =>
      var l := Lower(lower, s);
      match Find(l, "host=", 0)
      case None => Result(licensed(s))
      case Some(i) => ReadFrom(lower, s, Boundary(s, Bytes(l[..i])))
  }

  method GetCustomServerFromString(name: string, lower: char -> string, licensed: string -> Option<CustomServer>)
    returns (r: Outcome)
    ensures r == Parsed(name, lower, licensed)
  {
    var cut := WithoutExtension(lower, name);
    if cut.None? {
      return Panics;
    }
    var s := cut.value;
    var at := Find(Lower(lower, s), "host=", 0);
    if at.None? {
      return Result(licensed(s));
    }
    var start := Boundary(s, Bytes(Lower(lower, s)[..at.value]));
    if start.None? {
      return Panics;
    }
    var parts := Split(s[start.value..]);
    var host, key, api, relay := "", "", "", "";
    for i := 0 to |parts|
      invariant CustomServer(key, host, api, relay) == Fields(lower, parts[..i])
    {
      assert parts[..i + 1][..i] == parts[..i];
      var el := parts[i];
      var elLower := Lower(lower, el);
      if StartsWith(elLower, "host=") {
        host := Skip(el, 5);
      }
      if StartsWith(elLower, "key=") {
        key := Skip(el, 4);
      }
      if StartsWith(elLower, "api=") {
        api := Skip(el, 4);
      }
      if StartsWith(elLower, "relay=") {
        relay := Skip(el, 6);
      }
    }
    assert parts[..|parts|] == parts;
    return Result(Some(CustomServer(key, host, api, relay)));
  }

  // ---------------------------------------------------------------- printing

  datatype Setting = Key | Host | Api | Relay

  function Keyword(f: Setting): string {
    match f
    case Key => "key="
    case Host => "host="
    case Api => "api="
    case Relay => "relay="
  }

  /** One comma-separated item: a setting with its keyword in any letter case, or something else. */
  datatype Item =
    | Named(setting: Setting, keyword: string, value: string)
    | Other(text: string)

  /** Letter case is that of `lower`, as long as it lowers the keyword one character to one. */
  ghost predicate WellFormed(lower: char -> string, item: Item) {
    match item
    case Named(f, keyword, value) => Lower(lower, keyword) == Keyword(f) && |keyword| == |Keyword(f)| && NoComma(value)
    case Other(text) => NoComma(text) && forall f: Setting :: !StartsWith(Lower(lower, text), Keyword(f))
  }

  function Text(item: Item): string {
    match item
    case Named(_, keyword, value) => keyword + value
    case Other(text) => text
  }

  function Texts(items: seq<Item>): (r: seq<string>)
    ensures |r| == |items| && forall i :: 0 <= i < |items| ==> r[i] == Text(items[i])
  {
    seq(|items|, i requires 0 <= i < |items| => Text(items[i]))
  }

  /** What the items say: the last value given for a setting, or nothing. */
  function Said(items: seq<Item>, f: Setting): string {
    if items == [] then ""
    else
      var last := items[|items| - 1];
      if last.Named? && last.setting == f then last.value else Said(items[..|items| - 1], f)
  }

  function Meaning(items: seq<Item>): CustomServer {
    CustomServer(Said(items, Key), Said(items, Host), Said(items, Api), Said(items, Relay))
  }

  function FileName(prefix: string, items: seq<Item>, extension: string): string
    requires items != []
  {
    prefix + Join(Texts(items)) + extension
  }

  predicate IsExtension(lower: char -> string, extension: string) {
    Lower(lower, extension) == ".exe" && Bytes(extension) == 4
  }

  /** The host first, every item well-formed, and an extension that does not stand behind another one. */
  ghost predicate Printable(lower: char -> string, prefix: string, items: seq<Item>, extension: string) {
    && items != [] && items[0].Named? && items[0].setting == Host
    && (forall i :: 0 <= i < |items| ==> WellFormed(lower, items[i]))
    && IsExtension(lower, extension) && !EndsWith(Lower(lower, prefix + Join(Texts(items))), ".exe")
  }

  // ---------------------------------------------------------------- which prefixes are harmless

  /**
   The byte offset that the parser finds behind a prefix, in lower case: that of a keyword in it, or else its end.
   */
  function Start(lower: char -> string, prefix: string): nat {
    var l := Lower(lower, prefix);
    match Find(l, "host=", 0)
    case Some(i) => Bytes(l[..i])
    case None => Bytes(l)
  }

  /**
   The offset falls on a character of the prefix, or its end; from there on the prefix is whole parts, closed by
   a comma, that set nothing but the host.
   */
  predicate Harmless(lower: char -> string, prefix: string) {
    match Boundary(prefix, Start(lower, prefix))
    case None => false
    case Some(j) =>
      var parts := Split(prefix[j..]);
      var n := |parts| - 1;
      parts[n] == "" && Fields(lower, parts[..n]).(host := "") == NOTHING
  }

  /** The keyword cannot begin in one text and end in the next: it has no border. */
  lemma {:induction false} NotAcross(l: string, r: string, i: nat)
    requires StartsWith(r, "host=") && i < |l| < i + 5
    ensures !At(l + r, "host=", i)
  {
    var k := |l| - i;
    assert (l + r)[|l|] == r[0..5][0] == 'h';
    assert "host="[k] != 'h';
    assert i + 5 <= |l + r| ==> (l + r)[i..i + 5][k] == 'h';
  }

  lemma {:induction false} NotBeforeKeyword(l: string, r: string, i: nat)
    requires StartsWith(r, "host=") && i < |l| && !At(l, "host=", i)
    ensures !At(l + r, "host=", i)
  {
    if i + 5 <= |l| {
      assert (l + r)[i..i + 5] == l[i..i + 5];
    } else {
      NotAcross(l, r, i);
    }
  }

  lemma {:induction false} FirstPosition(s: string, pat: string, n: nat)
    requires n <= |s| && At(s, pat, n) && forall i :: 0 <= i < n ==> !At(s, pat, i)
    ensures Find(s, pat, 0) == Some(n)
  {
    var r := Find(s, pat, 0);
    assert r.Some?;
  }

  /** Where the keyword is first found behind a lower-cased prefix. */
  lemma {:induction false} FindBehind(l: string, r: string)
    requires StartsWith(r, "host=")
    ensures Find(l + r, "host=", 0) == Some(match Find(l, "host=", 0) case Some(i) => i case None => |l|)
  {
    var n := match Find(l, "host=", 0) case Some(i) => i case None => |l|;
    forall i | 0 <= i < n
      ensures !At(l + r, "host=", i)
    {
      NotBeforeKeyword(l, r, i);
    }
    if n < |l| {
      assert (l + r)[n..n + 5] == l[n..n + 5];
    } else {
      assert (l + r)[n..n + 5] == r[0..5];
    }
    FirstPosition(l + r, "host=", n);
  }

  lemma {:induction false} StartBehind(lower: char -> string, prefix: string, rest: string)
    requires StartsWith(Lower(lower, rest), "host=")
    ensures var l := Lower(lower, prefix + rest); var at := Find(l, "host=", 0);
            at.Some? && Bytes(l[..at.value]) == Start(lower, prefix)
  {
    LowerConcat(lower, prefix, rest);
    var l, r := Lower(lower, prefix), Lower(lower, rest);
    FindBehind(l, r);
    var n := Find(l + r, "host=", 0).value;
    assert (l + r)[..n] == l[..n] && l[..|l|] == l;
  }

  // ---------------------------------------------------------------- the extension

  lemma {:induction false} CutAt(s: string, n: nat, i: nat)
    requires n <= Bytes(s) && Boundary(s, Bytes(s) - n) == Some(i)
    ensures Cut(s, n) == Some(s[..i])
  {
  }

  lemma {:induction false} CutExtension(body: string, extension: string)
    ensures Cut(body + extension, Bytes(extension)) == Some(body)
  {
    BytesConcat(body, extension);
    BoundaryInFirst(body, extension, Bytes(body));
    BoundaryAtEnd(body);
    CutAt(body + extension, Bytes(extension), |body|);
    assert (body + extension)[..|body|] == body;
  }

  lemma {:induction false} TwoSuffixes(l: string)
    ensures EndsWith(l + ".exe", ".exe")
    ensures EndsWith(l + ".exe", ".exe.exe") <==> EndsWith(l, ".exe")
  {
    var s := l + ".exe";
    assert s[|l|..] == ".exe";
    if |l| >= 4 {
      var n := |l| - 4;
      assert s[n..n + 8] == l[n..n + 4] + ".exe";
      assert (l[n..n + 4] + ".exe")[..4] == l[n..n + 4];
      assert ".exe.exe"[..4] == ".exe" && ".exe" + ".exe" == ".exe.exe";
    }
  }

  /** An extension is taken off exactly when what remains does not end in another one. */
  lemma {:induction false} ExtensionExactly(lower: char -> string, body: string, extension: string)
    requires IsExtension(lower, extension)
    ensures WithoutExtension(lower, body + extension) == Some(body) <==> !EndsWith(Lower(lower, body), ".exe")
  {
    LowerConcat(lower, body, extension);
    TwoSuffixes(Lower(lower, body));
    CutExtension(body, extension);
    var s := body + extension;
    BytesConcat(body, extension);
  }

  lemma {:induction false} LongerSuffix(l: string)
    requires EndsWith(l, ".exe.exe")
    ensures EndsWith(l, ".exe")
  {
    var n := |l| - 8;
    assert l[n + 4..n + 8] == l[n..n + 8][4..8] == ".exe";
  }

  /** One or two extensions make no difference. */
  lemma {:induction false} ExtensionsAreIgnored(lower: char -> string, s: string, first: string, second: string,
          licensed: string -> Option<CustomServer>)
    requires !EndsWith(Lower(lower, s), ".exe")
    requires IsExtension(lower, first) && IsExtension(lower, second)
    ensures Parsed(s + first, lower, licensed) == Parsed(s, lower, licensed)
    ensures Parsed(s + (first + second), lower, licensed) == Parsed(s, lower, licensed)
  {
    ExtensionExactly(lower, s, first);
    if EndsWith(Lower(lower, s), ".exe.exe") {
      LongerSuffix(Lower(lower, s));
    }
    TwoExtensions(lower, s, first, second);
  }

  lemma {:induction false} TwoExtensions(lower: char -> string, s: string, first: string, second: string)
    requires IsExtension(lower, first) && IsExtension(lower, second)
    ensures WithoutExtension(lower, s + (first + second)) == Some(s)
  {
    LowerConcat(lower, first, second);
    LowerConcat(lower, s, first + second);
    BytesConcat(first, second);
    CutExtension(s, first + second);
    assert ".exe" + ".exe" == ".exe.exe";
    var l := Lower(lower, s);
    assert (l + ".exe.exe")[|l|..|l| + 8] == ".exe.exe";
  }

  /** A name without the keyword is left to the licence branch, without its extension. */
  lemma {:induction false} LicenceBranch(lower: char -> string, s: string, licensed: string -> Option<CustomServer>)
    requires !EndsWith(Lower(lower, s), ".exe")
    requires forall i :: 0 <= i ==> !At(Lower(lower, s), "host=", i)
    ensures Parsed(s, lower, licensed) == Result(licensed(s))
  {
    if EndsWith(Lower(lower, s), ".exe.exe") {
      LongerSuffix(Lower(lower, s));
    }
  }

  // ---------------------------------------------------------------- items

  lemma {:induction false} KeywordStarts(lower: char -> string, f: Setting, keyword: string, value: string, g: Setting)
    requires Lower(lower, keyword) == Keyword(f) && |keyword| == |Keyword(f)|
    ensures StartsWith(Lower(lower, keyword + value), Keyword(g)) <==> f == g
    ensures Skip(keyword + value, |Keyword(f)|) == value
  {
    LowerConcat(lower, keyword, value);
    var l := Keyword(f) + Lower(lower, value);
    assert Lower(lower, keyword + value) == l;
    assert l[0..|Keyword(f)|] == Keyword(f);
    assert l[0] == Keyword(f)[0];
    if StartsWith(l, Keyword(g)) {
      assert l[0..|Keyword(g)|][0] == l[0];
    }
  }

  lemma {:induction false} CommaStays(lower: char -> string, s: string, i: nat)
    requires LowerCases(lower) && i < |s| && s[i] == ','
    ensures ',' in Lower(lower, s)
  {
    if i == 0 {
      assert Ascii(',') && lower(',') == [','];
      assert Lower(lower, s)[0] == ',';
    } else {
      CommaStays(lower, s[1..], i - 1);
    }
  }

  lemma {:induction false} TextHasNoComma(lower: char -> string, item: Item)
    requires LowerCases(lower) && WellFormed(lower, item)
    ensures NoComma(Text(item))
  {
    if item.Named? {
      assert ',' !in Keyword(item.setting);
      forall i | 0 <= i < |item.keyword|
        ensures item.keyword[i] != ','
      {
        if item.keyword[i] == ',' {
          CommaStays(lower, item.keyword, i);
        }
      }
    }
  }

  lemma {:induction false} UpdatedByItem(lower: char -> string, acc: CustomServer, item: Item)
    requires WellFormed(lower, item)
    ensures Updated(lower, acc, Text(item)) ==
            match item
            case Other(_) => acc
            case Named(Key, _, v) => acc.(key := v)
            case Named(Host, _, v) => acc.(host := v)
            case Named(Api, _, v) => acc.(api := v)
            case Named(Relay, _, v) => acc.(relay := v)
  {
    assert Keyword(Key) == "key=" && Keyword(Host) == "host=" && Keyword(Api) == "api=" && Keyword(Relay) == "relay=";
    match item {
      case Named(f, keyword, value) =>
        KeywordStarts(lower, f, keyword, value, Key);
        KeywordStarts(lower, f, keyword, value, Host);
        KeywordStarts(lower, f, keyword, value, Api);
        KeywordStarts(lower, f, keyword, value, Relay);
      case Other(text) =>
        var l := Lower(lower, text);
        assert !StartsWith(l, Keyword(Key)) && !StartsWith(l, Keyword(Host));
        assert !StartsWith(l, Keyword(Api)) && !StartsWith(l, Keyword(Relay));
    }
  }

  lemma {:induction false} FieldsSnoc(lower: char -> string, parts: seq<string>, el: string)
    ensures Fields(lower, parts + [el]) == Updated(lower, Fields(lower, parts), el)
  {
    assert (parts + [el])[..|parts|] == parts;
  }

  lemma {:induction false} TextsSnoc(items: seq<Item>)
    requires items != []
    ensures var n := |items| - 1; Texts(items) == Texts(items[..n]) + [Text(items[n])]
  {
  }

  lemma {:induction false} MeaningSnoc(items: seq<Item>)
    requires items != []
    ensures var n := |items| - 1; var acc := Meaning(items[..n]);
            Meaning(items) ==
            match items[n]
            case Other(_) => acc
            case Named(Key, _, v) => acc.(key := v)
            case Named(Host, _, v) => acc.(host := v)
            case Named(Api, _, v) => acc.(api := v)
            case Named(Relay, _, v) => acc.(relay := v)
  {
  }

  /** Parts that set nothing but the host leave no trace before items that begin with the host. */
  lemma {:induction false} FieldsOfTexts(lower: char -> string, before: seq<string>, items: seq<Item>)
    requires forall i :: 0 <= i < |items| ==> WellFormed(lower, items[i])
    requires items != [] && items[0].Named? && items[0].setting == Host
    requires Fields(lower, before).(host := "") == NOTHING
    ensures Fields(lower, before + Texts(items)) == Meaning(items)
  {
    var n := |items| - 1;
    var init := before + Texts(items[..n]);
    TextsSnoc(items);
    assert before + Texts(items) == init + [Text(items[n])];
    FieldsSnoc(lower, init, Text(items[n]));
    UpdatedByItem(lower, Fields(lower, init), items[n]);
    MeaningSnoc(items);
    if n > 0 {
      FieldsOfTexts(lower, before, items[..n]);
    } else {
      assert init == before;
    }
  }

  lemma {:induction false} HostFirst(lower: char -> string, items: seq<Item>)
    requires items != [] && items[0].Named? && items[0].setting == Host && WellFormed(lower, items[0])
    ensures StartsWith(Lower(lower, Join(Texts(items))), "host=")
  {
    var texts := Texts(items);
    var first := items[0];
    assert Keyword(Host) == "host=";
    if |texts| == 1 {
      KeywordStarts(lower, Host, first.keyword, first.value, Host);
    } else {
      var tail := first.value + "," + Join(texts[1..]);
      KeywordStarts(lower, Host, first.keyword, tail, Host);
      assert Join(texts) == first.keyword + tail;
    }
  }

  // ---------------------------------------------------------------- the round trip

  /** What is left of the name is parsed from the offset that the prefix gives. */
  lemma {:induction false} ParsedBehind(lower: char -> string, prefix: string, rest: string, extension: string,
                     licensed: string -> Option<CustomServer>)
    requires IsExtension(lower, extension) && !EndsWith(Lower(lower, prefix + rest), ".exe")
    requires StartsWith(Lower(lower, rest), "host=")
    ensures Parsed(prefix + rest + extension, lower, licensed) ==
            ReadFrom(lower, prefix + rest, Boundary(prefix + rest, Start(lower, prefix)))
  {
    ExtensionExactly(lower, prefix + rest, extension);
    StartBehind(lower, prefix, rest);
  }

  /** The parts of what is left: those of the prefix from the offset on, the last of them going on in the rest. */
  lemma {:induction false} PartsBehind(prefix: string, rest: string, n: nat)
    requires n <= Bytes(prefix) && Boundary(prefix, n).Some?
    ensures Boundary(prefix + rest, n) == Boundary(prefix, n)
    ensures var j := Boundary(prefix, n).value; var parts := Split(prefix[j..]); var k := |parts| - 1;
            Split((prefix + rest)[j..]) == parts[..k] + SplitFrom(rest, parts[k])
  {
    BoundaryInFirst(prefix, rest, n);
    var j := Boundary(prefix, n).value;
    assert (prefix + rest)[j..] == prefix[j..] + rest;
    SplitConcat(prefix[j..], rest, "");
  }

  lemma {:induction false} BoundaryWithin(s: string, n: nat)
    requires Boundary(s, n).Some?
    ensures n <= Bytes(s)
  {
    var j := Boundary(s, n).value;
    BytesConcat(s[..j], s[j..]);
    assert s[..j] + s[j..] == s;
  }

  lemma {:induction false} SplitTexts(lower: char -> string, items: seq<Item>)
    requires LowerCases(lower) && items != [] && forall i :: 0 <= i < |items| ==> WellFormed(lower, items[i])
    ensures SplitFrom(Join(Texts(items)), "") == Texts(items)
  {
    forall i | 0 <= i < |items|
      ensures NoComma(Texts(items)[i])
    {
      TextHasNoComma(lower, items[i]);
    }
    SplitJoin(Texts(items));
  }

  /**
   Round trip: items in any order, the first one the host, keywords in any letter case and other text in
   between (such as the ` (1)` of a copied file), behind any harmless prefix, parse to what they say.
   */
  lemma {:induction false} RoundTrip(lower: char -> string, prefix: string, items: seq<Item>, extension: string,
                  licensed: string -> Option<CustomServer>)
    requires LowerCases(lower) && Harmless(lower, prefix) && Printable(lower, prefix, items, extension)
    ensures Parsed(FileName(prefix, items, extension), lower, licensed) == Result(Some(Meaning(items)))
  {
    var rest := Join(Texts(items));
    HostFirst(lower, items);
    ParsedBehind(lower, prefix, rest, extension, licensed);
    var n := Start(lower, prefix);
    BoundaryWithin(prefix, n);
    PartsBehind(prefix, rest, n);
    SplitTexts(lower, items);
    var parts := Split(prefix[Boundary(prefix, n).value..]);
    FieldsOfTexts(lower, parts[..|parts| - 1], items);
  }

  // ---------------------------------------------------------------- and which are not

  /** Everything that can be printed behind the prefix parses back. */
  ghost predicate RoundTrips(lower: char -> string, prefix: string, licensed: string -> Option<CustomServer>) {
    forall items, extension :: Printable(lower, prefix, items, extension) ==>
      Parsed(FileName(prefix, items, extension), lower, licensed) == Result(Some(Meaning(items)))
  }

  /** A host of one letter. */
  function OneHost(v: char): seq<Item> {
    [Named(Host, "host=", [v])]
  }

  lemma {:induction false} LowerIsSame(lower: char -> string, s: string)
    requires LowerCases(lower) && forall i :: 0 <= i < |s| ==> Ascii(s[i]) && LowerChar(s[i]) == s[i]
    ensures Lower(lower, s) == s
  {
    if s != "" {
      LowerIsSame(lower, s[1..]);
    }
  }

  /** Its text, the same in lower case. */
  function OneText(v: char): string {
    "host=" + [v]
  }

  lemma {:induction false} OneHostText(lower: char -> string, v: char)
    requires LowerCases(lower) && (v == 'a' || v == 'b')
    ensures Join(Texts(OneHost(v))) == OneText(v) && Lower(lower, OneText(v)) == OneText(v) && NoComma(OneText(v))
    ensures StartsWith(OneText(v), "host=") && Text(OneHost(v)[0]) == OneText(v)
  {
    LowerIsSame(lower, OneText(v));
    assert OneText(v)[0..5] == "host=";
  }

  lemma {:induction false} OneHostWellFormed(lower: char -> string, v: char)
    requires LowerCases(lower) && (v == 'a' || v == 'b')
    ensures WellFormed(lower, OneHost(v)[0])
  {
    var keyword := "host=";
    LowerIsSame(lower, keyword);
    assert Keyword(Host) == keyword;
  }

  lemma {:induction false} ExeIsExtension(lower: char -> string)
    requires LowerCases(lower)
    ensures IsExtension(lower, ".exe")
  {
    var extension := ".exe";
    LowerIsSame(lower, extension);
    AsciiBytes(extension);
  }

  lemma {:induction false} NotExe(l: string)
    requires l != "" && l[|l| - 1] != 'e'
    ensures !EndsWith(l, ".exe")
  {
    assert |l| >= 4 ==> l[|l| - 4..|l|][3] == l[|l| - 1];
  }

  lemma {:induction false} OneHostEnds(lower: char -> string, prefix: string, v: char)
    requires LowerCases(lower) && (v == 'a' || v == 'b')
    ensures !EndsWith(Lower(lower, prefix + OneText(v)), ".exe")
  {
    OneHostText(lower, v);
    LowerConcat(lower, prefix, OneText(v));
    NotExe(Lower(lower, prefix) + OneText(v));
  }

  lemma {:induction false} OneHostPrintable(lower: char -> string, prefix: string, v: char)
    requires LowerCases(lower) && (v == 'a' || v == 'b')
    ensures Printable(lower, prefix, OneHost(v), ".exe")
  {
    OneHostText(lower, v);
    OneHostWellFormed(lower, v);
    ExeIsExtension(lower);
    OneHostEnds(lower, prefix, v);
  }

  lemma {:induction false} OneHostMeaning(v: char)
    ensures Meaning(OneHost(v)) == CustomServer("", [v], "", "")
  {
    MeaningSnoc(OneHost(v));
    assert OneHost(v)[..0] == [];
  }

  lemma {:induction false} AsciiBytes(s: string)
    requires forall i :: 0 <= i < |s| ==> Ascii(s[i])
    ensures Bytes(s) == |s|
  {
    if s != "" {
      AsciiBytes(s[1..]);
    }
  }

  lemma {:induction false} AsciiBoundary(s: string, n: nat)
    requires forall i :: 0 <= i < |s| ==> Ascii(s[i])
    ensures Boundary(s, n) == if n <= |s| then Some(n) else None
  {
    if n <= |s| {
      AsciiBytes(s[..n]);
      BoundaryIs(s, n, n);
    } else if Boundary(s, n).Some? {
      AsciiBytes(s[..Boundary(s, n).value]);
    }
  }

  lemma {:induction false} OneHostBehind(lower: char -> string, prefix: string, v: char,
          licensed: string -> Option<CustomServer>)
    requires LowerCases(lower) && (v == 'a' || v == 'b')
    ensures Parsed(FileName(prefix, OneHost(v), ".exe"), lower, licensed) ==
            ReadFrom(lower, prefix + OneText(v), Boundary(prefix + OneText(v), Start(lower, prefix)))
  {
    OneHostPrintable(lower, prefix, v);
    OneHostText(lower, v);
    ParsedBehind(lower, prefix, OneText(v), ".exe", licensed);
  }

  lemma {:induction false} OnePartNoHost(lower: char -> string, t: string)
    requires NoComma(t) && !StartsWith(Lower(lower, t), "host=")
    ensures Fields(lower, Split(t)).host == ""
  {
    SplitNoComma(t, "");
    assert "" + t == t;
    FieldsSnoc(lower, [], t);
    assert [] + [t] == [t];
  }

  lemma {:induction false} TailHasNoHost(lower: char -> string, v: char, n: nat)
    requires LowerCases(lower) && (v == 'a' || v == 'b') && 0 < n <= 6
    ensures Fields(lower, Split(OneText(v)[n..])).host == ""
  {
    var t := OneText(v)[n..];
    LowerIsSame(lower, t);
    assert |t| == 5 ==> t[0] == 'o';
    assert |t| >= 5 ==> t[0..5][0] == t[0];
    OnePartNoHost(lower, t);
  }

  lemma {:induction false} BoundaryBeyond(prefix: string, rest: string, n: nat)
    requires forall i :: 0 <= i < |rest| ==> Ascii(rest[i])
    ensures Boundary(prefix + rest, Bytes(prefix) + n) == if n <= |rest| then Some(|prefix| + n) else None
  {
    BoundaryInSecond(prefix, rest, n);
    AsciiBoundary(rest, n);
  }

  lemma {:induction false} ReadBeyond(lower: char -> string, prefix: string, rest: string, n: nat)
    ensures ReadFrom(lower, prefix + rest, Some(|prefix| + n)) == ReadFrom(lower, rest, Some(n))
  {
    if n <= |rest| {
      assert (prefix + rest)[|prefix| + n..] == rest[n..];
    }
  }

  lemma {:induction false} ReadOffset(lower: char -> string, prefix: string, rest: string, n: nat)
    requires forall i :: 0 <= i < |rest| ==> Ascii(rest[i])
    ensures ReadFrom(lower, prefix + rest, Boundary(prefix + rest, Bytes(prefix) + n)) == ReadFrom(lower, rest, Some(n))
  {
    BoundaryBeyond(prefix, rest, n);
    ReadBeyond(lower, prefix, rest, n);
  }

  lemma {:induction false} TailIsNotMeant(lower: char -> string, v: char, n: nat)
    requires LowerCases(lower) && (v == 'a' || v == 'b') && n > 0
    ensures ReadFrom(lower, OneText(v), Some(n)) != Result(Some(Meaning(OneHost(v))))
  {
    OneHostMeaning(v);
    if n <= 6 {
      TailHasNoHost(lower, v, n);
    }
  }

  /** An offset behind the prefix is past the end, or loses the keyword. */
  lemma {:induction false} OffsetBeyond(lower: char -> string, prefix: string, v: char,
                                        licensed: string -> Option<CustomServer>)
    requires LowerCases(lower) && (v == 'a' || v == 'b') && Start(lower, prefix) > Bytes(prefix)
    ensures Parsed(FileName(prefix, OneHost(v), ".exe"), lower, licensed) != Result(Some(Meaning(OneHost(v))))
  {
    var n := Start(lower, prefix) - Bytes(prefix);
    OneHostBehind(lower, prefix, v, licensed);
    OneHostText(lower, v);
    ReadOffset(lower, prefix, OneText(v), n);
    TailIsNotMeant(lower, v, n);
  }

  /** The host after parts that go on right before the printed one: never the printed one, unless they are closed. */
  lemma {:induction false} UnclosedPart(lower: char -> string, init: seq<string>, w: string, v: char)
    requires w != "" && [v] != Fields(lower, init).host
    ensures Fields(lower, init + [w + OneText(v)]).host != [v]
  {
    var el := w + OneText(v);
    FieldsSnoc(lower, init, el);
    assert |Skip(el, 5)| == |w| + 1;
  }

  lemma {:induction false} OpenPart(lower: char -> string, init: seq<string>, v: char)
    requires LowerCases(lower) && (v == 'a' || v == 'b') && Fields(lower, init).(host := "") != NOTHING
    ensures Fields(lower, init + [OneText(v)]) != Meaning(OneHost(v))
  {
    OneHostText(lower, v);
    OneHostWellFormed(lower, v);
    OneHostMeaning(v);
    FieldsSnoc(lower, init, OneText(v));
    UpdatedByItem(lower, Fields(lower, init), OneHost(v)[0]);
  }

  /** Either way, the printed host is not what is read. */
  lemma {:induction false} HarmfulParts(lower: char -> string, init: seq<string>, w: string) returns (v: char)
    requires LowerCases(lower) && !(w == "" && Fields(lower, init).(host := "") == NOTHING)
    ensures v == 'a' || v == 'b'
    ensures Fields(lower, init + [w + OneText(v)]) != Meaning(OneHost(v))
  {
    v := if Fields(lower, init).host == "a" then 'b' else 'a';
    OneHostMeaning(v);
    if w == "" {
      OpenPart(lower, init, v);
      assert w + OneText(v) == OneText(v);
    } else {
      UnclosedPart(lower, init, w, v);
    }
  }

  /** An offset inside the prefix brings something in between, or is inside a character. */
  lemma {:induction false} OffsetWithin(lower: char -> string, prefix: string,
          licensed: string -> Option<CustomServer>)
    returns (v: char)
    requires LowerCases(lower) && !Harmless(lower, prefix) && Start(lower, prefix) <= Bytes(prefix)
    ensures v == 'a' || v == 'b'
    ensures Parsed(FileName(prefix, OneHost(v), ".exe"), lower, licensed) != Result(Some(Meaning(OneHost(v))))
  {
    var n := Start(lower, prefix);
    v := 'a';
    if Boundary(prefix, n).Some? {
      var parts := Split(prefix[Boundary(prefix, n).value..]);
      v := HarmfulParts(lower, parts[..|parts| - 1], parts[|parts| - 1]);
      PartsBehind(prefix, OneText(v), n);
      OneHostText(lower, v);
      SplitNoComma(OneText(v), parts[|parts| - 1]);
    }
    BoundaryInFirst(prefix, OneText(v), n);
    OneHostBehind(lower, prefix, v, licensed);
  }

  /** For every prefix whatever: what is printed behind it always parses back exactly when the prefix is harmless. */
  lemma {:induction false} RoundTripsExactly(lower: char -> string, prefix: string,
          licensed: string -> Option<CustomServer>)
    requires LowerCases(lower)
    ensures RoundTrips(lower, prefix, licensed) <==> Harmless(lower, prefix)
  {
    if Harmless(lower, prefix) {
      forall items, extension | Printable(lower, prefix, items, extension)
        ensures Parsed(FileName(prefix, items, extension), lower, licensed) == Result(Some(Meaning(items)))
      {
        RoundTrip(lower, prefix, items, extension, licensed);
      }
    } else {
      var v := 'a';
      if Start(lower, prefix) > Bytes(prefix) {
        OffsetBeyond(lower, prefix, v, licensed);
      } else {
        v := OffsetWithin(lower, prefix, licensed);
      }
      OneHostPrintable(lower, prefix, v);
    }
  }

  // ---------------------------------------------------------------- plain prefixes, and two that are not

  lemma {:induction false} LowerKeepsBytes(lower: char -> string, s: string)
    requires LowerCases(lower)
    requires forall i :: 0 <= i < |s| ==> Ascii(s[i]) || Bytes(lower(s[i])) == Width(s[i])
    ensures Bytes(Lower(lower, s)) == Bytes(s)
  {
    if s != "" {
      LowerKeepsBytes(lower, s[1..]);
      BytesConcat(lower(s[0]), Lower(lower, s[1..]));
      if Ascii(s[0]) {
        AsciiBytes(lower(s[0]));
      }
    }
  }

  lemma {:induction false} NothingAfterTheEnd(lower: char -> string, s: string)
    ensures Split(s[|s|..]) == [""] && Fields(lower, [""][..0]) == NOTHING
  {
    assert s[|s|..] == "";
    assert [""][..0] == [];
  }

  lemma {:induction false} EndIsHarmless(lower: char -> string, prefix: string)
    requires Start(lower, prefix) == Bytes(prefix)
    ensures Harmless(lower, prefix)
  {
    BoundaryAtEnd(prefix);
    NothingAfterTheEnd(lower, prefix);
  }

  /**
   A prefix without the keyword is harmless if lower-casing keeps the bytes of each character; so every ASCII
   one is.
   */
  lemma {:induction false} PlainPrefixIsHarmless(lower: char -> string, prefix: string)
    requires LowerCases(lower) && Find(Lower(lower, prefix), "host=", 0).None?
    requires forall i :: 0 <= i < |prefix| ==> Ascii(prefix[i]) || Bytes(lower(prefix[i])) == Width(prefix[i])
    ensures Harmless(lower, prefix)
  {
    LowerKeepsBytes(lower, prefix);
    EndIsHarmless(lower, prefix);
  }

  lemma {:induction false} OneCharacter(lower: char -> string, c: char)
    ensures Lower(lower, [c]) == lower(c) && Bytes([c]) == Width(c)
  {
    assert [c][1..] == "";
    assert lower(c) + "" == lower(c);
  }

  lemma {:induction false} TwoCharacters(a: char, b: char)
    ensures Bytes([a]) == Width(a) && Bytes([a, b]) == Width(a) + Width(b)
  {
    assert [a][1..] == "" && [a, b][1..] == [b] && [b][1..] == "";
  }

  /** Behind a capital I with a dot, which grows by a byte, what is printed does not parse back. */
  lemma {:induction false} DottedIIsHarmful(lower: char -> string)
    requires LowerCases(lower) && lower('\U{0130}') == ['i', '\U{0307}']
    ensures Start(lower, ['\U{0130}']) == 3 && Bytes(['\U{0130}']) == 2 && !Harmless(lower, ['\U{0130}'])
  {
    var prefix := ['\U{0130}'];
    OneCharacter(lower, '\U{0130}');
    TwoCharacters('i', '\U{0307}');
    assert Find(['i', '\U{0307}'], "host=", 0).None?;
    if Boundary(prefix, 3).Some? {
      BoundaryWithin(prefix, 3);
    }
  }

  /** Behind a capital sharp s, which shrinks by a byte, the parser slices inside it. */
  lemma {:induction false} SharpSPanics(lower: char -> string, items: seq<Item>, extension: string,
          licensed: string -> Option<CustomServer>)
    requires LowerCases(lower) && lower('\U{1E9E}') == ['\U{00DF}']
    requires Printable(lower, ['\U{1E9E}'], items, extension)
    ensures Parsed(FileName(['\U{1E9E}'], items, extension), lower, licensed) == Panics
  {
    var prefix, rest := ['\U{1E9E}'], Join(Texts(items));
    OneCharacter(lower, '\U{1E9E}');
    TwoCharacters('\U{00DF}', '\U{00DF}');
    assert Find(['\U{00DF}'], "host=", 0).None?;
    HostFirst(lower, items);
    ParsedBehind(lower, prefix, rest, extension, licensed);
    BoundaryInFirst(prefix, rest, 2);
    forall i: nat
      ensures !IsBoundary(prefix, 2, i)
    {
      if i == 1 {
        assert prefix[..i] == prefix;
      }
    }
  }

  // ---------------------------------------------------------------- copied installers

  /** A keyword in some letter case. */
  predicate InAnyCase(lower: char -> string, f: Setting, keyword: string) {
    Lower(lower, keyword) == Keyword(f) && |keyword| == |Keyword(f)|
  }

  /** All four settings, then the suffix that Windows adds to the name of a copied file, kept apart by a comma. */
  function CopiedItems(host: string, key: string, api: string, relay: string, server: CustomServer,
          copy: string): seq<Item> {
    [Named(Host, host, server.host), Named(Key, key, server.key), Named(Api, api, server.api),
     Named(Relay, relay, server.relay), Other(copy)]
  }

  lemma {:induction false} JoinEndsLikeLast(parts: seq<string>)
    requires parts != [] && parts[|parts| - 1] != ""
    ensures var last := parts[|parts| - 1]; var s := Join(parts);
            |s| > 0 && s[|s| - 1] == last[|last| - 1]
  {
    if |parts| > 1 {
      JoinEndsLikeLast(parts[1..]);
    }
  }

  lemma {:induction false} ParenthesisIsNoExtension(lower: char -> string, body: string)
    requires LowerCases(lower) && body != "" && body[|body| - 1] == ')'
    ensures !EndsWith(Lower(lower, body), ".exe")
  {
    var n := |body| - 1;
    OneCharacter(lower, ')');
    LowerConcat(lower, body[..n], [body[n]]);
    assert body == body[..n] + [body[n]];
    assert Ascii(')') && lower(')') == [')'];
    NotExe(Lower(lower, body[..n]) + [')']);
  }

  /** Such a suffix is a space and a number in brackets. */
  ghost predicate IsCopySuffix(copy: string) {
    |copy| >= 2 && copy[0] == ' ' && copy[|copy| - 1] == ')' && NoComma(copy)
  }

  lemma {:induction false} CopySuffixIsOther(lower: char -> string, copy: string)
    requires LowerCases(lower) && IsCopySuffix(copy)
    ensures WellFormed(lower, Other(copy))
  {
    assert Ascii(' ') && lower(' ') == [' '];
    assert Lower(lower, copy)[0] == ' ';
    var l := Lower(lower, copy);
    assert forall n :: 0 < n <= |l| ==> l[0..n][0] == ' ';
    assert forall f: Setting :: |Keyword(f)| > 0 && Keyword(f)[0] != ' ';
  }

  lemma {:induction false} CopiedMeaning(i0: Item, i1: Item, i2: Item, i3: Item, i4: Item)
    requires i0.Named? && i1.Named? && i2.Named? && i3.Named? && i4.Other?
    requires i0.setting == Host && i1.setting == Key && i2.setting == Api && i3.setting == Relay
    ensures Meaning([i0, i1, i2, i3, i4]) == CustomServer(i1.value, i0.value, i2.value, i3.value)
  {
    var items := [i0, i1, i2, i3, i4];
    MeaningSnoc(items);
    MeaningSnoc(items[..4]);
    MeaningSnoc(items[..3]);
    MeaningSnoc(items[..2]);
    MeaningSnoc(items[..1]);
    assert items[..4][..3] == items[..3] && items[..3][..2] == items[..2] && items[..2][..1] == items[..1];
    assert items[..1][..0] == [];
  }

  lemma {:induction false} CopiedEnds(lower: char -> string, prefix: string, items: seq<Item>)
    requires LowerCases(lower) && items != [] && items[|items| - 1].Other? && IsCopySuffix(items[|items| - 1].text)
    ensures !EndsWith(Lower(lower, prefix + Join(Texts(items))), ".exe")
  {
    JoinEndsLikeLast(Texts(items));
    ParenthesisIsNoExtension(lower, prefix + Join(Texts(items)));
  }

  /** The documented use: whatever the settings and the letter case are, a copied installer still carries them. */
  lemma {:induction false} CopiedInstaller(lower: char -> string, prefix: string, host: string, key: string,
          api: string, relay: string,
                        server: CustomServer, copy: string, extension: string, licensed: string -> Option<CustomServer>)
    requires LowerCases(lower) && Harmless(lower, prefix) && IsCopySuffix(copy) && IsExtension(lower, extension)
    requires InAnyCase(lower, Host, host) && InAnyCase(lower, Key, key)
    requires InAnyCase(lower, Api, api) && InAnyCase(lower, Relay, relay)
    requires NoComma(server.host) && NoComma(server.key) && NoComma(server.api) && NoComma(server.relay)
    ensures Parsed(FileName(prefix, CopiedItems(host, key, api, relay, server, copy), extension), lower, licensed)
            == Result(Some(server))
  {
    var items := CopiedItems(host, key, api, relay, server, copy);
    CopySuffixIsOther(lower, copy);
    CopiedMeaning(items[0], items[1], items[2], items[3], items[4]);
    CopiedEnds(lower, prefix, items);
    RoundTrip(lower, prefix, items, extension, licensed);
  }
}
