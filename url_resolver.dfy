/** Turning what the user pastes (an npm command or package name, or a page URL) into the fields of a
    new tile. The network and the URL parser are parameters: `Network` says what each request would
    answer. Regular expressions are written out as the scans they perform. */
module UrlResolver {
  import opened JsValues
  import opened Strings

  // ---------------------------------------------------------------------------------------------
  // Scanning

  /** The length of the run of characters of a class starting at `i`. */
  function Run(s: string, i: nat, inClass: char -> bool): (n: nat)
    requires i <= |s|
    ensures i + n <= |s|
    ensures forall k :: i <= k < i + n ==> inClass(s[k])
    ensures i + n < |s| ==> !inClass(s[i + n])
    decreases |s| - i
  {
    if i == |s| || !inClass(s[i]) then 0 else 1 + Run(s, i + 1, inClass)
  }

  /** The first position at or after `from` where `p` matches with ASCII case ignored. */
  function IndexOfCI(s: string, p: string, from: nat): (r: Option<nat>)
    ensures r.Some? ==> from <= r.value && MatchesCIAt(s, r.value, p)
    ensures r.Some? ==> forall j :: from <= j < r.value ==> !MatchesCIAt(s, j, p)
    ensures r.None? ==> forall j :: from <= j ==> !MatchesCIAt(s, j, p)
    decreases |s| - from
  {
    if from + |p| > |s| then None
    else if MatchesCIAt(s, from, p) then Some(from)
    else IndexOfCI(s, p, from + 1)
  }

  /** The first position at or after `from` holding `c`, or the length of `s`. */
  function IndexOfOrEnd(s: string, c: char, from: nat): (r: nat)
    requires from <= |s|
    ensures from <= r <= |s| && (r < |s| ==> s[r] == c)
    ensures forall j :: from <= j < r ==> s[j] != c
    decreases |s| - from
  {
    if from == |s| || s[from] == c then from else IndexOfOrEnd(s, c, from + 1)
  }

  /** `[\w.-]` */
  predicate IsWordChar(c: char) {
    ('a' <= c <= 'z') || ('A' <= c <= 'Z') || ('0' <= c <= '9') || c == '_' || c == '.' || c == '-'
  }

  predicate AllWord(s: string) {
    forall i :: 0 <= i < |s| ==> IsWordChar(s[i])
  }

  predicate NotSpace(c: char) { !IsSpace(c) }
  predicate NotSlash(c: char) { c != '/' }
  /** `[^/?#]` */
  predicate NotPathEnd(c: char) { c != '/' && c != '?' && c != '#' }
  predicate IsQuote(c: char) { c == '"' || c == '\'' }
  predicate NotQuote(c: char) { !IsQuote(c) }
  predicate NotClose(c: char) { c != '>' }

  // ---------------------------------------------------------------------------------------------
  // Resolutions and the network

  /** What a resolver returns; `error` is set exactly when the input could not be resolved. */
  datatype Resolution = Resolution(embedUrl: string, title: Value, sourceUrl: string, description: Value,
                                   thumbnailUrl: Value, error: Option<string>)

  function Failure(message: string, sourceUrl: string): Resolution {
    Resolution("", Str(""), sourceUrl, Undef, Undef, Some(message))
  }

  /** What `new URL(...)` reports for a valid URL. */
  datatype UrlParts = UrlParts(hostname: string, pathname: string)

  /** The npm registry through the CORS proxy: a thrown error (with its message), a response that is
      not OK, a body that is not JSON, or the `name` and `description` of the package document. */
  datatype RegistryResponse = Thrown(message: string) | NotOk | NotJson | Package(name: Value, description: Value)

  /** CodePen's oEmbed endpoint: unavailable, or the `title` of the JSON it returns. */
  datatype OEmbedResponse = NoOEmbed | OEmbed(title: Value)

  /** A page through the CORS proxy: unavailable, or its HTML. */
  datatype PageResponse = Unavailable | Page(html: string)

  /** The answers of `new URL`, and of each URL fetched, by the URL passed. */
  datatype Network = Network(parseUrl: string -> Option<UrlParts>, registry: string -> RegistryResponse,
                             oembed: string -> OEmbedResponse, page: string -> PageResponse)

  // ---------------------------------------------------------------------------------------------
  // encodeURIComponent

  /** The characters `encodeURIComponent` leaves as they are. */
  predicate IsUnreserved(c: char) {
    ('a' <= c <= 'z') || ('A' <= c <= 'Z') || ('0' <= c <= '9')
    || c == '-' || c == '_' || c == '.' || c == '!' || c == '~' || c == '*' || c == '\'' || c == '(' || c == ')'
  }

  function HexDigit(d: nat): (c: char)
    requires d < 16
    ensures ('0' <= c <= '9') || ('A' <= c <= 'F')
  {
    if d < 10 then (d + '0' as int) as char else (d - 10 + 'A' as int) as char
  }

  /** The UTF-8 bytes of a character. */
  function Utf8(c: char): (bytes: seq<nat>)
    ensures 1 <= |bytes| <= 4 && forall i :: 0 <= i < |bytes| ==> bytes[i] < 256
  {
    var cp := c as int;
    if cp < 0x80 then [cp]
    else if cp < 0x800 then [0xC0 + cp / 64, 0x80 + cp % 64]
    else if cp < 0x10000 then [0xE0 + cp / 4096, 0x80 + (cp / 64) % 64, 0x80 + cp % 64]
    else [0xF0 + cp / 262144, 0x80 + (cp / 4096) % 64, 0x80 + (cp / 64) % 64, 0x80 + cp % 64]
  }

  /** `%XY` for each byte. */
  function PercentEncode(bytes: seq<nat>): (r: string)
    requires forall i :: 0 <= i < |bytes| ==> bytes[i] < 256
    ensures |r| == 3 * |bytes|
    ensures forall i :: 0 <= i < |r| ==> (r[i] == '%' <==> i % 3 == 0)
    ensures forall i :: 0 <= i < |r| && i % 3 != 0 ==> ('0' <= r[i] <= '9') || ('A' <= r[i] <= 'F')
  {
    if bytes == [] then []
    else ['%', HexDigit(bytes[0] / 16), HexDigit(bytes[0] % 16)] + PercentEncode(bytes[1..])
  }

  function EncodeChar(c: char): string {
    if IsUnreserved(c) then [c] else PercentEncode(Utf8(c))
  }

  /** `encodeURIComponent`: unreserved characters are kept, every other character becomes the
      percent-escapes of its UTF-8 bytes. */
  function EncodeUriComponent(s: string): (r: string)
    ensures forall i :: 0 <= i < |r| ==> IsUnreserved(r[i]) || r[i] == '%'
    decreases |s|
  {
    if s == [] then [] else EncodeChar(s[0]) + EncodeUriComponent(s[1..])
  }

  /** Escaping never shortens, and it keeps the length only when nothing needed escaping; a string
      of unreserved characters is kept as it is. */
  lemma {:induction false} EncodeLength(s: string)
    ensures |EncodeUriComponent(s)| >= |s|
    ensures |EncodeUriComponent(s)| == |s| ==> forall i :: 0 <= i < |s| ==> IsUnreserved(s[i])
    ensures (forall i :: 0 <= i < |s| ==> IsUnreserved(s[i])) ==> EncodeUriComponent(s) == s
    decreases |s|
  {
    if s != [] {
      EncodeLength(s[1..]);
      assert forall i :: 1 <= i < |s| ==> s[i] == s[1..][i - 1];
      assert s == [s[0]] + s[1..];
    }
  }

  /** Nothing is escaped exactly when every character is unreserved. */
  lemma EncodeIsIdentityIffUnreserved(s: string)
    ensures EncodeUriComponent(s) == s <==> forall i :: 0 <= i < |s| ==> IsUnreserved(s[i])
  {
    EncodeLength(s);
  }

  /** The escaped form never holds a path separator, a query or fragment start, or a space, so it
      stays inside the path segment or query value it is put in. */
  lemma EncodedIsOneComponent(s: string)
    ensures forall i :: 0 <= i < |EncodeUriComponent(s)| ==>
      EncodeUriComponent(s)[i] !in {'/', '?', '#', '&', '=', ' ', '"'}
  {
  }

  /** The CORS proxy URL of a target URL. */
  function ProxyUrl(target: string): string {
    "https://api.allorigins.win/raw?url=" + EncodeUriComponent(target)
  }

  // ---------------------------------------------------------------------------------------------
  // Packages

  const CommandPrefixes: seq<string> := ["npx ", "npm install ", "pnpm add ", "yarn add "]

  /** `/^https?:\/\//i` */
  predicate HasHttpScheme(s: string) {
    StartsWithCI(s, "http://") || StartsWithCI(s, "https://")
  }

  /** `/^@[\w.-]+\/[\w.-]+(@[\w.-]*)?$/` */
  predicate IsScopedPackage(s: string) {
    && |s| > 1 && s[0] == '@'
    && var a := Run(s, 1, IsWordChar);
    && a > 0 && 1 + a < |s| && s[1 + a] == '/'
    && var b := Run(s, 2 + a, IsWordChar);
    && b > 0
    && var e := 2 + a + b;
    (e == |s| || (s[e] == '@' && e + 1 + Run(s, e + 1, IsWordChar) == |s|))
  }

  /** `/^[\w.-]+(@[\w.-]*)?$/` */
  predicate IsUnscopedPackage(s: string) {
    && |s| > 0
    && var a := Run(s, 0, IsWordChar);
    && a > 0
    && (a == |s| || (s[a] == '@' && a + 1 + Run(s, a + 1, IsWordChar) == |s|))
  }

  /** `isNpmPackageInput` */
  predicate IsNpmPackageInput(s: string) {
    || (exists i :: 0 <= i < |CommandPrefixes| && StartsWith(s, CommandPrefixes[i]))
    || IsScopedPackage(s)
    || (!HasHttpScheme(s) && IsUnscopedPackage(s) && Contains(s, "/"))
  }

  function WithVersion(name: string, version: Option<string>): string {
    if version.Some? then name + "@" + version.value else name
  }

  /** `@scope/name` and `@scope/name@version` are scoped package names. */
  lemma ScopedPackageAccepted(scope: string, name: string, version: Option<string>)
    requires scope != "" && AllWord(scope) && name != "" && AllWord(name)
    requires version.Some? ==> AllWord(version.value)
    ensures IsScopedPackage(WithVersion("@" + scope + "/" + name, version))
  {
    if version.Some? {
      VersionedScopedPackageAccepted(scope, name, version.value);
    } else {
      var s := "@" + scope + "/" + name;
      RunCovers(s, 1, scope, IsWordChar);
      RunCovers(s, 2 + |scope|, name, IsWordChar);
    }
  }

  lemma VersionedScopedPackageAccepted(scope: string, name: string, version: string)
    requires scope != "" && AllWord(scope) && name != "" && AllWord(name) && AllWord(version)
    ensures IsScopedPackage("@" + scope + "/" + name + "@" + version)
  {
    var s := "@" + scope + "/" + name + "@" + version;
    RunCovers(s, 1, scope, IsWordChar);
    RunCovers(s, 2 + |scope|, name, IsWordChar);
    RunCovers(s, 3 + |scope| + |name|, version, IsWordChar);
  }

  /** A longer prefix is a shorter one followed by the slice between them. */
  lemma PrefixJoin(s: string, i: nat, j: nat)
    requires i <= j <= |s|
    ensures s[..j] == s[..i] + s[i..j]
  {
    assert s[..j] == s[..i] + s[i..j];
  }

  /** A run over a piece of characters of the class stops exactly at the piece's end. */
  lemma RunCovers(s: string, i: nat, piece: string, inClass: char -> bool)
    requires (forall k :: 0 <= k < |piece| ==> inClass(piece[k])) && i + |piece| <= |s| && s[i..i + |piece|] == piece
    requires i + |piece| == |s| || !inClass(s[i + |piece|])
    ensures Run(s, i, inClass) == |piece|
    decreases |piece|
  {
    if piece != [] {
      assert s[i] == piece[0];
      assert s[i + 1..i + |piece|] == piece[1..];
      RunCovers(s, i + 1, piece[1..], inClass);
    }
  }

  /** Every scoped package name is `@scope/name` with an optional `@version`, each part made of word
      characters. */
  lemma ScopedPackageParts(s: string) returns (scope: string, name: string, version: Option<string>)
    requires IsScopedPackage(s)
    ensures scope != "" && AllWord(scope) && name != "" && AllWord(name)
    ensures version.Some? ==> AllWord(version.value)
    ensures s == WithVersion("@" + scope + "/" + name, version)
  {
    var a := Run(s, 1, IsWordChar);
    var b := Run(s, 2 + a, IsWordChar);
    var e := 2 + a + b;
    scope, name := s[1..1 + a], s[2 + a..e];
    ScopedNameJoin(s, a, e);
    if e == |s| {
      version := None;
      assert s == s[..e];
    } else {
      version := Some(s[e + 1..]);
      VersionJoin(s, e);
    }
  }

  /** The first `e` characters of `@scope/name...` are `@`, the scope, `/` and the name. */
  lemma ScopedNameJoin(s: string, a: nat, e: nat)
    requires 1 + a < e <= |s| && s[0] == '@' && s[1 + a] == '/'
    ensures s[..e] == "@" + s[1..1 + a] + "/" + s[2 + a..e]
  {
    assert s[..1] == "@";
    assert s[1 + a..2 + a] == "/";
    PrefixJoin(s, 1, 1 + a);
    PrefixJoin(s, 1 + a, 2 + a);
    PrefixJoin(s, 2 + a, e);
  }

  lemma VersionJoin(s: string, e: nat)
    requires e < |s| && s[e] == '@'
    ensures s == s[..e] + "@" + s[e + 1..]
  {
    assert s[e..e + 1] == "@";
    PrefixJoin(s, e, e + 1);
    assert s == s[..e + 1] + s[e + 1..];
  }

  lemma UnscopedHasNoSlash(s: string)
    requires IsUnscopedPackage(s)
    ensures forall i :: 0 <= i < |s| ==> s[i] != '/'
  {
    var a := Run(s, 0, IsWordChar);
    forall i | 0 <= i < |s| ensures s[i] != '/' {
      if i != a {
        assert IsWordChar(s[i]);
      }
    }
  }

  /** The unscoped test of `isNpmPackageInput` never holds: its pattern admits no `/`, which the
      same test then demands. */
  lemma UnscopedBranchNeverFires(s: string)
    ensures !(IsUnscopedPackage(s) && Contains(s, "/"))
  {
    if IsUnscopedPackage(s) {
      UnscopedHasNoSlash(s);
      forall i | 0 <= i <= |s| - 1 ensures !OccursAt(s, i, "/") {
        assert s[i..i + 1][0] == s[i];
      }
    }
  }

  /** So a package input is a command or a scoped package name, nothing else. */
  lemma NpmPackageInputIff(s: string)
    ensures IsNpmPackageInput(s) <==>
      (exists i :: 0 <= i < |CommandPrefixes| && StartsWith(s, CommandPrefixes[i])) || IsScopedPackage(s)
  {
    UnscopedBranchNeverFires(s);
  }

  /** `\s+([^\s]+)` at `i`: the token after at least one whitespace character. */
  function TokenAfter(s: string, i: nat): (r: Option<string>)
    ensures r.Some? ==> r.value != "" && forall k :: 0 <= k < |r.value| ==> !IsSpace(r.value[k])
  {
    if i >= |s| then None
    else
      var n := Run(s, i, IsSpace);
      if n == 0 || i + n == |s| then None
      else
        var m := Run(s, i + n, NotSpace);
        Some(s[i + n..i + n + m])
  }

  /** `/(?:add|install)\s+([^\s]+)/i` tried at position `p`. */
  function KeywordTokenAt(s: string, p: nat): Option<string> {
    if MatchesCIAt(s, p, "add") && TokenAfter(s, p + 3).Some? then TokenAfter(s, p + 3)
    else if MatchesCIAt(s, p, "install") then TokenAfter(s, p + 7)
    else None
  }

  /** The keyword pattern matches at no position from `a` up to `b`. */
  predicate NoKeywordTokenIn(s: string, a: nat, b: nat) {
    forall q :: a <= q < b ==> KeywordTokenAt(s, q).None?
  }

  /** The first match of the keyword pattern at or after `from`; `KeywordTokenIsLeftmost` shows that no
      position before it matches. */
  function KeywordToken(s: string, from: nat): (r: Option<string>)
    ensures r.Some? ==> exists p :: from <= p <= |s| && KeywordTokenAt(s, p) == r
    ensures r.Some? ==> r.value != "" && forall k :: 0 <= k < |r.value| ==> !IsSpace(r.value[k])
    ensures r.None? <==> forall p :: from <= p <= |s| ==> KeywordTokenAt(s, p).None?
    decreases |s| - from
  {
    if from > |s| then None
    else match KeywordTokenAt(s, from)
      case Some(t) => Some(t)
      case None => KeywordToken(s, from + 1)
  }

  /** `match` returns the leftmost match: the keyword search finds a position with no match before it. */
  lemma {:induction false} KeywordTokenIsLeftmost(s: string, from: nat)
    ensures KeywordToken(s, from).Some? ==>
      exists p :: from <= p <= |s| && KeywordTokenAt(s, p) == KeywordToken(s, from) && NoKeywordTokenIn(s, from, p)
    decreases |s| - from
  {
    if from <= |s| {
      if KeywordTokenAt(s, from).Some? {
        assert NoKeywordTokenIn(s, from, from);
      } else {
        KeywordTokenIsLeftmost(s, from + 1);
        assert forall p :: NoKeywordTokenIn(s, from + 1, p) ==> NoKeywordTokenIn(s, from, p);
      }
    }
  }

  /** The last element of `s.split(/\s+/)` for `s` without surrounding whitespace: its trailing run of
      non-whitespace characters. */
  function LastToken(s: string): (r: string)
    ensures |r| <= |s| && r == s[|s| - |r|..]
    ensures forall k :: 0 <= k < |r| ==> !IsSpace(r[k])
    ensures |r| < |s| ==> IsSpace(s[|s| - |r| - 1])
    decreases |s|
  {
    if s == [] || IsSpace(s[|s| - 1]) then [] else LastToken(s[..|s| - 1]) + [s[|s| - 1]]
  }

  /** `/^[\w.-]+\/[\w.-]+/` */
  predicate StartsWithPackagePath(s: string) {
    var a := Run(s, 0, IsWordChar);
    a > 0 && a < |s| && s[a] == '/' && Run(s, a + 1, IsWordChar) > 0
  }

  /** The last word of an `npx` command, when it looks like a package (`@...` or containing `/`). */
  function NpxPackage(command: string): (r: Option<string>)
    requires StartsWith(command, "npx ")
    ensures r.Some? ==> r.value != ""
  {
    var last := LastToken(Trim(command[|"npx "|..]));
    if last != "" && (last[0] == '@' || Contains(last, "/")) then Some(last) else None
  }

  /** `parsePackageName` */
  function ParsePackageName(input: string): (r: Option<string>)
    ensures r.Some? ==> r.value != ""
    ensures KeywordToken(Trim(input), 0).Some? ==> r == KeywordToken(Trim(input), 0)
  {
    var trimmed := Trim(input);
    match KeywordToken(trimmed, 0)
    case Some(t) => Some(t)
    case None =>
      if StartsWith(trimmed, "npx ") && NpxPackage(trimmed).Some? then NpxPackage(trimmed)
      else if StartsWith(trimmed, "@") || StartsWithPackagePath(trimmed) then Some(trimmed)
      else None
  }

  /** A space and then a word: that word is the token. */
  lemma TokenAfterSpace(pre: string, pkg: string)
    requires pkg != "" && forall k :: 0 <= k < |pkg| ==> !IsSpace(pkg[k])
    ensures TokenAfter(pre + " " + pkg, |pre|) == Some(pkg)
  {
    var s := pre + " " + pkg;
    var i := |pre|;
    assert s[i] == ' ';
    assert Run(s, i, IsSpace) == 1 by {
      assert s[i + 1] == pkg[0];
      assert Run(s, i + 1, IsSpace) == 0;
    }
    RunCovers(s, i + 1, pkg, NotSpace);
  }

  /** In `npm install <package>`, the keyword pattern first matches at `install`. */
  lemma InstallKeywordAt(s: string, pkg: string)
    requires pkg != "" && forall k :: 0 <= k < |pkg| ==> !IsSpace(pkg[k])
    requires s == "npm install" + " " + pkg
    ensures KeywordTokenAt(s, 4) == Some(pkg)
  {
    TokenAfterSpace("npm install", pkg);
    InstallMatchesAt(s, pkg);
  }

  lemma InstallMatchesAt(s: string, pkg: string)
    requires s == "npm install" + " " + pkg
    ensures MatchesCIAt(s, 4, "install") && !MatchesCIAt(s, 4, "add")
  {
    assert s[4] == 'i' && LowerChar(s[4 + 0]) != "add"[0];
    forall k | 0 <= k < 7 ensures LowerChar(s[4 + k]) == "install"[k] {
      assert s[4 + k] == "npm install"[4 + k];
    }
  }

  lemma NoKeywordInNpm(s: string, pkg: string)
    requires s == "npm install" + " " + pkg
    ensures forall p :: 0 <= p < 4 ==> KeywordTokenAt(s, p).None?
  {
    forall p | 0 <= p < 4 ensures KeywordTokenAt(s, p).None? {
      assert s[p] == "npm "[p];
      assert !MatchesCIAt(s, p, "add") by {
        assert LowerChar(s[p + 0]) != "add"[0];
      }
      assert !MatchesCIAt(s, p, "install") by {
        assert LowerChar(s[p + 0]) != "install"[0];
      }
    }
  }

  /** `npm install <package>` names that package. */
  lemma InstallCommandNamesPackage(pkg: string)
    requires pkg != "" && forall k :: 0 <= k < |pkg| ==> !IsSpace(pkg[k])
    ensures ParsePackageName("npm install " + pkg) == Some(pkg)
  {
    var s := "npm install " + pkg;
    assert s == "npm install" + " " + pkg;
    assert !IsSpace(s[0]) && !IsSpace(s[|s| - 1]);
    TrimOfTrimmed(s);
    InstallKeywordAt(s, pkg);
    NoKeywordInNpm(s, pkg);
    assert KeywordToken(s, 3) == Some(pkg);
    assert KeywordToken(s, 2) == Some(pkg);
    assert KeywordToken(s, 1) == Some(pkg);
    assert KeywordToken(s, 0) == Some(pkg);
  }

  /** No `add` or `install`, in any ASCII case, starts inside `c`. */
  predicate HasNoKeyword(c: string) {
    forall p :: 0 <= p < |c| ==> !MatchesCIAt(c, p, "add") && !MatchesCIAt(c, p, "install")
  }

  /** A keyword cannot match across the space that ends a command without keywords. */
  lemma NoKeywordBeforeSpace(c: string, rest: string, p: nat, w: string)
    requires HasNoKeyword(c) && p <= |c|
    requires w == "add" || w == "install"
    ensures !MatchesCIAt(c + " " + rest, p, w)
  {
    var s := c + " " + rest;
    if p + |w| <= |c| {
      assert s[..|c|] == c;
      MatchesInPrefix(s, |c|, p, w);
    } else {
      var k := |c| - p;
      assert s[p + k] == ' ';
      if p + |w| <= |s| {
        assert LowerChar(s[p + k]) != w[k];
      }
    }
  }

  lemma NoKeywordTokenBeforeSpace(c: string, rest: string)
    requires HasNoKeyword(c)
    ensures forall p :: 0 <= p <= |c| ==> KeywordTokenAt(c + " " + rest, p).None?
  {
    forall p | 0 <= p <= |c| ensures KeywordTokenAt(c + " " + rest, p).None? {
      NoKeywordBeforeSpace(c, rest, p, "add");
      NoKeywordBeforeSpace(c, rest, p, "install");
    }
  }

  /** A keyword match at `q` with none before it is what the keyword search finds. */
  lemma KeywordTokenFirst(s: string, q: nat)
    requires q <= |s| && KeywordTokenAt(s, q).Some?
    requires forall p :: 0 <= p < q ==> KeywordTokenAt(s, p).None?
    ensures KeywordToken(s, 0) == KeywordTokenAt(s, q)
  {
    KeywordTokenIsLeftmost(s, 0);
  }

  lemma KeywordMatchesItself(kw: string, rest: string)
    requires kw == "add" || kw == "install"
    ensures MatchesCIAt(kw + rest, 0, kw)
  {
    forall k | 0 <= k < |kw| ensures LowerChar((kw + rest)[0 + k]) == kw[k] {
      assert (kw + rest)[k] == kw[k];
      assert 'a' <= kw[k] <= 'z';
    }
  }

  /** Right after the command's space, the keyword pattern matches and takes the package. */
  lemma KeywordAfterCommand(c: string, kw: string, pkg: string)
    requires kw == "add" || kw == "install"
    requires pkg != "" && forall k :: 0 <= k < |pkg| ==> !IsSpace(pkg[k])
    ensures KeywordTokenAt(c + " " + (kw + " " + pkg), |c| + 1) == Some(pkg)
  {
    var s := c + " " + (kw + " " + pkg);
    assert s == (c + " " + kw) + " " + pkg;
    TokenAfterSpace(c + " " + kw, pkg);
    assert s == (c + " ") + (kw + " " + pkg);
    KeywordMatchesItself(kw, " " + pkg);
    assert kw + " " + pkg == kw + (" " + pkg);
    MatchesInConcat(c + " ", kw + " " + pkg, 0, kw);
    var q := |c| + 1;
    assert MatchesCIAt(s, q, kw);
    assert TokenAfter(s, q + |kw|) == Some(pkg);
    if kw == "install" {
      assert LowerChar(s[q + 0]) != "add"[0];
      assert !MatchesCIAt(s, q, "add");
    }
  }

  /** A command without keywords, then `add` or `install` and a package, names that package. */
  lemma KeywordCommandNamesPackage(c: string, kw: string, pkg: string)
    requires kw == "add" || kw == "install"
    requires c != [] && !IsSpace(c[0]) && HasNoKeyword(c)
    requires pkg != "" && forall k :: 0 <= k < |pkg| ==> !IsSpace(pkg[k])
    ensures ParsePackageName(c + " " + (kw + " " + pkg)) == Some(pkg)
  {
    var s := c + " " + (kw + " " + pkg);
    assert s[0] == c[0] && s[|s| - 1] == pkg[|pkg| - 1];
    TrimOfTrimmed(s);
    KeywordAfterCommand(c, kw, pkg);
    NoKeywordTokenBeforeSpace(c, kw + " " + pkg);
    KeywordTokenFirst(s, |c| + 1);
  }

  lemma ShadcnCommandHasNoKeyword()
    ensures HasNoKeyword(ShadcnCommand)
  {
    var c := ShadcnCommand;
    forall p | 0 <= p < |c| ensures !MatchesCIAt(c, p, "add") && !MatchesCIAt(c, p, "install") {
      assert LowerChar(c[p + 0]) != "install"[0];
      if p == 6 || p == 12 {
        assert LowerChar(c[p + 2]) != "add"[2];
      } else {
        assert LowerChar(c[p + 0]) != "add"[0];
      }
    }
  }

  /** The command quoted beside `parsePackageName`, and the package it installs. */
  const ShadcnCommand := "npx shadcn@latest"
  const AvatarGroupPackage := "@animate-ui/components-animate-avatar-group"

  lemma PrintableIsNotSpace(ch: char)
    requires '!' <= ch <= '~'
    ensures !IsSpace(ch)
  {
  }

  lemma AvatarGroupPackageHasNoSpace()
    ensures forall k :: 0 <= k < |AvatarGroupPackage| ==> !IsSpace(AvatarGroupPackage[k])
  {
    forall k | 0 <= k < |AvatarGroupPackage| ensures !IsSpace(AvatarGroupPackage[k]) {
      PrintableIsNotSpace(AvatarGroupPackage[k]);
    }
  }

  /** `npx shadcn@latest add @animate-ui/components-animate-avatar-group` names the avatar group. */
  lemma ShadcnAddNamesPackage()
    ensures ParsePackageName(ShadcnCommand + " " + ("add" + " " + AvatarGroupPackage)) == Some(AvatarGroupPackage)
  {
    ShadcnCommandHasNoKeyword();
    AvatarGroupPackageHasNoSpace();
    KeywordCommandNamesPackage(ShadcnCommand, "add", AvatarGroupPackage);
  }

  function NpmPageUrl(packageName: string): string {
    "https://www.npmjs.com/package/" + EncodeUriComponent(packageName)
  }

  function RegistryUrl(packageName: string): string {
    "https://registry.npmjs.org/" + EncodeUriComponent(packageName)
  }

  /** `resolveNpmPackage` */
  function ResolveNpmPackage(input: string, net: Network): (r: Resolution)
    ensures ParsePackageName(input).None? ==> r == Failure("Could not parse package name from command", "")
    ensures r.error.None? ==>
      && ParsePackageName(input).Some?
      && net.registry(ProxyUrl(RegistryUrl(ParsePackageName(input).value))).Package?
      && r.embedUrl == "" && r.sourceUrl == NpmPageUrl(ParsePackageName(input).value)
      && Truthy(r.title) && r.description.Str? && r.description.s != ""
    ensures r.error.Some? ==> r.error.value != ""
  {
    match ParsePackageName(input)
    case None => Failure("Could not parse package name from command", "")
    case Some(name) =>
      match net.registry(ProxyUrl(RegistryUrl(name)))
      case Thrown(message) =>
        Failure(if message != "" then message else "Failed to fetch package info", "")
      case NotOk => Failure("Package not found: " + name, "")
      case NotJson => Failure("Could not load package info (proxy or network error)", "")
      case Package(packageTitle, description) => PackageResolution(name, packageTitle, description)
  }

  /** A package the registry describes: its page on npm, its title or else its name, and its trimmed
      description or else the install command. */
  function PackageResolution(name: string, packageTitle: Value, description: Value): (r: Resolution)
    requires name != ""
    ensures r.error.None? && r.embedUrl == "" && r.sourceUrl == NpmPageUrl(name)
    ensures r.title == (if Truthy(packageTitle) then packageTitle else Str(name))
    ensures description.Str? && Trim(description.s) != "" ==> r.description == Str(Trim(description.s))
    ensures !(description.Str? && Trim(description.s) != "") ==>
      r.description == Str("Install: npx shadcn@latest add " + name)
  {
    var trimmed := if description.Str? then Str(Trim(description.s)) else Undef;
    Resolution("", Or(packageTitle, Str(name)), NpmPageUrl(name),
               Or(trimmed, Str("Install: npx shadcn@latest add " + name)), Undef, None)
  }

  // ---------------------------------------------------------------------------------------------
  // Page URLs

  /** A URL without an `http(s)://` scheme is taken to be `https`. */
  function WithScheme(url: string): (r: string)
    ensures HasHttpScheme(r)
    ensures HasHttpScheme(url) ==> r == url
  {
    if HasHttpScheme(url) then url else "https://" + url
  }

  lemma WithSchemeIdempotent(url: string)
    ensures WithScheme(WithScheme(url)) == WithScheme(url)
  {
  }

  /** `host/([^/]+)sep([^/?#]+)` tried at position `p`: the two captured parts. */
  function CaptureAt(s: string, p: nat, host: string, sep: string): (r: Option<(string, string)>)
    ensures r.Some? ==> r.value.0 != "" && r.value.1 != ""
    ensures r.Some? ==> (forall k :: 0 <= k < |r.value.0| ==> r.value.0[k] != '/')
    ensures r.Some? ==> (forall k :: 0 <= k < |r.value.1| ==> NotPathEnd(r.value.1[k]))
  {
    if !OccursAt(s, p, host) then None
    else
      var u := p + |host|;
      var n := Run(s, u, NotSlash);
      if n == 0 || !OccursAt(s, u + n, sep) then None
      else
        var i := u + n + |sep|;
        var m := Run(s, i, NotPathEnd);
        if m == 0 then None else Some((s[u..u + n], s[i..i + m]))
  }

  /** The leftmost match at or after `from`. */
  function Capture(s: string, host: string, sep: string, from: nat): (r: Option<(string, string)>)
    ensures r.Some? ==> r.value.0 != "" && r.value.1 != ""
    decreases |s| - from
  {
    if from > |s| then None
    else match CaptureAt(s, from, host, sep)
      case Some(c) => Some(c)
      case None => Capture(s, host, sep, from + 1)
  }

  /** `/codepen\.io\/([^/]+)\/pen\/([^/?#]+)/` */
  function PenCapture(s: string): Option<(string, string)> { Capture(s, "codepen.io/", "/pen/", 0) }
  /** `/codepen\.io\/([^/]+)\/embed\/([^/?#]+)/` */
  function PenEmbedCapture(s: string): Option<(string, string)> { Capture(s, "codepen.io/", "/embed/", 0) }
  /** `/jsfiddle\.net\/([^/]+)\/([^/?#]+)\/?/` */
  function FiddleCapture(s: string): Option<(string, string)> { Capture(s, "jsfiddle.net/", "/", 0) }

  /** Nothing matches exactly when the pattern matches at no position from `from` on. */
  lemma {:induction false} CaptureNoneIff(s: string, host: string, sep: string, from: nat)
    ensures Capture(s, host, sep, from).None? <==> forall q :: from <= q <= |s| ==> CaptureAt(s, q, host, sep).None?
    decreases |s| - from
  {
    if from <= |s| && CaptureAt(s, from, host, sep).None? {
      CaptureNoneIff(s, host, sep, from + 1);
    }
  }

  /** The leftmost match is the first position where the pattern matches. */
  lemma {:induction false} CaptureIsLeftmost(s: string, host: string, sep: string, from: nat, p: nat)
    requires from <= p <= |s| && CaptureAt(s, p, host, sep).Some?
    requires forall q :: from <= q < p ==> CaptureAt(s, q, host, sep).None?
    ensures Capture(s, host, sep, from) == CaptureAt(s, p, host, sep)
    decreases p - from
  {
    if from < p {
      assert CaptureAt(s, from, host, sep).None?;
      CaptureIsLeftmost(s, host, sep, from + 1, p);
    }
  }

  /** Where the host, a user, the separator and an id follow one another in `s`, the pattern
      matches there with that user and id. */
  lemma CaptureAtParts(s: string, p: nat, host: string, sep: string, user: string, id: string)
    requires OccursAt(s, p, host) && OccursAt(s, p + |host|, user)
    requires OccursAt(s, p + |host| + |user|, sep) && OccursAt(s, p + |host| + |user| + |sep|, id)
    requires sep != "" && sep[0] == '/'
    requires user != "" && forall k :: 0 <= k < |user| ==> NotSlash(user[k])
    requires id != "" && forall k :: 0 <= k < |id| ==> NotPathEnd(id[k])
    requires var e := p + |host| + |user| + |sep| + |id|; e == |s| || !NotPathEnd(s[e])
    ensures CaptureAt(s, p, host, sep) == Some((user, id))
  {
    var u := p + |host|;
    var i := u + |user| + |sep|;
    assert s[u + |user|] == sep[0];
    RunCovers(s, u, user, NotSlash);
    RunCovers(s, i, id, NotPathEnd);
  }

  lemma OccursAtEnd(a: string, b: string)
    ensures OccursAt(a + b, |a|, b)
  {
    assert (a + b)[|a|..] == b;
  }

  lemma OccursAtExtend(x: string, y: string, i: nat, p: string)
    requires OccursAt(x, i, p)
    ensures OccursAt(x + y, i, p)
  {
    assert (x + y)[i..i + |p|] == x[i..i + |p|];
  }

  /** The pattern cannot match before the first occurrence of the host's first character. */
  lemma NoCaptureBefore(s: string, host: string, sep: string, n: nat)
    requires host != "" && n <= |s| && forall k :: 0 <= k < n ==> s[..n][k] != host[0]
    ensures forall q :: 0 <= q < n ==> CaptureAt(s, q, host, sep).None?
  {
    forall q | 0 <= q < n ensures CaptureAt(s, q, host, sep).None? {
      assert s[..n][q] == s[q];
      if q + |host| <= |s| {
        assert s[q..q + |host|][0] == s[q];
      }
    }
  }

  /** A match right after a stretch free of the host's first character is the leftmost one. */
  lemma CaptureAfterPrefix(s: string, host: string, sep: string, n: nat)
    requires host != "" && n <= |s| && forall k :: 0 <= k < n ==> s[..n][k] != host[0]
    requires CaptureAt(s, n, host, sep).Some?
    ensures Capture(s, host, sep, 0) == CaptureAt(s, n, host, sep)
  {
    NoCaptureBefore(s, host, sep, n);
    CaptureIsLeftmost(s, host, sep, 0, n);
  }

  /** A URL made of a prefix, the host, the user, the separator, the id and a tail that starts with
      `/`, `?` or `#` (or is empty) yields that user and id. */
  lemma CaptureOfCanonical(prefix: string, host: string, sep: string, user: string, id: string, rest: string)
    requires host != "" && forall k :: 0 <= k < |prefix| ==> prefix[k] != host[0]
    requires sep != "" && sep[0] == '/'
    requires user != "" && forall k :: 0 <= k < |user| ==> NotSlash(user[k])
    requires id != "" && forall k :: 0 <= k < |id| ==> NotPathEnd(id[k])
    requires rest == "" || !NotPathEnd(rest[0])
    ensures Capture(prefix + host + user + sep + id + rest, host, sep, 0) == Some((user, id))
  {
    var s := prefix + host + user + sep + id + rest;
    CanonicalParts(prefix, host, user, sep, id, rest);
    CaptureOfParts(s, prefix, host, user, sep, id, rest);
    CaptureAfterFreePrefix(s, prefix, host, sep, (user, id));
  }

  /** The same, for a text known only through where its parts occur. */
  lemma CaptureOfParts(s: string, prefix: string, host: string, user: string, sep: string, id: string, rest: string)
    requires host != "" && forall k :: 0 <= k < |prefix| ==> prefix[k] != host[0]
    requires sep != "" && sep[0] == '/'
    requires user != "" && forall k :: 0 <= k < |user| ==> NotSlash(user[k])
    requires id != "" && forall k :: 0 <= k < |id| ==> NotPathEnd(id[k])
    requires rest == "" || !NotPathEnd(rest[0])
    requires |s| == |prefix| + |host| + |user| + |sep| + |id| + |rest|
    requires OccursAt(s, 0, prefix) && OccursAt(s, |prefix|, host) && OccursAt(s, |prefix| + |host|, user)
    requires OccursAt(s, |prefix| + |host| + |user|, sep) && OccursAt(s, |prefix| + |host| + |user| + |sep|, id)
    requires OccursAt(s, |prefix| + |host| + |user| + |sep| + |id|, rest)
    ensures CaptureAt(s, |prefix|, host, sep) == Some((user, id))
  {
    TailStartsPath(s, |prefix| + |host| + |user| + |sep| + |id|, rest);
    CaptureAtParts(s, |prefix|, host, sep, user, id);
  }

  /** A match right after an occurrence of a prefix free of the host's first character is the
      leftmost one. */
  lemma CaptureAfterFreePrefix(s: string, prefix: string, host: string, sep: string, v: (string, string))
    requires host != "" && forall k :: 0 <= k < |prefix| ==> prefix[k] != host[0]
    requires OccursAt(s, 0, prefix) && CaptureAt(s, |prefix|, host, sep) == Some(v)
    ensures Capture(s, host, sep, 0) == Some(v)
  {
    PrefixAvoidsHost(s, prefix, host);
    CaptureAfterPrefix(s, host, sep, |prefix|);
  }

  /** Each part of `a + b + c + d + e + f` occurs where it was put. */
  lemma CanonicalParts(a: string, b: string, c: string, d: string, e: string, f: string)
    ensures var s := a + b + c + d + e + f;
      && |s| == |a| + |b| + |c| + |d| + |e| + |f|
      && OccursAt(s, 0, a) && OccursAt(s, |a|, b) && OccursAt(s, |a| + |b|, c)
      && OccursAt(s, |a| + |b| + |c|, d) && OccursAt(s, |a| + |b| + |c| + |d|, e)
      && OccursAt(s, |a| + |b| + |c| + |d| + |e|, f)
  {
    assert OccursAt(a, 0, a);
    OccursAtExtend5(a, 0, a, b, c, d, e, f);
    OccursAtEnd(a, b);
    OccursAtExtend4(a + b, |a|, b, c, d, e, f);
    OccursAtEnd(a + b, c);
    OccursAtExtend3(a + b + c, |a + b|, c, d, e, f);
    OccursAtEnd(a + b + c, d);
    OccursAtExtend2(a + b + c + d, |a + b + c|, d, e, f);
    OccursAtEnd(a + b + c + d, e);
    OccursAtExtend(a + b + c + d + e, f, |a + b + c + d|, e);
    OccursAtEnd(a + b + c + d + e, f);
  }

  /** A tail that is empty or starts with `/`, `?` or `#` ends the id where it starts. */
  lemma TailStartsPath(s: string, e: nat, rest: string)
    requires OccursAt(s, e, rest) && |s| == e + |rest| && (rest == "" || !NotPathEnd(rest[0]))
    ensures e == |s| || !NotPathEnd(s[e])
  {
    if rest != "" {
      assert s[e] == s[e..e + |rest|][0];
    }
  }

  /** A prefix free of the host's first character keeps it out of the text's first positions. */
  lemma PrefixAvoidsHost(s: string, prefix: string, host: string)
    requires host != "" && OccursAt(s, 0, prefix) && forall k :: 0 <= k < |prefix| ==> prefix[k] != host[0]
    ensures forall k :: 0 <= k < |prefix| ==> s[..|prefix|][k] != host[0]
  {
    assert s[..|prefix|] == s[0..0 + |prefix|];
  }

  lemma OccursAtExtend2(x: string, i: nat, p: string, y1: string, y2: string)
    requires OccursAt(x, i, p)
    ensures OccursAt(x + y1 + y2, i, p)
  {
    OccursAtExtend(x, y1, i, p);
    OccursAtExtend(x + y1, y2, i, p);
  }

  lemma OccursAtExtend3(x: string, i: nat, p: string, y1: string, y2: string, y3: string)
    requires OccursAt(x, i, p)
    ensures OccursAt(x + y1 + y2 + y3, i, p)
  {
    OccursAtExtend(x, y1, i, p);
    OccursAtExtend2(x + y1, i, p, y2, y3);
  }

  lemma OccursAtExtend4(x: string, i: nat, p: string, y1: string, y2: string, y3: string, y4: string)
    requires OccursAt(x, i, p)
    ensures OccursAt(x + y1 + y2 + y3 + y4, i, p)
  {
    OccursAtExtend(x, y1, i, p);
    OccursAtExtend3(x + y1, i, p, y2, y3, y4);
  }

  lemma OccursAtExtend5(x: string, i: nat, p: string, y1: string, y2: string, y3: string, y4: string, y5: string)
    requires OccursAt(x, i, p)
    ensures OccursAt(x + y1 + y2 + y3 + y4 + y5, i, p)
  {
    OccursAtExtend(x, y1, i, p);
    OccursAtExtend4(x + y1, i, p, y2, y3, y4, y5);
  }

  /** Without the host in the URL, nothing matches. */
  lemma NoHostNoCapture(s: string, host: string, sep: string)
    requires !Contains(s, host)
    ensures Capture(s, host, sep, 0).None?
  {
    CaptureNoneIff(s, host, sep, 0);
  }

  function PenEmbedUrl(user: string, id: string): string {
    "https://codepen.io/" + user + "/embed/" + id + "?default-tab=result"
  }

  function PenUrl(user: string, id: string): string {
    "https://codepen.io/" + user + "/pen/" + id
  }

  function FiddleEmbedUrl(user: string, id: string): string {
    "https://jsfiddle.net/" + user + "/" + id + "/embedded/result/"
  }

  function OEmbedUrl(penUrl: string): string {
    "https://codepen.io/api/oembed?format=json&url=" + EncodeUriComponent(penUrl)
  }

  /** `fetchCodePenTitle`: the trimmed title of the oEmbed answer when it is a non-empty string. */
  function CodePenTitle(response: OEmbedResponse): (r: Option<string>)
    ensures r.Some? ==> r.value != "" && Trim(r.value) == r.value
  {
    if response.OEmbed? && response.title.Str? && Trim(response.title.s) != "" then
      TrimOfTrimmed(Trim(response.title.s));
      Some(Trim(response.title.s))
    else None
  }

  /** The tile title for a CodePen: the oEmbed title, else `CodePen - user/id`. */
  function PenTitle(response: OEmbedResponse, user: string, id: string): string {
    match CodePenTitle(response)
    case Some(t) => t
    case None => "CodePen - " + user + "/" + id
  }

  /** `pathname.split('/').filter(Boolean).pop()`: the last non-empty segment, or "" when none. */
  function LastSegment(path: string): (r: string)
    ensures forall k :: 0 <= k < |r| ==> r[k] != '/'
    ensures r == "" <==> forall k :: 0 <= k < |path| ==> path[k] == '/'
    decreases |path|
  {
    if path == [] then []
    else if path[|path| - 1] == '/' then LastSegment(path[..|path| - 1])
    else TrailingSegment(path)
  }

  /** The trailing run of characters other than `/`. */
  function TrailingSegment(s: string): (r: string)
    ensures |r| <= |s| && r == s[|s| - |r|..]
    ensures forall k :: 0 <= k < |r| ==> r[k] != '/'
    ensures s != [] && s[|s| - 1] != '/' ==> r != ""
    decreases |s|
  {
    if s == [] || s[|s| - 1] == '/' then [] else TrailingSegment(s[..|s| - 1]) + [s[|s| - 1]]
  }

  /** `titleFromUrl`: host without a leading `www.`, then the path unless it is `/`, cut to 60
      characters with `...` in place of the tail. */
  function TitleFromUrl(parts: Option<UrlParts>): (r: string)
    ensures |r| <= 60
  {
    match parts
    case None => "Animation"
    case Some(UrlParts(hostname, pathname)) =>
      var host := if StartsWith(hostname, "www.") then hostname[4..] else hostname;
      var path := if pathname == "/" then "" else pathname;
      var combined := if path != "" then host + path else host;
      if |combined| > 60 then combined[..57] + "..." else combined
  }

  /** The title is the host and path when they fit, and their first 57 characters followed by `...`
      when they do not. */
  lemma TitleFromUrlShape(hostname: string, pathname: string)
    ensures var host := if StartsWith(hostname, "www.") then hostname[4..] else hostname;
      var combined := host + (if pathname == "/" then "" else pathname);
      var r := TitleFromUrl(Some(UrlParts(hostname, pathname)));
      && (|combined| <= 60 ==> r == combined)
      && (|combined| > 60 ==> |r| == 60 && r[..57] == combined[..57] && r[57..] == "...")
  {
  }

  // ---------------------------------------------------------------------------------------------
  // Page metadata

  /** `/<title[^>]*>([\s\S]*?)<\/title>/i` tried at position `p`: the text up to the first closing
      tag after the opening one. */
  function TitleContentAt(html: string, p: nat): Option<string> {
    if !MatchesCIAt(html, p, "<title") then None
    else
      var q := IndexOfOrEnd(html, '>', p + 6);
      if q == |html| then None
      else match IndexOfCI(html, "</title>", q + 1)
        case None => None
        case Some(c) => Some(html[q + 1..c])
  }

  function TitleContent(html: string, from: nat): Option<string>
    decreases |html| - from
  {
    if from > |html| then None
    else match TitleContentAt(html, from)
      case Some(t) => Some(t)
      case None => TitleContent(html, from + 1)
  }

  /** At `i`: `<`, at least one character other than `>`, then `>`; the end of that tag. */
  function TagEnd(s: string, i: nat): (r: Option<nat>)
    requires i <= |s|
    ensures r.Some? ==> i + 2 <= r.value < |s| && s[r.value] == '>'
  {
    if i < |s| && s[i] == '<' then
      var e := IndexOfOrEnd(s, '>', i + 1);
      if e < |s| && e >= i + 2 then Some(e) else None
    else None
  }

  /** `.replace(/<[^>]+>/g, '')` */
  function StripTags(s: string): (r: string)
    decreases |s|
  {
    if s == [] then []
    else match TagEnd(s, 0)
      case Some(e) => StripTags(s[e + 1..])
      case None => [s[0]] + StripTags(s[1..])
  }

  /** No `<` starts a tag: each is followed directly by `>`, or by no `>` at all. */
  predicate NoTags(s: string) {
    forall i :: 0 <= i < |s| && s[i] == '<' ==> TagEnd(s, i).None?
  }

  lemma TagEndInTail(c: char, s: string, i: nat)
    requires i <= |s|
    ensures TagEnd([c] + s, i + 1) == match TagEnd(s, i) case None => None case Some(e) => Some(e + 1)
  {
    var t := [c] + s;
    if i < |s| && s[i] == '<' {
      assert t[i + 1] == '<';
      IndexOfOrEndInTail(c, s, i + 1);
    }
  }

  lemma IndexOfOrEndInTail(c: char, s: string, from: nat)
    requires from <= |s|
    ensures IndexOfOrEnd([c] + s, '>', from + 1) == IndexOfOrEnd(s, '>', from) + 1
    decreases |s| - from
  {
    if from < |s| && s[from] != '>' {
      IndexOfOrEndInTail(c, s, from + 1);
    }
  }

  /** When no `>` follows a `<`, nothing after it does. */
  lemma NoCloseAfter(s: string, from: nat)
    requires from <= |s| && IndexOfOrEnd(s, '>', from) == |s|
    ensures forall j :: from <= j < |s| ==> s[j] != '>'
  {
  }

  /** Text without a `>` holds no tag and is left as it is. */
  lemma {:induction false} StripTagsWithoutClose(s: string)
    requires forall k :: 0 <= k < |s| ==> s[k] != '>'
    ensures StripTags(s) == s
    decreases |s|
  {
    if s != [] {
      if s[0] == '<' {
        IndexAbsent(s, 1);
      }
      StripTagsWithoutClose(s[1..]);
      assert s == [s[0]] + s[1..];
    }
  }

  /** Stripping leaves no tag behind. */
  lemma {:induction false} StripTagsLeavesNoTags(s: string)
    ensures NoTags(StripTags(s))
    decreases |s|
  {
    if s != [] {
      match TagEnd(s, 0)
      case Some(e) =>
        StripTagsLeavesNoTags(s[e + 1..]);
      case None =>
        var rest := StripTags(s[1..]);
        StripTagsLeavesNoTags(s[1..]);
        var r := [s[0]] + rest;
        forall i | 0 <= i < |r| && r[i] == '<' ensures TagEnd(r, i).None? {
          if i == 0 {
            FirstOpenOfStripped(s, rest);
          } else {
            assert r[i] == rest[i - 1];
            TagEndInTail(s[0], rest, i - 1);
          }
        }
    }
  }

  /** A kept leading `<` is not followed by a tag's `>` in the stripped text either. */
  lemma FirstOpenOfStripped(s: string, rest: string)
    requires s != [] && s[0] == '<' && TagEnd(s, 0).None? && rest == StripTags(s[1..])
    ensures TagEnd([s[0]] + rest, 0).None?
  {
    var r := [s[0]] + rest;
    var e := IndexOfOrEnd(s, '>', 1);
    if e == |s| {
      assert forall k :: 0 <= k < |s[1..]| ==> s[1..][k] == s[k + 1];
      StripTagsWithoutClose(s[1..]);
      assert r == s;
    } else {
      assert s[1] == '>';
      StripTagsKeepsLeadingClose(s[1..]);
      assert r[1] == '>';
    }
  }

  lemma IndexAbsent(s: string, from: nat)
    requires from <= |s| && forall j :: from <= j < |s| ==> s[j] != '>'
    ensures IndexOfOrEnd(s, '>', from) == |s|
    decreases |s| - from
  {
    if from < |s| {
      IndexAbsent(s, from + 1);
    }
  }

  lemma StripTagsKeepsLeadingClose(s: string)
    requires s != [] && s[0] == '>'
    ensures StripTags(s) != [] && StripTags(s)[0] == '>'
  {
  }

  /** `parseTitle`: the title element's text without tags, trimmed; nothing when that is empty. */
  function ParseTitle(html: string): (r: Option<string>)
    ensures r.Some? ==> r.value != "" && Trim(r.value) == r.value
  {
    match TitleContent(html, 0)
    case None => None
    case Some(content) =>
      var t := Trim(StripTags(content));
      if t == "" then None else TrimOfTrimmed(t); Some(t)
  }

  /** A plain title element gives its trimmed text, or nothing when that is blank. */
  lemma TitleOfPlainElement(t: string)
    requires forall k :: 0 <= k < |t| ==> t[k] != '<' && t[k] != '>'
    ensures ParseTitle("<title>" + t + "</title>") == if Trim(t) == "" then None else Some(Trim(t))
  {
    var html := "<title>" + t + "</title>";
    PartsOfThree("<title>", t, "</title>");
    TitleOpensAtStart(html);
    TitleClosesAfter(html, t);
    assert TitleContentAt(html, 0) == Some(t);
    StripTagsWithoutClose(t);
  }

  /** The pieces of `a + b + c` are where they were put. */
  lemma PartsOfThree<T>(a: seq<T>, b: seq<T>, c: seq<T>)
    ensures (a + b + c)[..|a|] == a && (a + b + c)[|a|..|a| + |b|] == b
    ensures (a + b + c)[|a| + |b|..] == c
  {
  }

  /** Text that starts with `<title>` opens the title there, and its tag ends at position 6. */
  lemma TitleOpensAtStart(html: string)
    requires |html| >= 7 && html[..7] == "<title>"
    ensures MatchesCIAt(html, 0, "<title") && IndexOfOrEnd(html, '>', 6) == 6
  {
    forall k | 0 <= k < 6 ensures LowerChar(html[k]) == "<title"[k] {
      assert html[k] == html[..7][k];
    }
    assert html[6] == html[..7][6];
  }

  /** After the opening tag, text without `<` followed by `</title>` closes at the end of that text. */
  lemma TitleClosesAfter(html: string, t: string)
    requires |html| == 7 + |t| + 8 && html[7..7 + |t|] == t && html[7 + |t|..] == "</title>"
    requires forall k :: 0 <= k < |t| ==> t[k] != '<'
    ensures IndexOfCI(html, "</title>", 7) == Some(7 + |t|)
  {
    forall j | 7 <= j < 7 + |t| ensures !MatchesCIAt(html, j, "</title>") {
      assert html[j] == t[j - 7];
      assert LowerChar(html[j + 0]) != "</title>"[0];
    }
    forall k | 0 <= k < 8 ensures LowerChar(html[7 + |t| + k]) == "</title>"[k] {
      assert html[7 + |t| + k] == html[7 + |t|..][k];
    }
    assert MatchesCIAt(html, 7 + |t|, "</title>");
  }

  /** `property=["']og:image["']` at `q` (19 characters). */
  predicate PropertyAt(s: string, q: nat) {
    && MatchesCIAt(s, q, "property=") && q + 19 <= |s| && IsQuote(s[q + 9])
    && MatchesCIAt(s, q + 10, "og:image") && IsQuote(s[q + 18])
  }

  /** `content=["']` at `r` (9 characters). */
  predicate ContentAt(s: string, r: nat) {
    MatchesCIAt(s, r, "content=") && r + 9 <= |s| && IsQuote(s[r + 8])
  }

  /** `([^"']+)["']` at `v`: the quoted value. */
  function ValueAt(s: string, v: nat): (r: Option<string>)
    requires v <= |s|
    ensures r.Some? ==> r.value != "" && forall k :: 0 <= k < |r.value| ==> NotQuote(r.value[k])
  {
    var m := Run(s, v, NotQuote);
    if m > 0 && v + m < |s| then Some(s[v..v + m]) else None
  }

  /** The `content` value of the first pattern, trying the `content=` position `r` from the last one
      allowed (`hi`) down to `lo`: the greedy `[^>]+` before it gives back one character at a time. */
  function PropertyFirstContent(s: string, lo: nat, hi: nat): (v: Option<string>)
    requires hi <= |s|
    ensures v.Some? ==> v.value != "" && forall k :: 0 <= k < |v.value| ==> NotQuote(v.value[k])
    decreases hi
  {
    if hi < lo then None
    else if ContentAt(s, hi) && ValueAt(s, hi + 9).Some? then ValueAt(s, hi + 9)
    else if hi == 0 then None
    else PropertyFirstContent(s, lo, hi - 1)
  }

  /** The first pattern at `<meta` position `p`, trying the `property=` position `q` from the last
      one allowed down to the first. */
  function PropertyFirstFrom(s: string, p: nat, e: nat, q: nat): (v: Option<string>)
    requires e <= |s|
    ensures v.Some? ==> v.value != "" && forall k :: 0 <= k < |v.value| ==> NotQuote(v.value[k])
    decreases q
  {
    if q < p + 6 then None
    else
      var found := if PropertyAt(s, q) then PropertyFirstContent(s, q + 20, e) else None;
      if found.Some? then found else PropertyFirstFrom(s, p, e, q - 1)
  }

  /** `/<meta[^>]+property=["']og:image["'][^>]+content=["']([^"']+)["']/i` at `p`. */
  function PropertyFirstAt(s: string, p: nat): (v: Option<string>)
    ensures v.Some? ==> v.value != "" && forall k :: 0 <= k < |v.value| ==> NotQuote(v.value[k])
  {
    if !MatchesCIAt(s, p, "<meta") then None
    else
      var e := IndexOfOrEnd(s, '>', p + 5);
      PropertyFirstFrom(s, p, e, e)
  }

  /** The second pattern once its value is known to end at `w - 1`: a `property=` position between
      `w + 1` and the first `>` after `w`, tried from the last. */
  function ContentFirstProperty(s: string, lo: nat, q: nat): bool
    decreases q
  {
    if q < lo then false
    else if PropertyAt(s, q) then true
    else if q == 0 then false
    else ContentFirstProperty(s, lo, q - 1)
  }

  /** The second pattern at `<meta` position `p`, trying the `content=` position `r` from the last one
      allowed down to the first. */
  function ContentFirstFrom(s: string, p: nat, r: nat): (v: Option<string>)
    ensures v.Some? ==> v.value != "" && forall k :: 0 <= k < |v.value| ==> NotQuote(v.value[k])
    decreases r
  {
    if r < p + 6 then None
    else
      var found :=
        if ContentAt(s, r) && ValueAt(s, r + 9).Some? then
          var w := r + 9 + |ValueAt(s, r + 9).value| + 1;
          if w <= |s| && ContentFirstProperty(s, w + 1, IndexOfOrEnd(s, '>', w)) then ValueAt(s, r + 9) else None
        else None;
      if found.Some? then found else ContentFirstFrom(s, p, r - 1)
  }

  /** `/<meta[^>]+content=["']([^"']+)["'][^>]+property=["']og:image["']/i` at `p`. */
  function ContentFirstAt(s: string, p: nat): (v: Option<string>)
    ensures v.Some? ==> v.value != "" && forall k :: 0 <= k < |v.value| ==> NotQuote(v.value[k])
  {
    if !MatchesCIAt(s, p, "<meta") then None
    else ContentFirstFrom(s, p, IndexOfOrEnd(s, '>', p + 5))
  }

  /** The leftmost match of a pattern, `patternTwo` choosing the second. */
  function OgMatch(s: string, patternTwo: bool, from: nat): (v: Option<string>)
    ensures v.Some? ==> v.value != "" && forall k :: 0 <= k < |v.value| ==> NotQuote(v.value[k])
    decreases |s| - from
  {
    if from > |s| then None
    else
      var here := if patternTwo then ContentFirstAt(s, from) else PropertyFirstAt(s, from);
      if here.Some? then here else OgMatch(s, patternTwo, from + 1)
  }

  /** `parseOgImage`: the `og:image` value of either attribute order, trimmed, when it starts with
      `http`. */
  function ParseOgImage(html: string): (r: Option<string>)
  {
    var found := if OgMatch(html, false, 0).Some? then OgMatch(html, false, 0) else OgMatch(html, true, 0);
    if found.None? then None
    else
      var url := Trim(found.value);
      if StartsWith(url, "http") then Some(url) else None
  }

  /** The image URL starts with `http`, holds no quote and no surrounding whitespace. */
  lemma OgImageIsHttpUrl(html: string)
    requires ParseOgImage(html).Some?
    ensures var url := ParseOgImage(html).value;
      && StartsWith(url, "http") && Trim(url) == url
      && forall k :: 0 <= k < |url| ==> NotQuote(url[k])
  {
    var url := ParseOgImage(html).value;
    assert Trim(url) == url by {
      TrimOfTrimmed(url);
    }
    var found := if OgMatch(html, false, 0).Some? then OgMatch(html, false, 0) else OgMatch(html, true, 0);
    var f := found.value;
    assert url == Trim(f);
    forall k | 0 <= k < |url| ensures NotQuote(url[k]) {
      TrimIsSlice(f);
      assert url[k] == f[LeadingSpaces(f) + k];
    }
  }

  /** `fetchPageMetadata`, split into its two fields: the page title and the thumbnail, each
      `undefined` when the page could not be fetched and `null` when it has none. */
  function PageTitle(response: PageResponse): Option<string> {
    if response.Page? then ParseTitle(response.html) else None
  }

  function Thumbnail(response: PageResponse): Value {
    match response
    case Unavailable => Undef
    case Page(html) => if ParseOgImage(html).Some? then Str(ParseOgImage(html).value) else Null
  }

  // ---------------------------------------------------------------------------------------------
  // Resolving

  /** The generic embed test: `/embed`, `/embedded/` or a trailing `/embed` in the URL. */
  predicate LooksEmbedded(s: string) {
    Contains(s, "/embed") || Contains(s, "/embedded/") || EndsWith(s, "/embed")
  }

  /** The last two tests add nothing to the first. */
  lemma LooksEmbeddedIff(s: string)
    ensures LooksEmbedded(s) <==> Contains(s, "/embed")
  {
    if Contains(s, "/embedded/") {
      var i :| 0 <= i <= |s| - |"/embedded/"| && OccursAt(s, i, "/embedded/");
      assert s[i..i + 6] == s[i..i + 10][..6];
      assert OccursAt(s, i, "/embed");
    }
    if EndsWith(s, "/embed") {
      assert OccursAt(s, |s| - 6, "/embed");
    }
  }

  /** The CodePen, JSFiddle and embed tests, in that order, for a URL the parser accepts. */
  function ResolveEmbed(sourceUrl: string, net: Network): (r: Option<Resolution>)
    ensures r.Some? ==> r.value.error.None? && r.value.sourceUrl == sourceUrl
    ensures r.Some? ==> r.value.title.Str? && r.value.title.s != "" && r.value.description == Undef
    ensures r.None? <==>
      PenCapture(sourceUrl).None? && PenEmbedCapture(sourceUrl).None? && FiddleCapture(sourceUrl).None?
      && !LooksEmbedded(sourceUrl)
  {
    match PenCapture(sourceUrl)
    case Some((user, id)) =>
      Some(Resolution(PenEmbedUrl(user, id), Str(PenTitle(net.oembed(OEmbedUrl(sourceUrl)), user, id)),
                      sourceUrl, Undef, Undef, None))
    case None => match PenEmbedCapture(sourceUrl)
      case Some((user, id)) =>
        Some(Resolution(sourceUrl, Str(PenTitle(net.oembed(OEmbedUrl(PenUrl(user, id))), user, id)),
                        sourceUrl, Undef, Undef, None))
      case None => match FiddleCapture(sourceUrl)
        case Some((user, id)) =>
          Some(Resolution(FiddleEmbedUrl(user, id), Str("JSFiddle - " + user + "/" + id), sourceUrl, Undef, Undef, None))
        case None =>
          if LooksEmbedded(sourceUrl) then
            var segment := if net.parseUrl(sourceUrl).Some? then LastSegment(net.parseUrl(sourceUrl).value.pathname) else "";
            Some(Resolution(sourceUrl, Str(if segment != "" then segment else "Animation"), sourceUrl, Undef, Undef, None))
          else None
  }

  /** Any other page: its title, else one made from the URL, and its `og:image`; no embed. */
  function ResolvePage(sourceUrl: string, net: Network): (r: Resolution)
    ensures r.error.None? && r.sourceUrl == sourceUrl && r.embedUrl == ""
    ensures r.title.Str? && r.description == Undef
  {
    var response := net.page(ProxyUrl(sourceUrl));
    var title := match PageTitle(response) case Some(t) => t case None => TitleFromUrl(net.parseUrl(sourceUrl));
    Resolution("", Str(title), sourceUrl, Undef, Thumbnail(response), None)
  }

  /** `resolveAnimationUrl` */
  function ResolveAnimationUrl(inputUrl: string, net: Network): (r: Resolution)
    ensures Trim(inputUrl) == "" ==> r == Failure("Enter a URL", "")
    ensures Trim(inputUrl) != "" ==> r.sourceUrl == WithScheme(Trim(inputUrl))
    ensures r.error.None? <==> Trim(inputUrl) != "" && net.parseUrl(WithScheme(Trim(inputUrl))).Some?
    ensures r.error.None? ==> r.title.Str? && r.description == Undef
    ensures r.error.Some? ==> r.error.value != ""
  {
    var url := Trim(inputUrl);
    if url == "" then Failure("Enter a URL", "")
    else
      var sourceUrl := WithScheme(url);
      if net.parseUrl(sourceUrl).None? then Failure("Invalid URL", sourceUrl)
      else match ResolveEmbed(sourceUrl, net)
        case Some(r) => r
        case None => ResolvePage(sourceUrl, net)
  }

  /** A URL already carrying `https://` and no surrounding whitespace is its own source URL. */
  lemma HttpsUrlIsKept(url: string)
    requires OccursAt(url, 0, "https://") && !IsSpace(url[|url| - 1])
    ensures Trim(url) == url && WithScheme(url) == url
  {
    TrimOfTrimmed(url);
    assert url[..8] == "https://";
    forall k | 0 <= k < 8 ensures LowerChar(url[k]) == "https://"[k] {
      assert url[k] == "https://"[k];
    }
  }

  /** A URL with a scheme, no surrounding whitespace and a recognised embed resolves to that embed. */
  lemma ResolvesViaEmbed(url: string, net: Network)
    requires Trim(url) == url && HasHttpScheme(url) && net.parseUrl(url).Some?
    requires ResolveEmbed(url, net).Some?
    ensures ResolveAnimationUrl(url, net) == ResolveEmbed(url, net).value
  {
    assert url != "" by {
      assert |url| >= 7;
    }
    assert WithScheme(url) == url;
  }

  /** A URL made of a host written with `https://`, a user, a separator, an id and a tail, and not
      ending in whitespace, is kept as it is and carries a scheme. */
  lemma HttpsUrlOfParts(host: string, user: string, sep: string, id: string, rest: string)
    requires OccursAt(host, 0, "https://")
    requires var url := host + user + sep + id + rest; !IsSpace(url[|url| - 1])
    ensures var url := host + user + sep + id + rest; Trim(url) == url && HasHttpScheme(url)
  {
    OccursAtExtend(host, user, 0, "https://");
    OccursAtExtend(host + user, sep, 0, "https://");
    OccursAtExtend(host + user + sep, id, 0, "https://");
    OccursAtExtend(host + user + sep + id, rest, 0, "https://");
    HttpsUrlIsKept(host + user + sep + id + rest);
  }

  lemma PenCaptureOfCanonical(user: string, id: string, rest: string)
    requires user != "" && forall k :: 0 <= k < |user| ==> NotSlash(user[k])
    requires id != "" && forall k :: 0 <= k < |id| ==> NotPathEnd(id[k])
    requires rest == "" || !NotPathEnd(rest[0])
    ensures PenCapture("https://codepen.io/" + user + "/pen/" + id + rest) == Some((user, id))
  {
    assert "https://codepen.io/" + user + "/pen/" + id + rest
        == "https://" + "codepen.io/" + user + "/pen/" + id + rest;
    CaptureOfCanonical("https://", "codepen.io/", "/pen/", user, id, rest);
  }

  lemma FiddleCaptureOfCanonical(user: string, id: string, rest: string)
    requires user != "" && forall k :: 0 <= k < |user| ==> NotSlash(user[k])
    requires id != "" && forall k :: 0 <= k < |id| ==> NotPathEnd(id[k])
    requires rest == "" || !NotPathEnd(rest[0])
    ensures FiddleCapture("https://jsfiddle.net/" + user + "/" + id + rest) == Some((user, id))
  {
    assert "https://jsfiddle.net/" + user + "/" + id + rest
        == "https://" + "jsfiddle.net/" + user + "/" + id + rest;
    CaptureOfCanonical("https://", "jsfiddle.net/", "/", user, id, rest);
  }

  /** A CodePen pen URL gets the pen's result embed, and its title from oEmbed or else from the user
      and the pen id. */
  lemma PenUrlResolves(user: string, id: string, rest: string, net: Network)
    requires user != "" && forall k :: 0 <= k < |user| ==> NotSlash(user[k])
    requires id != "" && forall k :: 0 <= k < |id| ==> NotPathEnd(id[k])
    requires rest == "" || !NotPathEnd(rest[0])
    requires var url := "https://codepen.io/" + user + "/pen/" + id + rest;
      !IsSpace(url[|url| - 1]) && net.parseUrl(url).Some?
    ensures var url := "https://codepen.io/" + user + "/pen/" + id + rest;
      var r := ResolveAnimationUrl(url, net);
      && r.error.None? && r.sourceUrl == url && r.embedUrl == PenEmbedUrl(user, id)
      && r.title == Str(PenTitle(net.oembed(OEmbedUrl(url)), user, id))
  {
    var url := "https://codepen.io/" + user + "/pen/" + id + rest;
    assert PenCapture(url) == Some((user, id)) by {
      PenCaptureOfCanonical(user, id, rest);
    }
    assert Trim(url) == url && HasHttpScheme(url) by {
      assert OccursAt("https://codepen.io/", 0, "https://");
      HttpsUrlOfParts("https://codepen.io/", user, "/pen/", id, rest);
    }
    PenResolution(url, user, id, net);
  }

  /** A CodePen match decides the embed and the title. */
  lemma PenResolution(url: string, user: string, id: string, net: Network)
    requires Trim(url) == url && HasHttpScheme(url) && net.parseUrl(url).Some?
    requires PenCapture(url) == Some((user, id))
    ensures var r := ResolveAnimationUrl(url, net);
      && r.error.None? && r.sourceUrl == url && r.embedUrl == PenEmbedUrl(user, id)
      && r.title == Str(PenTitle(net.oembed(OEmbedUrl(url)), user, id))
  {
    ResolvesViaEmbed(url, net);
  }

  /** A JSFiddle URL that mentions no `codepen.io/` gets the fiddle's result embed and the title
      `JSFiddle - user/id`. */
  lemma FiddleUrlResolves(user: string, id: string, rest: string, net: Network)
    requires user != "" && forall k :: 0 <= k < |user| ==> NotSlash(user[k])
    requires id != "" && forall k :: 0 <= k < |id| ==> NotPathEnd(id[k])
    requires rest == "" || !NotPathEnd(rest[0])
    requires var url := "https://jsfiddle.net/" + user + "/" + id + rest;
      !IsSpace(url[|url| - 1]) && net.parseUrl(url).Some? && !Contains(url, "codepen.io/")
    ensures var url := "https://jsfiddle.net/" + user + "/" + id + rest;
      var r := ResolveAnimationUrl(url, net);
      && r.error.None? && r.sourceUrl == url && r.embedUrl == FiddleEmbedUrl(user, id)
      && r.title == Str("JSFiddle - " + user + "/" + id)
  {
    var url := "https://jsfiddle.net/" + user + "/" + id + rest;
    assert FiddleCapture(url) == Some((user, id)) by {
      FiddleCaptureOfCanonical(user, id, rest);
    }
    assert PenCapture(url).None? && PenEmbedCapture(url).None? by {
      NoHostNoCapture(url, "codepen.io/", "/pen/");
      NoHostNoCapture(url, "codepen.io/", "/embed/");
    }
    assert Trim(url) == url && HasHttpScheme(url) by {
      assert OccursAt("https://jsfiddle.net/", 0, "https://");
      HttpsUrlOfParts("https://jsfiddle.net/", user, "/", id, rest);
    }
    FiddleResolution(url, user, id, net);
  }

  /** With no CodePen match, a JSFiddle match decides the embed and the title. */
  lemma FiddleResolution(url: string, user: string, id: string, net: Network)
    requires Trim(url) == url && HasHttpScheme(url) && net.parseUrl(url).Some?
    requires PenCapture(url).None? && PenEmbedCapture(url).None? && FiddleCapture(url) == Some((user, id))
    ensures var r := ResolveAnimationUrl(url, net);
      && r.error.None? && r.sourceUrl == url && r.embedUrl == FiddleEmbedUrl(user, id)
      && r.title == Str("JSFiddle - " + user + "/" + id)
  {
    ResolvesViaEmbed(url, net);
  }

  /** `resolveInput`: blank input is refused, package input goes to the registry, the rest is a URL. */
  function ResolveInput(input: string, net: Network): (r: Resolution)
    ensures Trim(input) == "" ==> r == Failure("Enter a URL or package command", "")
    ensures Trim(input) != "" && IsNpmPackageInput(Trim(input)) ==> r == ResolveNpmPackage(Trim(input), net)
    ensures Trim(input) != "" && !IsNpmPackageInput(Trim(input)) ==> r == ResolveAnimationUrl(Trim(input), net)
    ensures r.error.Some? ==> r.error.value != ""
  {
    var trimmed := Trim(input);
    if trimmed == "" then Failure("Enter a URL or package command", "")
    else if IsNpmPackageInput(trimmed) then ResolveNpmPackage(trimmed, net)
    else
      var r := ResolveAnimationUrl(trimmed, net);
      r
  }
}
