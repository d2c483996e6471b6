/** The live preview of an example (src/components/LivePreview.jsx): the sandbox document built for
    pasted code, the play/pause controller injected into it, and the choice of what to render. */
module LivePreview {
  import opened JsValues
  import opened Strings

  // ---------------------------------------------------------------------------------------------
  // Escaping closing tags inside the user's CSS and JS

  const StyleClose := "</style>"
  const ScriptClose := "</script>"

  /** A lower-case closing tag `</name>` whose only `<` is its first character. */
  predicate IsCloseTag(close: string) {
    && |close| >= 3 && close[0] == '<' && close[1] == '/'
    && (forall k :: 1 <= k < |close| ==> close[k] != '<')
    && (forall k :: 0 <= k < |close| ==> LowerChar(close[k]) == close[k])
  }

  lemma StyleAndScriptCloseAreCloseTags()
    ensures IsCloseTag(StyleClose) && IsCloseTag(ScriptClose)
  {
  }

  /** The replacement text `<\/name>`. */
  function Escaped(close: string): (r: string)
    requires IsCloseTag(close)
    ensures |r| == |close| + 1 && r[0] == '<' && r[1] == '\\'
    ensures forall k :: 1 <= k < |r| ==> r[k] != '<'
  {
    "<\\" + close[1..]
  }

  /** No ASCII-case-insensitive occurrence of `close` anywhere in `t`. */
  predicate NoCloseTag(t: string, close: string) {
    forall i :: 0 <= i < |t| ==> !MatchesCIAt(t, i, close)
  }

  /** `s.replace(/<\/name>/gi, '<\\/name>')`: every occurrence of the closing tag, in any ASCII case,
      scanned from the left without overlap, is replaced by the lower-case escaped form. */
  function EscapeCloseTags(s: string, close: string): (r: string)
    requires IsCloseTag(close)
    ensures |r| >= |s|
    ensures r == "" <==> s == ""
    decreases |s|
  {
    if s == [] then []
    else if MatchesCIAt(s, 0, close) then Escaped(close) + EscapeCloseTags(s[|close|..], close)
    else [s[0]] + EscapeCloseTags(s[1..], close)
  }

  /** Up to its first `<`, the escaped text is the input text. */
  lemma {:induction false} EscapePrefix(t: string, close: string, m: nat)
    requires IsCloseTag(close)
    ensures var e := EscapeCloseTags(t, close);
      m <= |e| && (forall k :: 0 <= k < m ==> e[k] != '<') ==> m <= |t| && e[..m] == t[..m]
    decreases |t|
  {
    var e := EscapeCloseTags(t, close);
    if t == [] || m == 0 {
    } else if !MatchesCIAt(t, 0, close) {
      var e' := EscapeCloseTags(t[1..], close);
      assert e == [t[0]] + e';
      EscapePrefix(t[1..], close, m - 1);
      if m <= |e| && (forall k :: 0 <= k < m ==> e[k] != '<') {
        forall k | 0 <= k < m - 1 ensures e'[k] != '<' {
          assert e'[k] == e[k + 1];
        }
        assert e[..m] == [t[0]] + e'[..m - 1];
      }
    } else {
      assert e[0] == '<';
    }
  }

  /** When the first character is kept as it is, a closing tag at the start of the output was
      already one at the start of the input. */
  lemma KeptHeadStartsNoNewTag(s: string, close: string)
    requires IsCloseTag(close) && s != []
    ensures MatchesCIAt([s[0]] + EscapeCloseTags(s[1..], close), 0, close) ==> MatchesCIAt(s, 0, close)
  {
    var e := EscapeCloseTags(s[1..], close);
    var r := [s[0]] + e;
    var n := |close|;
    if MatchesCIAt(r, 0, close) {
      forall k | 0 <= k < n - 1 ensures e[k] != '<' {
        assert LowerChar(r[k + 1]) == close[k + 1];
      }
      EscapePrefix(s[1..], close, n - 1);
      forall k | 0 <= k < n ensures LowerChar(s[k]) == close[k] {
        if k > 0 {
          assert s[k] == s[1..][..n - 1][k - 1] == e[..n - 1][k - 1] == r[k];
        }
      }
    }
  }

  /** After escaping, no closing tag survives in any case. */
  lemma {:induction false} EscapeRemovesCloseTags(s: string, close: string)
    requires IsCloseTag(close)
    ensures NoCloseTag(EscapeCloseTags(s, close), close)
    decreases |s|
  {
    var r := EscapeCloseTags(s, close);
    var n := |close|;
    if s == [] {
    } else if MatchesCIAt(s, 0, close) {
      var head := Escaped(close);
      var e := EscapeCloseTags(s[n..], close);
      EscapeRemovesCloseTags(s[n..], close);
      assert r == head + e;
      forall i | 0 <= i < |r| ensures !MatchesCIAt(r, i, close) {
        if i >= |head| {
          MatchesInConcat(head, e, i - |head|, close);
        } else if i == 0 {
          assert LowerChar(r[1]) != close[1];
        } else {
          assert LowerChar(r[i]) != close[0];
        }
      }
    } else {
      var e := EscapeCloseTags(s[1..], close);
      EscapeRemovesCloseTags(s[1..], close);
      assert r == [s[0]] + e;
      forall i | 0 <= i < |r| ensures !MatchesCIAt(r, i, close) {
        if i >= 1 {
          MatchesInConcat([s[0]], e, i - 1, close);
        } else {
          KeptHeadStartsNoNewTag(s, close);
        }
      }
    }
  }

  /** Escaping lengthens the text exactly when it holds a closing tag. */
  lemma {:induction false} EscapeLengthens(s: string, close: string)
    requires IsCloseTag(close)
    ensures NoCloseTag(s, close) ==> EscapeCloseTags(s, close) == s
    ensures !NoCloseTag(s, close) ==> |EscapeCloseTags(s, close)| > |s|
    decreases |s|
  {
    if s == [] {
    } else if !MatchesCIAt(s, 0, close) {
      EscapeLengthens(s[1..], close);
      forall i | 0 <= i < |s[1..]| ensures MatchesCIAt(s[1..], i, close) <==> MatchesCIAt(s, i + 1, close) {
        MatchesInSuffix(s, 1, i, close);
      }
      if !NoCloseTag(s, close) {
        var i :| 0 <= i < |s| && MatchesCIAt(s, i, close);
        assert MatchesCIAt(s[1..], i - 1, close);
      }
    }
  }

  /** Escaping leaves text without closing tags unchanged and changes every other text. */
  lemma EscapeIsIdentityIffClean(s: string, close: string)
    requires IsCloseTag(close)
    ensures EscapeCloseTags(s, close) == s <==> NoCloseTag(s, close)
  {
    EscapeLengthens(s, close);
  }

  /** Escaping twice is escaping once. */
  lemma EscapeIdempotent(s: string, close: string)
    requires IsCloseTag(close)
    ensures EscapeCloseTags(EscapeCloseTags(s, close), close) == EscapeCloseTags(s, close)
  {
    EscapeRemovesCloseTags(s, close);
    EscapeLengthens(EscapeCloseTags(s, close), close);
  }

  /** The text the escape encodes: every closing tag it matches, written in lower case. */
  function LowerCloseTags(s: string, close: string): string
    requires IsCloseTag(close)
    decreases |s|
  {
    if s == [] then []
    else if MatchesCIAt(s, 0, close) then close + LowerCloseTags(s[|close|..], close)
    else [s[0]] + LowerCloseTags(s[1..], close)
  }

  /** Undoing the escape: every `<\/name>`, scanned from the left, loses its backslash. */
  function UnescapeCloseTags(t: string, close: string): string
    requires IsCloseTag(close)
    decreases |t|
  {
    if t == [] then []
    else if OccursAt(t, 0, Escaped(close)) then close + UnescapeCloseTags(t[|close| + 1..], close)
    else [t[0]] + UnescapeCloseTags(t[1..], close)
  }

  /** `s` holds no escaped closing tag of its own. */
  predicate NoEscapedTag(s: string, close: string)
    requires IsCloseTag(close)
  {
    forall i :: 0 <= i < |s| ==> !OccursAt(s, i, Escaped(close))
  }

  /** Matched tags only change case: the encoded text is the input up to ASCII case, and equal to it
      outside the matched tags. */
  lemma {:induction false} LowerCloseTagsOnlyFoldsCase(s: string, close: string)
    requires IsCloseTag(close)
    ensures |LowerCloseTags(s, close)| == |s|
    ensures forall k :: 0 <= k < |s| ==> LowerChar(LowerCloseTags(s, close)[k]) == LowerChar(s[k])
    ensures NoCloseTag(s, close) ==> LowerCloseTags(s, close) == s
    decreases |s|
  {
    var l := LowerCloseTags(s, close);
    if s == [] {
    } else if MatchesCIAt(s, 0, close) {
      var n := |close|;
      LowerCloseTagsOnlyFoldsCase(s[n..], close);
      assert l == close + LowerCloseTags(s[n..], close);
      forall k | 0 <= k < |s| ensures LowerChar(l[k]) == LowerChar(s[k]) {
        if k < n {
          assert LowerChar(close[k]) == close[k] == LowerChar(s[k]);
        } else {
          assert l[k] == LowerCloseTags(s[n..], close)[k - n] && s[k] == s[n..][k - n];
        }
      }
    } else {
      var rest := LowerCloseTags(s[1..], close);
      LowerCloseTagsOnlyFoldsCase(s[1..], close);
      assert l == [s[0]] + rest;
      forall k | 1 <= k < |s| ensures LowerChar(l[k]) == LowerChar(s[k]) {
        assert l[k] == rest[k - 1] && s[k] == s[1..][k - 1];
      }
      if NoCloseTag(s, close) {
        forall i | 0 <= i < |s[1..]| ensures !MatchesCIAt(s[1..], i, close) {
          MatchesInSuffix(s, 1, i, close);
        }
        assert s == [s[0]] + s[1..];
      }
    }
  }

  /** A kept first character does not start an escaped tag in the output unless the input held one. */
  lemma KeptHeadStartsNoEscapedTag(s: string, close: string)
    requires IsCloseTag(close) && s != [] && !OccursAt(s, 0, Escaped(close))
    ensures !OccursAt([s[0]] + EscapeCloseTags(s[1..], close), 0, Escaped(close))
  {
    var x := Escaped(close);
    var e := EscapeCloseTags(s[1..], close);
    var r := [s[0]] + e;
    var n := |close|;
    if OccursAt(r, 0, x) {
      forall k | 0 <= k < n ensures e[k] != '<' {
        assert e[k] == r[k + 1] == x[k + 1];
      }
      EscapePrefix(s[1..], close, n);
    }
  }

  /** Removing the backslash the escape inserts gives back the input, with the matched tags in lower
      case, whenever the input held no escaped tag of its own. */
  lemma {:induction false} UnescapeOfEscape(s: string, close: string)
    requires IsCloseTag(close) && NoEscapedTag(s, close)
    ensures UnescapeCloseTags(EscapeCloseTags(s, close), close) == LowerCloseTags(s, close)
    decreases |s|
  {
    var x := Escaped(close);
    var n := |close|;
    if s == [] {
    } else if MatchesCIAt(s, 0, close) {
      var e := EscapeCloseTags(s[n..], close);
      assert NoEscapedTag(s[n..], close) by {
        forall i | 0 <= i < |s[n..]| ensures !OccursAt(s[n..], i, x) {
          assert !OccursAt(s, n + i, x);
        }
      }
      UnescapeOfEscape(s[n..], close);
      assert OccursAt(x + e, 0, x) by {
        assert (x + e)[..|x|] == x;
      }
      assert (x + e)[n + 1..] == e;
    } else {
      var e := EscapeCloseTags(s[1..], close);
      assert NoEscapedTag(s[1..], close) by {
        forall i | 0 <= i < |s[1..]| ensures !OccursAt(s[1..], i, x) {
          assert !OccursAt(s, 1 + i, x);
        }
      }
      UnescapeOfEscape(s[1..], close);
      KeptHeadStartsNoEscapedTag(s, close);
      assert ([s[0]] + e)[1..] == e;
    }
  }

  /** At `at`, `d` holds the opening tag, then `content`, then the closing tag (in any ASCII case), and
      no match of the closing tag, in any ASCII case, begins inside `content`: the appended tag is the
      first such match. This is a fact about the text only; an HTML tokenizer also ends raw text at
      forms the escape does not touch (see `SpacedStyleTagIsNotEscaped`). */
  ghost predicate ElementAt(d: string, at: nat, open: string, content: string, close: string) {
    var start := at + |open|;
    var end := start + |content|;
    && OccursAt(d, at, open)
    && OccursAt(d, start, content)
    && MatchesCIAt(d, end, close)
    && forall j :: start <= j < end ==> !MatchesCIAt(d, j, close)
  }

  /** After content without closing tags, the appended closing tag is the first one: no position
      inside the content starts one. */
  lemma WrapperClosesAtBoundary(pre: string, content: string, close: string, post: string)
    requires IsCloseTag(close)
    requires NoCloseTag(content, close)
    ensures var d := pre + content + close + post;
      && MatchesCIAt(d, |pre| + |content|, close)
      && forall j :: |pre| <= j < |pre| + |content| ==> !MatchesCIAt(d, j, close)
  {
    var d := pre + content + close + post;
    var x := pre + content;
    assert d == x + (close + post);
    MatchesInConcat(x, close + post, 0, close);
    assert MatchesCIAt(close + post, 0, close) by {
      forall k | 0 <= k < |close| ensures LowerChar((close + post)[k]) == close[k] {
        assert (close + post)[k] == close[k];
      }
    }
    forall j | |pre| <= j < |x| ensures !MatchesCIAt(d, j, close) {
      NoTagStartsInside(pre, content, close, post, j);
    }
  }

  /** In the element `open + content + close`, placed between `pre` and `post`, the first match of the
      closing tag after the opening tag is its own. */
  lemma ElementInContext(pre: string, open: string, content: string, close: string, post: string)
    requires IsCloseTag(close)
    requires NoCloseTag(content, close)
    ensures ElementAt(pre + open + content + close + post, |pre|, open, content, close)
  {
    var d := pre + open + content + close + post;
    assert d == (pre + open) + content + close + post;
    WrapperClosesAtBoundary(pre + open, content, close, post);
    assert d[|pre|..|pre| + |open|] == open;
    assert d[|pre| + |open|..|pre| + |open| + |content|] == content;
  }

  lemma NoTagStartsInside(pre: string, content: string, close: string, post: string, j: nat)
    requires IsCloseTag(close)
    requires NoCloseTag(content, close)
    requires |pre| <= j < |pre| + |content|
    ensures !MatchesCIAt(pre + content + close + post, j, close)
  {
    var d := pre + content + close + post;
    var b := |pre| + |content|;
    var i := j - |pre|;
    if j + |close| <= b {
      assert d == pre + (content + close + post);
      MatchesInConcat(pre, content + close + post, i, close);
      MatchesInPrefix(content + close + post, |content|, i, close);
      assert (content + close + post)[..|content|] == content;
      assert !MatchesCIAt(content, i, close);
    } else {
      assert d[b] == '<';
      assert LowerChar(d[j + (b - j)]) != close[b - j];
    }
  }

  // ---------------------------------------------------------------------------------------------
  // The sandbox document

  /** The text of a string property; `undefined`, `null` and the default `''` read as empty. */
  function AsText(v: Value): string {
    if v.Str? then v.s else ""
  }

  const PlayingClass := "preview-playing"

  /** PREVIEW_PLAY_CONTROLLER: the script that gates animations on `window.__previewPlaying`. */
  const PlayController :=
    "\nwindow.__previewPlaying = false;\nfunction pausePreview() {\n  window.__previewPlaying = false;\n"
    + "  document.body.classList.remove('preview-playing');\n}\nfunction playPreview() {\n"
    + "  window.__previewPlaying = true;\n  document.body.classList.add('preview-playing');\n}\n"
    + "window.addEventListener('message', function(e) {\n"
    + "  if (e.data === 'preview-play' || (e.data && e.data.type === 'preview-play')) playPreview();\n"
    + "  if (e.data === 'preview-pause' || (e.data && e.data.type === 'preview-pause')) pausePreview();\n"
    + "});\ndocument.addEventListener('mouseleave', pausePreview);\n"
    + "document.documentElement.addEventListener('mouseleave', pausePreview);\n"
    + "window.addEventListener('blur', pausePreview);\n"

  /** PREVIEW_PAUSE_STYLE: every animation paused unless the body carries the playing class. */
  const PauseRules :=
    "\n* { animation-play-state: paused !important; }\nbody.preview-playing * { animation-play-state: running !important; }\n"

  const DocumentStart := "<!DOCTYPE html><html><head><meta charset=\"utf-8\">"
  const FontLink :=
    "<link rel=\"stylesheet\" href=\"https://fonts.googleapis.com/css2?family=Poppins:wght@400;500;600&display=swap\" />"
  const PreviewBackground :=
    "<style>html,body{background:#f4f5f4 !important;min-height:100%;margin:0;display:flex !important;"
    + "align-items:center !important;justify-content:center !important;}</style>"
  const PauseStyle := "<style>" + PauseRules + "</style>"
  const HeadEnd := "</head><body>"
  const ControllerScript := "<script>" + PlayController + "</script>"
  const DocumentEnd := "</body></html>"
  const EmptyBody := "<div></div>"

  /** `codeHtml?.trim() || '<div></div>'` */
  function BodyHtml(codeHtml: Value): (r: string)
    ensures AllSpace(AsText(codeHtml)) ==> r == EmptyBody
    ensures !AllSpace(AsText(codeHtml)) ==> r == Trim(AsText(codeHtml))
    ensures r != ""
  {
    var t := Trim(AsText(codeHtml));
    if t != "" then t else EmptyBody
  }

  /** The escaped, trimmed user CSS. */
  function SafeCss(codeCss: Value): string {
    EscapeCloseTags(Trim(AsText(codeCss)), StyleClose)
  }

  /** The escaped, trimmed user JS. */
  function SafeJs(codeJs: Value): string {
    EscapeCloseTags(Trim(AsText(codeJs)), ScriptClose)
  }

  /** The user's `<style>` element, or nothing for empty CSS. */
  function UserStyle(codeCss: Value): string {
    if SafeCss(codeCss) != "" then "<style>" + SafeCss(codeCss) + "</style>" else ""
  }

  /** The user's `<script>` element, or nothing for empty JS. */
  function UserScript(codeJs: Value): string {
    if SafeJs(codeJs) != "" then "<script>" + SafeJs(codeJs) + "</script>" else ""
  }

  /** The fixed pieces of a sandbox document: everything around the user's style, HTML and script. */
  datatype Frame = Frame(start: string, font: string, background: string, pause: string, headEnd: string,
                         controller: string, end: string)

  /** The pieces `srcdoc` is built from. */
  const Sandbox := Frame(DocumentStart, FontLink, PreviewBackground, PauseStyle, HeadEnd, ControllerScript,
                         DocumentEnd)

  /** The pieces of the document in their fixed order: charset, font link, user CSS, background
      style, pause style in the head; HTML, controller script, user JS in the body. */
  function Layout(f: Frame, style: string, html: string, script: string): (r: seq<string>)
    ensures |r| == 10 && r[0] == f.start && r[1] == f.font
    ensures r[2] == style && r[6] == html && r[8] == script
  {
    [f.start, f.font, style, f.background, f.pause, f.headEnd, html, f.controller, script, f.end]
  }

  /** The pieces joined end to end. */
  function Concat(ps: seq<string>): (r: string)
    ensures |ps| > 0 ==> r == ps[0] + Concat(ps[1..])
    ensures forall i :: 0 <= i < |ps| ==> |ps[i]| <= |r|
  {
    if ps == [] then "" else ps[0] + Concat(ps[1..])
  }

  /** The document for the user's code inside frame `f`; never empty, since the body always holds
      something. */
  function Document(f: Frame, codeHtml: Value, codeCss: Value, codeJs: Value): (r: string)
    ensures r != ""
  {
    Concat(Layout(f, UserStyle(codeCss), BodyHtml(codeHtml), UserScript(codeJs)))
  }

  /** The `srcdoc` memo: a document for code previews, nothing for every other preview type. */
  function Srcdoc(previewType: Value, codeHtml: Value, codeCss: Value, codeJs: Value): (r: Option<string>)
    ensures r.Some? <==> previewType == Str("code")
    ensures r.Some? ==> r.value != ""
  {
    if previewType != Str("code") then None
    else Some(Document(Sandbox, codeHtml, codeCss, codeJs))
  }

  /** The user's style element is emitted exactly when the trimmed CSS is non-empty, and likewise the
      user's script element for the JS. */
  lemma UserElementsEmittedIffNonEmpty(codeCss: Value, codeJs: Value)
    ensures UserStyle(codeCss) != "" <==> !AllSpace(AsText(codeCss))
    ensures UserScript(codeJs) != "" <==> !AllSpace(AsText(codeJs))
  {
  }

  lemma {:induction false} ConcatAppend(a: seq<string>, b: seq<string>)
    ensures Concat(a + b) == Concat(a) + Concat(b)
  {
    if a == [] {
      assert a + b == b;
    } else {
      assert (a + b)[1..] == a[1..] + b;
      ConcatAppend(a[1..], b);
    }
  }

  lemma ConcatOfTwo(ps: seq<string>)
    requires |ps| >= 2
    ensures Concat(ps[..2]) == ps[0] + ps[1]
  {
    var two := ps[..2];
    assert two[1..][1..] == [];
    assert Concat(two[1..][1..]) == "";
  }

  /** Joining the pieces places each one right after all the pieces before it. */
  lemma ConcatSplit(ps: seq<string>, i: nat)
    requires i < |ps|
    ensures Concat(ps) == Concat(ps[..i]) + ps[i] + Concat(ps[i + 1..])
    ensures OccursAt(Concat(ps), |Concat(ps[..i])|, ps[i])
  {
    assert ps == ps[..i] + ([ps[i]] + ps[i + 1..]);
    ConcatAppend(ps[..i], [ps[i]] + ps[i + 1..]);
    assert ([ps[i]] + ps[i + 1..])[1..] == ps[i + 1..];
    var d := Concat(ps);
    var x := Concat(ps[..i]);
    assert d[|x|..|x| + |ps[i]|] == ps[i];
  }

  /** Every piece of the document sits right after the pieces before it, so the document holds them
      in the fixed order, and the user's CSS, HTML and JS sit at the offsets given by the lengths of
      the fixed pieces. */
  lemma DocumentOrder(f: Frame, codeHtml: Value, codeCss: Value, codeJs: Value)
    ensures var ps := Layout(f, UserStyle(codeCss), BodyHtml(codeHtml), UserScript(codeJs));
      forall i :: 0 <= i < |ps| ==> OccursAt(Document(f, codeHtml, codeCss, codeJs), |Concat(ps[..i])|, ps[i])
  {
    var ps := Layout(f, UserStyle(codeCss), BodyHtml(codeHtml), UserScript(codeJs));
    forall i | 0 <= i < |ps| ensures OccursAt(Concat(ps), |Concat(ps[..i])|, ps[i]) {
      ConcatSplit(ps, i);
    }
  }

  /** In the joined document, a piece made of an opening tag, content free of the closing tag, and the
      closing tag has that closing tag as the first match after its opening tag. */
  lemma ElementClosesAtBoundary(ps: seq<string>, i: nat, open: string, content: string, close: string)
    requires i < |ps| && ps[i] == open + content + close
    requires IsCloseTag(close) && NoCloseTag(content, close)
    ensures ElementAt(Concat(ps), |Concat(ps[..i])|, open, content, close)
  {
    ConcatSplit(ps, i);
    assert Concat(ps) == Concat(ps[..i]) + open + content + close + Concat(ps[i + 1..]);
    ElementInContext(Concat(ps[..i]), open, content, close, Concat(ps[i + 1..]));
  }

  /** A non-empty style element wraps escaped CSS that holds no closing style tag. */
  lemma UserStyleShape(codeCss: Value)
    requires SafeCss(codeCss) != ""
    ensures UserStyle(codeCss) == "<style>" + SafeCss(codeCss) + StyleClose
    ensures IsCloseTag(StyleClose) && NoCloseTag(SafeCss(codeCss), StyleClose)
  {
    StyleAndScriptCloseAreCloseTags();
    EscapeRemovesCloseTags(Trim(AsText(codeCss)), StyleClose);
  }

  /** A non-empty script element wraps escaped JS that holds no closing script tag. */
  lemma UserScriptShape(codeJs: Value)
    requires SafeJs(codeJs) != ""
    ensures UserScript(codeJs) == "<script>" + SafeJs(codeJs) + ScriptClose
    ensures IsCloseTag(ScriptClose) && NoCloseTag(SafeJs(codeJs), ScriptClose)
  {
    StyleAndScriptCloseAreCloseTags();
    EscapeRemovesCloseTags(Trim(AsText(codeJs)), ScriptClose);
  }

  /** In any frame, escaping leaves no `</style>`, in any ASCII case, inside the user's style element,
      so the closing tag the document appends is the first such tag after `<style>`. */
  lemma UserStyleClosesAtBoundary(f: Frame, codeHtml: Value, codeCss: Value, codeJs: Value)
    requires SafeCss(codeCss) != ""
    ensures ElementAt(Document(f, codeHtml, codeCss, codeJs), |f.start + f.font|, "<style>", SafeCss(codeCss),
                      StyleClose)
  {
    var ps := Layout(f, UserStyle(codeCss), BodyHtml(codeHtml), UserScript(codeJs));
    UserStyleShape(codeCss);
    ElementClosesAtBoundary(ps, 2, "<style>", SafeCss(codeCss), StyleClose);
    ConcatOfTwo(ps);
  }

  /** In any frame, escaping leaves no `</script>`, in any ASCII case, inside the user's script element,
      so the closing tag the document appends is the first such tag after `<script>`. */
  lemma UserScriptClosesAtBoundary(f: Frame, codeHtml: Value, codeCss: Value, codeJs: Value)
    requires SafeJs(codeJs) != ""
    ensures var ps := Layout(f, UserStyle(codeCss), BodyHtml(codeHtml), UserScript(codeJs));
      ElementAt(Document(f, codeHtml, codeCss, codeJs), |Concat(ps[..8])|, "<script>", SafeJs(codeJs), ScriptClose)
  {
    var ps := Layout(f, UserStyle(codeCss), BodyHtml(codeHtml), UserScript(codeJs));
    UserScriptShape(codeJs);
    ElementClosesAtBoundary(ps, 8, "<script>", SafeJs(codeJs), ScriptClose);
  }

  /** Trimmed CSS without a `</style>` in any ASCII case reaches the document as written. */
  lemma CleanCssKept(css: string)
    requires css == "" || (!IsSpace(css[0]) && !IsSpace(css[|css| - 1]))
    requires NoCloseTag(css, StyleClose)
    ensures SafeCss(Str(css)) == css
  {
    TrimOfTrimmed(css);
    StyleAndScriptCloseAreCloseTags();
    EscapeIsIdentityIffClean(css, StyleClose);
  }

  /** CSS holding `</style` followed by a space rather than `>`. */
  const SpacedCss := "a</style >b"

  lemma SpacedCssIsClean()
    ensures NoCloseTag(SpacedCss, StyleClose)
  {
    forall i | 0 <= i < |SpacedCss|
      ensures !MatchesCIAt(SpacedCss, i, StyleClose)
    {
      if i == 1 {
        assert LowerChar(SpacedCss[i + 7]) != StyleClose[7];
      } else if i < 4 {
        assert LowerChar(SpacedCss[i + 0]) != StyleClose[0];
      }
    }
  }

  lemma SpacedCssHoldsSpacedTag()
    ensures OccursAt(SpacedCss, 1, "</style ")
  {
    forall k | 0 <= k < 8 ensures SpacedCss[1..9][k] == "</style "[k] {
      assert SpacedCss[1..9][k] == SpacedCss[1 + k];
    }
  }

  /** The escape matches only the literal tag: `</style` followed by a space reaches the document
      unescaped, although an HTML tokenizer ends the style element there. */
  lemma SpacedStyleTagIsNotEscaped()
    ensures SafeCss(Str(SpacedCss)) == SpacedCss
    ensures OccursAt(SafeCss(Str(SpacedCss)), 1, "</style ")
  {
    SpacedCssIsClean();
    CleanCssKept(SpacedCss);
    SpacedCssHoldsSpacedTag();
  }

  /** The code preview's `srcdoc` is the document in the sandbox frame, so the lemmas about documents
      in every frame hold of it. */
  lemma SrcdocIsSandboxDocument(codeHtml: Value, codeCss: Value, codeJs: Value)
    ensures Srcdoc(Str("code"), codeHtml, codeCss, codeJs) == Some(Document(Sandbox, codeHtml, codeCss, codeJs))
  {
  }

  // ---------------------------------------------------------------------------------------------
  // What the component renders

  datatype Rendered =
    | EmbedFrame(src: Value, sandbox: string)      // iframe src={embedUrl}
    | CodeFrame(srcdoc: string, sandbox: string)   // iframe srcDoc={srcdoc}, hover sends play/pause
    | Placeholder                                  // "No preview available."

  /** The component's three-way choice, given the `srcdoc` memo: an embed frame for an embed with a
      URL, a sandboxed frame for a code preview with a document, and the placeholder otherwise. */
  function Choose(previewType: Value, srcdoc: Option<string>, embedUrl: Value): (r: Rendered)
    ensures r.EmbedFrame? <==> previewType == Str("embed") && Truthy(embedUrl)
    ensures r.EmbedFrame? ==> r.src == embedUrl && r.sandbox == "allow-scripts allow-same-origin"
    ensures r.CodeFrame? <==> previewType == Str("code") && srcdoc.Some? && srcdoc.value != ""
    ensures r.CodeFrame? ==> Some(r.srcdoc) == srcdoc && r.sandbox == "allow-scripts"
  {
    if previewType == Str("embed") && Truthy(embedUrl) then
      EmbedFrame(embedUrl, "allow-scripts allow-same-origin")
    else if previewType == Str("code") && srcdoc.Some? && srcdoc.value != "" then
      CodeFrame(srcdoc.value, "allow-scripts")
    else
      Placeholder
  }

  /** What the component renders for its props: every code preview gets its sandbox document, since
      that document is never empty. */
  function Render(previewType: Value, codeHtml: Value, codeCss: Value, codeJs: Value, embedUrl: Value): (r: Rendered)
    ensures r.EmbedFrame? <==> previewType == Str("embed") && Truthy(embedUrl)
    ensures r.EmbedFrame? ==> r.src == embedUrl && r.sandbox == "allow-scripts allow-same-origin"
    ensures r.CodeFrame? <==> previewType == Str("code")
    ensures r.CodeFrame? ==> Some(r.srcdoc) == Srcdoc(previewType, codeHtml, codeCss, codeJs)
                             && r.sandbox == "allow-scripts"
  {
    Choose(previewType, Srcdoc(previewType, codeHtml, codeCss, codeJs), embedUrl)
  }

  /** A code preview with no code at all still gets a sandbox, holding the empty `<div></div>` body. */
  lemma EmptyCodePreviewStillRendersFrame(codeHtml: Value, codeCss: Value, codeJs: Value)
    requires AllSpace(AsText(codeHtml)) && AllSpace(AsText(codeCss)) && AllSpace(AsText(codeJs))
    ensures Render(Str("code"), codeHtml, codeCss, codeJs, Undef)
         == CodeFrame(Concat(Layout(Sandbox, "", EmptyBody, "")), "allow-scripts")
  {
    UserElementsEmittedIffNonEmpty(codeCss, codeJs);
  }

  // ---------------------------------------------------------------------------------------------
  // The play/pause controller inside the sandbox

  /** `e.data` of a message event: an object carrying a `type` property, or any other value. An
      object with a `type` property is always `WithType` (its `typ` is that property's value);
      `Plain(Obj(_))` stands only for an object without one, whose `e.data.type` is `undefined`. */
  datatype MessageData = WithType(typ: Value) | Plain(v: Value)

  /** `e.data === 'preview-play' || (e.data && e.data.type === 'preview-play')` */
  predicate IsPlaySignal(d: MessageData) {
    match d
    case Plain(v) => v == Str("preview-play")
    case WithType(t) => t == Str("preview-play")
  }

  /** `e.data === 'preview-pause' || (e.data && e.data.type === 'preview-pause')` */
  predicate IsPauseSignal(d: MessageData) {
    match d
    case Plain(v) => v == Str("preview-pause")
    case WithType(t) => t == Str("preview-pause")
  }

  datatype Event =
    | Message(data: MessageData)   // window 'message'
    | DocumentMouseLeave           // document 'mouseleave'
    | RootMouseLeave               // document.documentElement 'mouseleave'
    | WindowBlur                   // window 'blur'

  /** `window.__previewPlaying` and the class list of `document.body`. */
  datatype ControllerState = ControllerState(playing: bool, bodyClasses: set<string>)

  /** The flag and the marker class agree. */
  predicate Consistent(s: ControllerState) {
    s.playing <==> PlayingClass in s.bodyClasses
  }

  const Initial := ControllerState(false, {})

  /** playPreview() */
  function Play(s: ControllerState): ControllerState {
    ControllerState(true, s.bodyClasses + {PlayingClass})
  }

  /** pausePreview() */
  function Pause(s: ControllerState): ControllerState {
    ControllerState(false, s.bodyClasses - {PlayingClass})
  }

  /** The message listener: the play test, then the pause test. */
  function OnMessage(s: ControllerState, d: MessageData): ControllerState {
    var s' := if IsPlaySignal(d) then Play(s) else s;
    if IsPauseSignal(d) then Pause(s') else s'
  }

  function Next(s: ControllerState, e: Event): ControllerState {
    match e
    case Message(d) => OnMessage(s, d)
    case DocumentMouseLeave => Pause(s)
    case RootMouseLeave => Pause(s)
    case WindowBlur => Pause(s)
  }

  /** No message is both a play and a pause signal. */
  lemma SignalsExclusive(d: MessageData)
    ensures !(IsPlaySignal(d) && IsPauseSignal(d))
  {
  }

  lemma InitialIsPausedAndConsistent()
    ensures !Initial.playing && Consistent(Initial)
  {
  }

  /** Every event keeps the flag and the marker class in agreement. */
  lemma NextKeepsConsistent(s: ControllerState, e: Event)
    requires Consistent(s)
    ensures Consistent(Next(s, e))
  {
  }

  /** Play and pause are idempotent, and in a consistent state playing while playing (pausing while
      paused) changes nothing at all. */
  lemma TransitionsIdempotent(s: ControllerState)
    ensures Play(Play(s)) == Play(s) && Pause(Pause(s)) == Pause(s)
    ensures Consistent(s) && s.playing ==> Play(s) == s
    ensures Consistent(s) && !s.playing ==> Pause(s) == s
  {
  }

  /** A message that is neither signal never changes the state. */
  lemma UnrecognisedMessageIgnored(s: ControllerState, d: MessageData)
    requires !IsPlaySignal(d) && !IsPauseSignal(d)
    ensures Next(s, Message(d)) == s
  {
  }

  /** Leaving the document or its root, losing focus, or a pause signal always ends paused; a play
      signal always ends playing. */
  lemma EventOutcomes(s: ControllerState, e: Event)
    ensures (e.DocumentMouseLeave? || e.RootMouseLeave? || e.WindowBlur?) ==> !Next(s, e).playing
    ensures e.Message? && IsPauseSignal(e.data) ==> !Next(s, e).playing
    ensures e.Message? && IsPlaySignal(e.data) ==> Next(s, e).playing
  {
  }

  /** From paused, only a play signal starts playing. */
  lemma OnlyPlaySignalStartsPlaying(s: ControllerState, e: Event)
    requires !s.playing && Next(s, e).playing
    ensures e.Message? && IsPlaySignal(e.data)
  {
  }

  /** The controller as it lives in the sandbox: the global flag and the body's class list. */
  class PreviewController {
    var playing: bool
    var bodyClasses: set<string>

    function State(): ControllerState
      reads this
    {
      ControllerState(playing, bodyClasses)
    }

    /** Loading the controller script: `window.__previewPlaying = false` on a body without classes. */
    constructor ()
      ensures State() == Initial
    {
      playing := false;
      bodyClasses := {};
    }

    method PlayPreview()
      modifies this
      ensures State() == Play(old(State()))
    {
      playing := true;
      bodyClasses := bodyClasses + {PlayingClass};
    }

    method PausePreview()
      modifies this
      ensures State() == Pause(old(State()))
    {
      playing := false;
      bodyClasses := bodyClasses - {PlayingClass};
    }

    method HandleMessage(d: MessageData)
      modifies this
      ensures State() == OnMessage(old(State()), d)
    {
      if IsPlaySignal(d) {
        PlayPreview();
      }
      if IsPauseSignal(d) {
        PausePreview();
      }
    }

    method Dispatch(e: Event)
      modifies this
      ensures State() == Next(old(State()), e)
    {
      match e
      case Message(d) => HandleMessage(d);
      case DocumentMouseLeave => PausePreview();
      case RootMouseLeave => PausePreview();
      case WindowBlur => PausePreview();
    }
  }
}
