/** The add and edit form (src/pages/ExampleForm.jsx): the record a submitted form saves, the values an
    edit starts from, and the add-by-URL flow that resolves a link into an embed tile. */
module ExampleForm {
  import opened JsValues
  import opened Strings
  import opened Categories
  import opened Store
  import UrlResolver
  import LivePreview
  import ListPage

  /** A value `?.trim()` can be called on without throwing: a string, or `undefined`/`null`, for
      which the optional chain stops. */
  predicate Trimmable(v: Value) {
    v.Str? || v == Undef || v == Null
  }

  /** `v?.trim()`: the trimmed string, `undefined` for `undefined` or `null`, and nothing when the
      call throws because `v` has no `trim` method. */
  function OptionalTrim(v: Value): (r: Option<Value>)
    ensures r.Some? <==> Trimmable(v)
    ensures r.Some? ==> (r.value == Undef <==> !v.Str?)
    ensures r.Some? && r.value.Str? ==> Trim(r.value.s) == r.value.s
  {
    match v
    case Str(s) =>
      TrimOfTrimmed(Trim(s));
      Some(Str(Trim(s)))
    case Undef => Some(Undef)
    case Null => Some(Undef)
    case _ => None
  }

  /** The payload `onFinish` builds, one field per key it sets. */
  datatype FormPayload = FormPayload(title: Value, category: Value, sourceUrl: Value, description: Value,
                                     previewType: Value, codeHtml: Value, codeCss: Value, codeJs: Value,
                                     embedUrl: Value)

  /** The keys of every payload. */
  const PayloadKeys: set<string> :=
    {"title", "category", "sourceUrl", "description", "previewType", "codeHtml", "codeCss", "codeJs", "embedUrl"}

  /** The payload as the object literal `onFinish` writes. */
  function AsRecord(p: FormPayload): (r: Record)
    ensures r.Keys == PayloadKeys
    ensures Get(r, "title") == p.title && Get(r, "category") == p.category
    ensures Get(r, "sourceUrl") == p.sourceUrl && Get(r, "description") == p.description
    ensures Get(r, "previewType") == p.previewType && Get(r, "codeHtml") == p.codeHtml
    ensures Get(r, "codeCss") == p.codeCss && Get(r, "codeJs") == p.codeJs && Get(r, "embedUrl") == p.embedUrl
  {
    map["title" := p.title, "category" := p.category, "sourceUrl" := p.sourceUrl, "description" := p.description,
        "previewType" := p.previewType, "codeHtml" := p.codeHtml, "codeCss" := p.codeCss, "codeJs" := p.codeJs,
        "embedUrl" := p.embedUrl]
  }

  /** `onFinish` throws while building its payload exactly when one of the trimmed fields it reaches
      is not a string, `undefined` or `null`; the embed URL is reached only for embed previews. */
  predicate PayloadThrows(values: Record) {
    || !Trimmable(Get(values, "title"))
    || !Trimmable(Get(values, "sourceUrl"))
    || !Trimmable(Get(values, "description"))
    || (Get(values, "previewType") == Str("embed") && !Trimmable(Get(values, "embedUrl")))
  }

  /** A string that is its own trim and is not empty. */
  predicate TrimmedText(v: Value) {
    v.Str? && v.s != "" && Trim(v.s) == v.s
  }

  /** A field holds a non-blank string. */
  predicate Filled(v: Value) {
    v.Str? && Trim(v.s) != ""
  }

  /** `values.title?.trim() || 'Untitled'`: the trimmed title, or "Untitled" when it is blank or
      missing; nothing when the trim throws. */
  function TitleField(v: Value): (r: Option<Value>)
    ensures r.Some? <==> Trimmable(v)
    ensures r.Some? ==> TrimmedText(r.value)
    ensures r.Some? && Filled(v) ==> r.value == Str(Trim(v.s))
    ensures r.Some? && !Filled(v) ==> r.value == Str("Untitled")
  {
    match OptionalTrim(v)
    case None => None
    case Some(t) =>
      assert Trim("Untitled") == "Untitled" by {
        TrimOfTrimmed("Untitled");
      }
      Some(Or(t, Str("Untitled")))
  }

  /** `v?.trim() || undefined`: the trimmed text, left out when blank or missing; nothing when the
      trim throws. */
  function TextField(v: Value): (r: Option<Value>)
    ensures r.Some? <==> Trimmable(v)
    ensures r.Some? ==> (r.value == Undef <==> !Filled(v))
    ensures r.Some? && Filled(v) ==> r.value == Str(Trim(v.s)) && TrimmedText(r.value)
  {
    match OptionalTrim(v)
    case None => None
    case Some(t) => Some(Or(t, Undef))
  }

  /** `previewType === 'code' ? (v ?? '') : undefined` */
  function CodeField(previewType: Value, v: Value): (r: Value)
    ensures r != Undef <==> previewType == Str("code")
    ensures r != Null
    ensures r != Undef && v != Undef && v != Null ==> r == v
  {
    if previewType == Str("code") then Coalesce(v, Str("")) else Undef
  }

  /** `previewType === 'embed' ? (v?.trim() ?? '') : undefined`; nothing when the trim throws. */
  function EmbedField(previewType: Value, v: Value): (r: Option<Value>)
    ensures r.None? <==> previewType == Str("embed") && !Trimmable(v)
    ensures r.Some? ==> (r.value != Undef <==> previewType == Str("embed"))
    ensures r.Some? && r.value != Undef ==> r.value.Str? && Trim(r.value.s) == r.value.s
    ensures r.Some? && r.value != Undef ==> (r.value.s != "" <==> Filled(v))
  {
    if previewType != Str("embed") then Some(Undef)
    else match OptionalTrim(v)
      case None => None
      case Some(t) =>
        assert Trim("") == "";
        Some(Coalesce(t, Str("")))
  }

  /** The payload `onFinish` saves, or nothing when building it throws. */
  function Payload(values: Record): (r: Option<FormPayload>)
    ensures r.None? <==> PayloadThrows(values)
  {
    var pt := Get(values, "previewType");
    var title := TitleField(Get(values, "title"));
    var sourceUrl := TextField(Get(values, "sourceUrl"));
    var description := TextField(Get(values, "description"));
    var embedUrl := EmbedField(pt, Get(values, "embedUrl"));
    if title.None? || sourceUrl.None? || description.None? || embedUrl.None? then None
    else
      Some(FormPayload(
        title.value,
        Or(Get(values, "category"), Str(DefaultCategories[0])),
        sourceUrl.value,
        description.value,
        Or(pt, Str("code")),
        CodeField(pt, Get(values, "codeHtml")),
        CodeField(pt, Get(values, "codeCss")),
        CodeField(pt, Get(values, "codeJs")),
        embedUrl.value))
  }

  /** A payload as `onFinish` can save it: a trimmed non-blank title, a category and a preview type,
      optional texts trimmed and non-blank, code fields defined (never `null`) exactly for code
      previews, and a trimmed embed URL exactly for embed previews. */
  predicate WellFormed(p: FormPayload, previewType: Value) {
    && TrimmedText(p.title)
    && Truthy(p.category) && Truthy(p.previewType)
    && (p.sourceUrl == Undef || TrimmedText(p.sourceUrl))
    && (p.description == Undef || TrimmedText(p.description))
    && (p.codeHtml != Undef <==> previewType == Str("code")) && p.codeHtml != Null
    && (p.codeCss != Undef <==> previewType == Str("code")) && p.codeCss != Null
    && (p.codeJs != Undef <==> previewType == Str("code")) && p.codeJs != Null
    && (p.embedUrl != Undef <==> previewType == Str("embed"))
    && (p.embedUrl != Undef ==> p.embedUrl.Str? && Trim(p.embedUrl.s) == p.embedUrl.s)
  }

  /** What a saved payload holds: it is well formed with respect to the chosen preview type, the title
      is the trimmed title or "Untitled" for a blank one, and the category and preview type are the
      chosen ones or the first category and "code" by default. */
  lemma PayloadMeaning(values: Record)
    requires Payload(values).Some?
    ensures var p := Payload(values).value; var pt := Get(values, "previewType");
      && WellFormed(p, pt)
      && (Filled(Get(values, "title")) ==> p.title == Str(Trim(Get(values, "title").s)))
      && (!Filled(Get(values, "title")) ==> p.title == Str("Untitled"))
      && (Truthy(Get(values, "category")) ==> p.category == Get(values, "category"))
      && (!Truthy(Get(values, "category")) ==> p.category == Str(DefaultCategories[0]))
      && (Truthy(pt) ==> p.previewType == pt)
      && (!Truthy(pt) ==> p.previewType == Str("code"))
  {
  }

  /** The fields of a stored record after the payload was spread over it and written through JSON. */
  lemma SavedFields(stored: Record, p: FormPayload)
    ensures var ex := Clean(stored + AsRecord(p));
      && IsClean(ex)
      && Get(ex, "title") == p.title && Get(ex, "category") == p.category
      && Get(ex, "sourceUrl") == p.sourceUrl && Get(ex, "description") == p.description
      && Get(ex, "previewType") == p.previewType && Get(ex, "codeHtml") == p.codeHtml
      && Get(ex, "codeCss") == p.codeCss && Get(ex, "codeJs") == p.codeJs && Get(ex, "embedUrl") == p.embedUrl
  {
    var q := AsRecord(p);
    assert forall k :: k in PayloadKeys ==> Get(stored + q, k) == Get(q, k);
  }

  /** A saved form previews as its preview type says: a code frame for code, and also when no type was
      chosen; a frame on the embed URL for an embed with a non-blank URL; the placeholder otherwise. */
  lemma SavedFormPreview(values: Record, stored: Record)
    requires Payload(values).Some?
    ensures var ex := Clean(stored + AsRecord(Payload(values).value)); var pt := Get(values, "previewType");
      var view := LivePreview.Render(Get(ex, "previewType"), Get(ex, "codeHtml"), Get(ex, "codeCss"),
                                     Get(ex, "codeJs"), Get(ex, "embedUrl"));
      && (view.CodeFrame? <==> pt == Str("code") || !Truthy(pt))
      && (view.EmbedFrame? <==> pt == Str("embed") && Filled(Get(values, "embedUrl")))
  {
    var p := Payload(values).value;
    SavedFields(stored, p);
    PayloadKind(values);
    RenderChoice(p.previewType, p.codeHtml, p.codeCss, p.codeJs, p.embedUrl);
  }

  /** The stored preview type is "code" when "code" or nothing was chosen, "embed" when "embed" was;
      the embed URL is set and non-empty exactly for an embed with a non-blank URL. */
  lemma PayloadKind(values: Record)
    requires Payload(values).Some?
    ensures var p := Payload(values).value; var pt := Get(values, "previewType");
      && (p.previewType == Str("code") <==> pt == Str("code") || !Truthy(pt))
      && (p.previewType == Str("embed") <==> pt == Str("embed"))
      && (Truthy(p.embedUrl) <==> pt == Str("embed") && Filled(Get(values, "embedUrl")))
  {
    var p := Payload(values).value;
    var pt := Get(values, "previewType");
    assert p.previewType == Or(pt, Str("code"));
    assert p.embedUrl == EmbedField(pt, Get(values, "embedUrl")).value;
  }

  /** Which of its three outputs the preview component picks. */
  lemma RenderChoice(previewType: Value, codeHtml: Value, codeCss: Value, codeJs: Value, embedUrl: Value)
    ensures var view := LivePreview.Render(previewType, codeHtml, codeCss, codeJs, embedUrl);
      && (view.CodeFrame? <==> previewType == Str("code"))
      && (view.EmbedFrame? <==> previewType == Str("embed") && Truthy(embedUrl))
  {
  }

  /** Saving without a preview type stores a code preview without code: the code fields follow the
      raw value, which is not "code", while the stored type falls back to "code". */
  lemma UntypedSaveHasNoCode(values: Record)
    requires Payload(values).Some? && Get(values, "previewType") == Undef
    ensures var p := Payload(values).value;
      p.previewType == Str("code") && p.codeHtml == Undef && p.codeCss == Undef && p.codeJs == Undef
  {
  }

  /** The form values for a record holding `p`, field by field. */
  function Refill(p: FormPayload): FormPayload {
    FormPayload(p.title, p.category, Coalesce(p.sourceUrl, Str("")), Coalesce(p.description, Str("")),
                Coalesce(p.previewType, Str("code")), Coalesce(p.codeHtml, Str("")), Coalesce(p.codeCss, Str("")),
                Coalesce(p.codeJs, Str("")), Coalesce(p.embedUrl, Str("")))
  }

  /** The values the edit form is filled with from a stored example: the title and category as
      stored, the preview type "code" when none is stored, and the empty string for any other field
      the example does not hold. */
  function EditFormValues(ex: Record): (r: Record)
    ensures r.Keys == PayloadKeys
    ensures Get(r, "title") == Get(ex, "title") && Get(r, "category") == Get(ex, "category")
    ensures Get(r, "previewType") == Coalesce(Get(ex, "previewType"), Str("code"))
    ensures forall k :: k in PayloadKeys && k != "title" && k != "category" && k != "previewType" ==>
      Get(r, k) == (if Get(ex, k) == Undef || Get(ex, k) == Null then Str("") else Get(ex, k))
  {
    AsRecord(Refill(FormPayload(Get(ex, "title"), Get(ex, "category"), Get(ex, "sourceUrl"), Get(ex, "description"),
                                Get(ex, "previewType"), Get(ex, "codeHtml"), Get(ex, "codeCss"), Get(ex, "codeJs"),
                                Get(ex, "embedUrl"))))
  }

  /** Opening the edit page: the form's values and the preview type it shows for a stored example,
      or "Example not found" and a return to the list. */
  datatype EditStart = Fill(values: Record, previewType: Value) | NotFound

  /** The edit page's loading effect, given the example `getExampleById` found. */
  function StartEdit(found: Option<Record>): (r: EditStart)
    ensures r.NotFound? <==> found.None?
    ensures r.Fill? ==> r.values == EditFormValues(found.value) && r.previewType == Get(r.values, "previewType")
    ensures r.Fill? ==> Truthy(r.previewType) || r.previewType == Get(found.value, "previewType")
  {
    match found
    case None => NotFound
    case Some(ex) => Fill(EditFormValues(ex), Coalesce(Get(ex, "previewType"), Str("code")))
  }

  /** A well-formed payload with a chosen preview type is what saving the form refilled from it
      gives again. */
  lemma RefillIsFixedPoint(p: FormPayload, previewType: Value)
    requires WellFormed(p, previewType) && p.previewType == previewType
    ensures Payload(AsRecord(Refill(p))) == Some(p)
  {
    var v := Refill(p);
    assert TitleField(v.title) == Some(p.title) by {
      TitleIsKept(p.title);
    }
    assert TextField(v.sourceUrl) == Some(p.sourceUrl) by {
      TextIsKept(p.sourceUrl);
    }
    assert TextField(v.description) == Some(p.description) by {
      TextIsKept(p.description);
    }
    assert EmbedField(previewType, v.embedUrl) == Some(p.embedUrl) by {
      EmbedIsKept(p.embedUrl, previewType);
    }
    assert v.previewType == previewType;
    PayloadOfFields(AsRecord(v), p);
  }

  /** The payload read off values whose fields each give back the corresponding field of `p`. */
  lemma PayloadOfFields(values: Record, p: FormPayload)
    requires TitleField(Get(values, "title")) == Some(p.title)
    requires TextField(Get(values, "sourceUrl")) == Some(p.sourceUrl)
    requires TextField(Get(values, "description")) == Some(p.description)
    requires EmbedField(Get(values, "previewType"), Get(values, "embedUrl")) == Some(p.embedUrl)
    requires Or(Get(values, "category"), Str(DefaultCategories[0])) == p.category
    requires Or(Get(values, "previewType"), Str("code")) == p.previewType
    requires CodeField(Get(values, "previewType"), Get(values, "codeHtml")) == p.codeHtml
    requires CodeField(Get(values, "previewType"), Get(values, "codeCss")) == p.codeCss
    requires CodeField(Get(values, "previewType"), Get(values, "codeJs")) == p.codeJs
    ensures Payload(values) == Some(p)
  {
  }

  lemma EmbedIsKept(e: Value, previewType: Value)
    requires e != Undef <==> previewType == Str("embed")
    requires e != Undef ==> e.Str? && Trim(e.s) == e.s
    ensures EmbedField(previewType, Coalesce(e, Str(""))) == Some(e)
  {
    if previewType == Str("embed") {
      assert OptionalTrim(e) == Some(e);
    }
  }

  lemma TitleIsKept(t: Value)
    requires TrimmedText(t)
    ensures TitleField(t) == Some(t)
  {
  }

  lemma TextIsKept(t: Value)
    requires t == Undef || TrimmedText(t)
    ensures TextField(Coalesce(t, Str(""))) == Some(t)
  {
    assert Trim("") == "";
  }

  /** Saving an edit form unchanged changes nothing: once a record holds what a save with a chosen
      preview type wrote, filling the form from it and saving again writes the same fields back. */
  lemma ResaveChangesNothing(values: Record, stored: Record)
    requires Payload(values).Some? && Truthy(Get(values, "previewType"))
    ensures var ex := Clean(stored + AsRecord(Payload(values).value));
      && Payload(EditFormValues(ex)) == Payload(values)
      && Clean(ex + AsRecord(Payload(EditFormValues(ex)).value)) == ex
  {
    var p := Payload(values).value;
    assert WellFormed(p, Get(values, "previewType")) && p.previewType == Get(values, "previewType") by {
      PayloadMeaning(values);
    }
    RefillOfSaved(stored, p);
    RefillIsFixedPoint(p, Get(values, "previewType"));
    SpreadAgain(stored, p);
  }

  /** The edit form refilled from a stored record holds the refill of the payload it was saved with. */
  lemma RefillOfSaved(stored: Record, p: FormPayload)
    ensures EditFormValues(Clean(stored + AsRecord(p))) == AsRecord(Refill(p))
  {
    SavedFields(stored, p);
  }

  /** Spreading the same payload a second time changes nothing. */
  lemma SpreadAgain(stored: Record, p: FormPayload)
    ensures var ex := Clean(stored + AsRecord(p)); Clean(ex + AsRecord(p)) == ex
  {
    var ex := Clean(stored + AsRecord(p));
    SavedFields(stored, p);
    forall k | k in AsRecord(p) ensures Get(ex, k) == AsRecord(p)[k] {
      assert k in PayloadKeys;
    }
    ResaveField(ex, AsRecord(p));
  }

  /** Spreading a payload that agrees with a cleaned record on every key it holds, and then cleaning,
      gives the record back. */
  lemma ResaveField(ex: Record, q: Record)
    requires IsClean(ex)
    requires forall k :: k in q ==> Get(ex, k) == q[k]
    ensures Clean(ex + q) == ex
  {
    var c := Clean(ex + q);
    forall k | k in c ensures k in ex && c[k] == ex[k] {
    }
    forall k | k in ex ensures k in c {
    }
  }

  /** What the form reports and where it goes after a handler. */
  datatype Notice = Success(text: string) | Error(text: string) | Thrown

  datatype Outcome = Outcome(notice: Option<Notice>, route: Option<string>)

  /** `isEdit && id`: the route carries a non-empty id. */
  predicate IsEdit(id: Option<string>) {
    id.Some? && id.value != ""
  }

  /** What `onFinish` does with the stored list: update the example being edited, add a new one with
      the fresh identity, or leave the list alone when the payload throws; and what it reports. */
  function Finish(list: seq<Record>, id: Option<string>, values: Record, f: Fresh): (r: (seq<Record>, Outcome))
    ensures PayloadThrows(values) ==> r == (list, Outcome(Some(Thrown), None))
    ensures !PayloadThrows(values) && IsEdit(id) ==>
      r == (Updated(list, Str(id.value), AsRecord(Payload(values).value)),
            Outcome(Some(Success("Example updated")), Some("/example/" + id.value)))
    ensures !PayloadThrows(values) && !IsEdit(id) ==>
      r == (Added(list, AsRecord(Payload(values).value), f), Outcome(Some(Success("Example added")), Some("/example/" + f.id)))
  {
    match Payload(values)
    case None => (list, Outcome(Some(Thrown), None))
    case Some(payload) =>
      if IsEdit(id) then
        (Updated(list, Str(id.value), AsRecord(payload)), Outcome(Some(Success("Example updated")), Some("/example/" + id.value)))
      else
        (Added(list, AsRecord(payload), f), Outcome(Some(Success("Example added")), Some("/example/" + f.id)))
  }

  /** The page a new example's save goes to shows that example, with the fields the form saved. */
  lemma AddedExampleIsShown(list: seq<Record>, values: Record, f: Fresh)
    requires !PayloadThrows(values)
    requires forall j :: 0 <= j < |list| ==> Get(list[j], "id") != Str(f.id)
    ensures var after := Finish(list, None, values, f);
      && after.1.route == Some("/example/" + f.id)
      && FindFirst(after.0, "id", Str(f.id)) == Some(|list|)
      && forall k :: k in PayloadKeys ==> Get(after.0[|list|], k) == AsRecord(Payload(values).value)[k]
  {
    var p := AsRecord(Payload(values).value);
    var after := Added(list, p, f);
    assert Finish(list, None, values, f).0 == after;
    AddedIsFoundById(list, p, f);
    IdentityKeysAreNotPayloadKeys();
    forall k | k in PayloadKeys ensures Get(after[|list|], k) == p[k] {
      assert k != "id" && k != "createdAt";
    }
  }

  /** The payload never sets the identity the store gives a record. */
  lemma IdentityKeysAreNotPayloadKeys()
    ensures "id" !in PayloadKeys && "createdAt" !in PayloadKeys
  {
    assert forall k :: k in PayloadKeys ==> |k| != 2;
    assert forall k :: k in PayloadKeys && |k| == 9 ==> k[0] == 's';
  }

  /** Saving an edit keeps every example's place and every other example as it was; the edited one
      takes the payload's title. */
  lemma EditedExampleTakesPayload(list: seq<Record>, id: string, values: Record, f: Fresh)
    requires !PayloadThrows(values) && id != ""
    requires FindFirst(list, "id", Str(id)).Some?
    ensures var after := Finish(list, Some(id), values, f); var i := FindFirst(list, "id", Str(id)).value;
      && |after.0| == |list|
      && (forall j :: 0 <= j < |list| && j != i ==> after.0[j] == list[j])
      && Get(after.0[i], "title") == Payload(values).value.title
      && Get(after.0[i], "id") == Str(id)
  {
    IdentityKeysAreNotPayloadKeys();
  }

  /** The store's side of `onFinish`. */
  method OnFinish(store: CatalogStore, id: Option<string>, values: Record, f: Fresh) returns (outcome: Outcome)
    requires store.Valid()
    modifies store
    ensures store.Valid()
    ensures (store.stored, outcome) == Finish(old(store.stored), id, values, f)
  {
    var payload := Payload(values);
    if payload.None? {
      return Outcome(Some(Thrown), None);
    }
    if IsEdit(id) {
      var _ := store.UpdateExample(Str(id.value), AsRecord(payload.value));
      outcome := Outcome(Some(Success("Example updated")), Some("/example/" + id.value));
    } else {
      var created := store.AddExample(AsRecord(payload.value), f);
      outcome := Outcome(Some(Success("Example added")), Some("/example/" + f.id));
    }
  }

  /** The record `onAddByUrl` adds for a resolved link: an embed preview on the resolved URL (left out
      when empty), with the resolved title, description, thumbnail and source. */
  function ByUrlRecord(res: UrlResolver.Resolution, category: Value): (r: Record)
    ensures Get(r, "previewType") == Str("embed")
    ensures Get(r, "embedUrl") == (if res.embedUrl == "" then Undef else Str(res.embedUrl))
    ensures Get(r, "category") == Or(category, Str(DefaultCategories[0])) && Truthy(Get(r, "category"))
    ensures Get(r, "title") == res.title && Get(r, "sourceUrl") == Str(res.sourceUrl)
    ensures Get(r, "description") == res.description && Get(r, "thumbnailUrl") == res.thumbnailUrl
    ensures "id" !in r && "createdAt" !in r
  {
    map[
      "title" := res.title,
      "category" := Or(category, Str(DefaultCategories[0])),
      "sourceUrl" := Str(res.sourceUrl),
      "description" := res.description,
      "previewType" := Str("embed"),
      "embedUrl" := Or(Str(res.embedUrl), Undef),
      "thumbnailUrl" := res.thumbnailUrl
    ]
  }

  /** A tile added from a link has a live preview exactly when the link resolved to an embed URL, and
      then the preview is a frame on that URL. */
  lemma ByUrlTileIsLiveIffEmbedded(res: UrlResolver.Resolution, category: Value)
    ensures var r := ByUrlRecord(res, category);
      && (ListPage.HasLivePreview(r) <==> res.embedUrl != "")
      && (res.embedUrl != "" ==> LivePreview.Render(Get(r, "previewType"), Get(r, "codeHtml"), Get(r, "codeCss"),
                                                    Get(r, "codeJs"), Get(r, "embedUrl"))
                                 == LivePreview.EmbedFrame(Str(res.embedUrl), "allow-scripts allow-same-origin"))
  {
  }

  /** The steps of `onAddByUrl` before the store: a throw on a non-string link, a message for an empty
      one or for one that does not resolve, or the record to add. */
  datatype ByUrl = ThrowsBeforeStart | Rejected(message: string) | Add(record: Record)

  function AddByUrl(values: Record, net: UrlResolver.Network): (r: ByUrl)
    ensures r.ThrowsBeforeStart? <==> !Trimmable(Get(values, "sourceUrl"))
    ensures Trimmable(Get(values, "sourceUrl")) && !Filled(Get(values, "sourceUrl"))
            ==> r == Rejected("Enter a URL or package command")
    ensures r.Rejected? ==> r.message != ""
    ensures r.Add? ==>
      && Filled(Get(values, "sourceUrl"))
      && var res := UrlResolver.ResolveInput(Trim(Get(values, "sourceUrl").s), net);
         res.error.None? && r.record == ByUrlRecord(res, Get(values, "category"))
  {
    match OptionalTrim(Get(values, "sourceUrl"))
    case None => ThrowsBeforeStart
    case Some(input) =>
      if !Truthy(input) then Rejected("Enter a URL or package command")
      else
        var res := UrlResolver.ResolveInput(input.s, net);
        if res.error.Some? && res.error.value != "" then Rejected(res.error.value)
        else Add(ByUrlRecord(res, Get(values, "category")))
  }

  /** A blank link is turned away before any request: the outcome does not depend on the network. */
  lemma BlankLinkMakesNoRequest(values: Record, net1: UrlResolver.Network, net2: UrlResolver.Network)
    requires Get(values, "sourceUrl").Str? && Trim(Get(values, "sourceUrl").s) == ""
    ensures AddByUrl(values, net1) == AddByUrl(values, net2) == Rejected("Enter a URL or package command")
  {
  }

  /** A link is added exactly when it is not blank and resolves without an error. */
  lemma LinkAddedIffResolved(values: Record, net: UrlResolver.Network)
    requires Get(values, "sourceUrl").Str?
    ensures var input := Trim(Get(values, "sourceUrl").s);
      AddByUrl(values, net).Add? <==> input != "" && UrlResolver.ResolveInput(input, net).error.None?
  {
    var input := Trim(Get(values, "sourceUrl").s);
    assert OptionalTrim(Get(values, "sourceUrl")) == Some(Str(input));
  }

  /** The store's side of `onAddByUrl`: the resolved record is added and the list page opened, or the
      message is shown and nothing changes. */
  method OnAddByUrl(store: CatalogStore, values: Record, net: UrlResolver.Network, f: Fresh) returns (outcome: Outcome)
    requires store.Valid()
    modifies store
    ensures store.Valid()
    ensures AddByUrl(values, net).Add? ==>
      store.stored == Added(old(store.stored), AddByUrl(values, net).record, f)
      && outcome == Outcome(Some(Success("Animation added")), Some("/"))
    ensures AddByUrl(values, net).Rejected? ==>
      store.stored == old(store.stored) && outcome == Outcome(Some(Error(AddByUrl(values, net).message)), None)
    ensures AddByUrl(values, net).ThrowsBeforeStart? ==>
      store.stored == old(store.stored) && outcome == Outcome(None, None)
  {
    var plan := AddByUrl(values, net);
    match plan
    case ThrowsBeforeStart =>
      outcome := Outcome(None, None);
    case Rejected(message) =>
      outcome := Outcome(Some(Error(message)), None);
    case Add(record) =>
      var created := store.AddExample(record, f);
      outcome := Outcome(Some(Success("Animation added")), Some("/"));
  }
}
