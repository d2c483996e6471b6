/** The example catalogue kept in local storage: the reads that clean it up, adding, updating and
    looking up examples, and the seeding of the built-in examples. */
module Store {
  import opened JsValues
  import opened Strings
  import opened Seqs

  // ---------------------------------------------------------------------------------------------
  // Looking records up

  /** The index of the first record whose `key` is strictly equal to `v` (`findIndex`, `find`). */
  function FindFirst(list: seq<Record>, key: string, v: Value): (r: Option<nat>)
    ensures r.Some? ==> r.value < |list| && Get(list[r.value], key) == v
    ensures r.Some? ==> forall j :: 0 <= j < r.value ==> Get(list[j], key) != v
    ensures r.None? <==> forall j :: 0 <= j < |list| ==> Get(list[j], key) != v
    decreases |list|
  {
    if list == [] then None
    else if Get(list[0], key) == v then Some(0)
    else match FindFirst(list[1..], key, v)
      case None => None
      case Some(i) => Some(i + 1)
  }

  /** `crypto.randomUUID()` and `new Date().toISOString()` for one new record. */
  datatype Fresh = Fresh(id: string, createdAt: string)

  /** `{ ...example, id, createdAt }` */
  function WithIdentity(example: Record, f: Fresh): (r: Record)
    ensures Get(r, "id") == Str(f.id) && Get(r, "createdAt") == Str(f.createdAt)
    ensures forall k :: k != "id" && k != "createdAt" ==> Get(r, k) == Get(example, k)
  {
    example + map["id" := Str(f.id), "createdAt" := Str(f.createdAt)]
  }

  /** Writing a list through `JSON.stringify` and reading it back. */
  function CleanAll(list: seq<Record>): (r: seq<Record>)
    ensures |r| == |list|
    ensures forall i :: 0 <= i < |r| ==> IsClean(r[i])
    ensures forall i, k :: 0 <= i < |r| ==> Get(r[i], k) == Get(list[i], k)
  {
    seq(|list|, i requires 0 <= i < |list| => Clean(list[i]))
  }

  ghost predicate AllClean(list: seq<Record>) {
    forall i :: 0 <= i < |list| ==> IsClean(list[i])
  }

  lemma CleanAllOfClean(list: seq<Record>)
    requires AllClean(list)
    ensures CleanAll(list) == list
  {
    forall i | 0 <= i < |list| ensures CleanAll(list)[i] == list[i] {
      CleanOfCleanIsIdentity(list[i]);
    }
  }

  /** The stored list after `addExample`: one record appended, carrying the caller's fields and a
      fresh identity; every earlier record unchanged. */
  function Added(list: seq<Record>, example: Record, f: Fresh): (r: seq<Record>)
    ensures |r| == |list| + 1 && r[..|list|] == list
    ensures Get(r[|list|], "id") == Str(f.id) && Get(r[|list|], "createdAt") == Str(f.createdAt)
    ensures forall k :: k != "id" && k != "createdAt" ==> Get(r[|list|], k) == Get(example, k)
  {
    list + [Clean(WithIdentity(example, f))]
  }

  /** The stored list after `updateExample`: nothing changes when no record has the id; otherwise the
      first record with the id takes the payload's fields over its own and no other record changes. */
  function Updated(list: seq<Record>, id: Value, payload: Record): (r: seq<Record>)
    ensures FindFirst(list, "id", id).None? ==> r == list
    ensures |r| == |list|
    ensures FindFirst(list, "id", id).Some? ==>
      var i := FindFirst(list, "id", id).value;
      && (forall j :: 0 <= j < |list| && j != i ==> r[j] == list[j])
      && (forall k :: Get(r[i], k) == if k in payload then payload[k] else Get(list[i], k))
  {
    match FindFirst(list, "id", id)
    case None => list
    case Some(i) => list[i := Clean(list[i] + payload)]
  }

  /** A record added with an id no earlier record carries is what a lookup by that id finds. */
  lemma AddedIsFoundById(list: seq<Record>, example: Record, f: Fresh)
    requires forall j :: 0 <= j < |list| ==> Get(list[j], "id") != Str(f.id)
    ensures FindFirst(Added(list, example, f), "id", Str(f.id)) == Some(|list|)
  {
    var r := Added(list, example, f);
    assert forall j :: 0 <= j < |list| ==> r[j] == list[j];
  }

  // ---------------------------------------------------------------------------------------------
  // Removed titles

  /** REMOVED_TITLES */
  const RemovedTitles: seq<string> := ["Flow Fields", "Matrix/Digital rain", "Matrix/Digital tain",
    "Generative Noise/Grain", "Interactive Fluids", "Aurora Borealis", "Tabs"]

  /** `isRemovedTitle`: a non-empty string title whose trimmed, lower-cased form is that of one of the
      removed titles. */
  predicate IsRemovedTitle(title: Value) {
    && title.Str? && title.s != ""
    && exists i :: 0 <= i < |RemovedTitles| && Lower(Trim(RemovedTitles[i])) == Lower(Trim(title.s))
  }

  lemma RemovedTitlesAreNotBlank()
    ensures forall i :: 0 <= i < |RemovedTitles| ==> Trim(RemovedTitles[i]) != ""
  {
    forall i | 0 <= i < |RemovedTitles| ensures Trim(RemovedTitles[i]) != "" {
      assert !IsSpace(RemovedTitles[i][0]);
    }
  }

  /** Whitespace around a title does not change whether it is removed. */
  lemma RemovedTitleIgnoresSurroundingSpace(pre: string, s: string, post: string)
    requires AllSpace(pre) && AllSpace(post)
    ensures IsRemovedTitle(Str(pre + s + post)) <==> IsRemovedTitle(Str(s))
  {
    TrimIgnoresSurroundingSpace(pre, s, post);
    RemovedTitlesAreNotBlank();
    if s == "" {
      assert Trim(s) == "";
    }
  }

  /** Letter case does not change whether a title is removed. */
  lemma RemovedTitleIgnoresCase(s: string)
    ensures IsRemovedTitle(Str(Lower(s))) <==> IsRemovedTitle(Str(s))
  {
    TrimOfLower(s);
    LowerIdempotent(Trim(s));
  }

  /** `list.filter((ex) => !isRemovedTitle(ex.title))` */
  function WithoutRemoved(list: seq<Record>): seq<Record>
    decreases |list|
  {
    if list == [] then []
    else if IsRemovedTitle(Get(list[0], "title")) then WithoutRemoved(list[1..])
    else [list[0]] + WithoutRemoved(list[1..])
  }

  /** The filter keeps, in order, exactly the records whose title is not removed. */
  lemma {:induction false} WithoutRemovedSelects(list: seq<Record>)
    ensures IsSubsequence(WithoutRemoved(list), list)
    ensures forall r :: r in WithoutRemoved(list) ==> !IsRemovedTitle(Get(r, "title"))
    ensures forall r :: r in list && !IsRemovedTitle(Get(r, "title")) ==> r in WithoutRemoved(list)
    decreases |list|
  {
    if list != [] {
      WithoutRemovedSelects(list[1..]);
      assert list == [list[0]] + list[1..];
      if IsRemovedTitle(Get(list[0], "title")) {
        DropHead(list[0], WithoutRemoved(list[1..]), list[1..]);
      } else {
        KeepHead(list[0], WithoutRemoved(list[1..]), list[1..]);
      }
    }
  }

  // ---------------------------------------------------------------------------------------------
  // De-duplication by title

  /** DEDUPE_TITLES */
  const DedupeTitles: seq<string> := ["Generative Noise"]

  /** `title && title.trim()` when it is one of the de-duplicated titles. */
  function TitleKey(title: Value): Option<string> {
    if title.Str? && Trim(title.s) in DedupeTitles then Some(Trim(title.s)) else None
  }

  function KeyOf(r: Record): Option<string> {
    TitleKey(Get(r, "title"))
  }

  /** The filter of `dedupeByTitle`, continued from a set of titles already seen. */
  function DedupeFrom(list: seq<Record>, seen: set<string>): seq<Record>
    decreases |list|
  {
    if list == [] then []
    else
      var k := KeyOf(list[0]);
      if k.Some? && k.value in seen then DedupeFrom(list[1..], seen)
      else [list[0]] + DedupeFrom(list[1..], if k.Some? then seen + {k.value} else seen)
  }

  /** What `dedupeByTitle` returns. */
  function Dedupe(list: seq<Record>): seq<Record> {
    DedupeFrom(list, {})
  }

  /** No two records share a de-duplicated title. */
  ghost predicate AtMostOnePerKey(list: seq<Record>) {
    forall i, j :: 0 <= i < j < |list| && KeyOf(list[i]).Some? ==> KeyOf(list[i]) != KeyOf(list[j])
  }

  /** The records without a de-duplicated title, in order. */
  function Unkeyed(list: seq<Record>): seq<Record>
    decreases |list|
  {
    if list == [] then []
    else (if KeyOf(list[0]).None? then [list[0]] else []) + Unkeyed(list[1..])
  }

  /** The first record whose de-duplicated title is `k`. */
  function FirstWithKey(list: seq<Record>, k: string): Option<Record>
    decreases |list|
  {
    if list == [] then None
    else if KeyOf(list[0]) == Some(k) then Some(list[0])
    else FirstWithKey(list[1..], k)
  }

  lemma DedupeFromSelects(list: seq<Record>, seen: set<string>)
    ensures IsSubsequence(DedupeFrom(list, seen), list)
    ensures AtMostOnePerKey(DedupeFrom(list, seen))
    ensures forall r :: r in DedupeFrom(list, seen) && KeyOf(r).Some? ==> KeyOf(r).value !in seen
    ensures Unkeyed(DedupeFrom(list, seen)) == Unkeyed(list)
    ensures forall k :: k !in seen ==> FirstWithKey(DedupeFrom(list, seen), k) == FirstWithKey(list, k)
  {
    DedupeFromIsSubsequence(list, seen);
    DedupeFromKeysUnseen(list, seen);
    DedupeFromKeepsOthers(list, seen);
  }

  lemma {:induction false} DedupeFromIsSubsequence(list: seq<Record>, seen: set<string>)
    ensures IsSubsequence(DedupeFrom(list, seen), list)
    decreases |list|
  {
    if list != [] {
      var k := KeyOf(list[0]);
      assert list == [list[0]] + list[1..];
      if k.Some? && k.value in seen {
        DedupeFromIsSubsequence(list[1..], seen);
        DropHead(list[0], DedupeFrom(list[1..], seen), list[1..]);
      } else {
        var seen' := if k.Some? then seen + {k.value} else seen;
        DedupeFromIsSubsequence(list[1..], seen');
        KeepHead(list[0], DedupeFrom(list[1..], seen'), list[1..]);
      }
    }
  }

  lemma {:induction false} DedupeFromKeysUnseen(list: seq<Record>, seen: set<string>)
    ensures AtMostOnePerKey(DedupeFrom(list, seen))
    ensures forall r :: r in DedupeFrom(list, seen) && KeyOf(r).Some? ==> KeyOf(r).value !in seen
    decreases |list|
  {
    if list != [] {
      var k := KeyOf(list[0]);
      if k.Some? && k.value in seen {
        DedupeFromKeysUnseen(list[1..], seen);
      } else {
        var seen' := if k.Some? then seen + {k.value} else seen;
        var rest := DedupeFrom(list[1..], seen');
        DedupeFromKeysUnseen(list[1..], seen');
        var out := [list[0]] + rest;
        assert out[1..] == rest;
        forall i, j | 0 <= i < j < |out| && KeyOf(out[i]).Some? ensures KeyOf(out[i]) != KeyOf(out[j]) {
          if i == 0 {
            assert out[j] in rest;
          }
        }
      }
    }
  }

  lemma {:induction false} DedupeFromKeepsOthers(list: seq<Record>, seen: set<string>)
    ensures Unkeyed(DedupeFrom(list, seen)) == Unkeyed(list)
    ensures forall k :: k !in seen ==> FirstWithKey(DedupeFrom(list, seen), k) == FirstWithKey(list, k)
    decreases |list|
  {
    if list != [] {
      var k := KeyOf(list[0]);
      if k.Some? && k.value in seen {
        DedupeFromKeepsOthers(list[1..], seen);
      } else {
        var seen' := if k.Some? then seen + {k.value} else seen;
        var rest := DedupeFrom(list[1..], seen');
        DedupeFromKeepsOthers(list[1..], seen');
        assert ([list[0]] + rest)[1..] == rest;
      }
    }
  }

  /** `dedupeByTitle` keeps a subsequence of its input with at most one record per de-duplicated
      title, keeps every other record in order, and keeps the first record of each such title. */
  lemma DedupeSelects(list: seq<Record>)
    ensures IsSubsequence(Dedupe(list), list)
    ensures AtMostOnePerKey(Dedupe(list))
    ensures Unkeyed(Dedupe(list)) == Unkeyed(list)
    ensures forall k :: FirstWithKey(Dedupe(list), k) == FirstWithKey(list, k)
  {
    DedupeFromSelects(list, {});
  }

  lemma {:induction false} DedupeFromOfDistinct(list: seq<Record>, seen: set<string>)
    requires AtMostOnePerKey(list)
    requires forall i :: 0 <= i < |list| && KeyOf(list[i]).Some? ==> KeyOf(list[i]).value !in seen
    ensures DedupeFrom(list, seen) == list
    decreases |list|
  {
    if list != [] {
      var k := KeyOf(list[0]);
      var seen' := if k.Some? then seen + {k.value} else seen;
      forall i | 0 <= i < |list[1..]| && KeyOf(list[1..][i]).Some? ensures KeyOf(list[1..][i]).value !in seen' {
        assert list[1..][i] == list[i + 1];
      }
      DedupeFromOfDistinct(list[1..], seen');
    }
  }

  /** A list with at most one record per de-duplicated title is left as it is. */
  lemma DedupeOfDistinct(list: seq<Record>)
    requires AtMostOnePerKey(list)
    ensures Dedupe(list) == list
  {
    DedupeFromOfDistinct(list, {});
  }

  /** De-duplicating twice is de-duplicating once. */
  lemma DedupeIdempotent(list: seq<Record>)
    ensures Dedupe(Dedupe(list)) == Dedupe(list)
  {
    DedupeSelects(list);
    DedupeOfDistinct(Dedupe(list));
  }

  // ---------------------------------------------------------------------------------------------
  // Reading the catalogue

  /** What `getExamples` returns for the stored list. */
  function Examples(stored: seq<Record>): seq<Record> {
    Dedupe(WithoutRemoved(stored))
  }

  /** `getExamples` returns records of the stored list, in order, none with a removed title and at
      most one per de-duplicated title. */
  lemma ExamplesAreCleanedUp(stored: seq<Record>)
    ensures IsSubsequence(Examples(stored), stored)
    ensures forall r :: r in Examples(stored) ==> !IsRemovedTitle(Get(r, "title"))
    ensures AtMostOnePerKey(Examples(stored))
  {
    WithoutRemovedSelects(stored);
    DedupeSelects(WithoutRemoved(stored));
    SubsequenceTransitive(Examples(stored), WithoutRemoved(stored), stored);
    SubsequenceMembers(Examples(stored), WithoutRemoved(stored));
  }

  // ---------------------------------------------------------------------------------------------
  // Seeding the built-in examples

  /** Text-effect seeds refresh their code; background and button seeds refresh the fields they define. */
  datatype SeedGroup = TextGroup | ComponentGroup

  datatype Seed = Seed(group: SeedGroup, record: Record)

  /** The seed records of the catalogue, the groups in the order they are visited (text effects,
      backgrounds, buttons). Their payloads are data and not part of this model. */
  datatype Seeds = Seeds(avatar: Record, cursor: Record, groups: seq<Seed>)

  /** The seeds as the catalogue arranges them. */
  function ArrangeSeeds(avatar: Record, cursor: Record, text: seq<Record>, background: seq<Record>,
                        button: seq<Record>): (r: Seeds)
    ensures |r.groups| == |text| + |background| + |button|
    ensures forall i :: 0 <= i < |text| ==> r.groups[i] == Seed(TextGroup, text[i])
    ensures forall i :: |text| <= i < |r.groups| ==> r.groups[i] == Seed(ComponentGroup, (background + button)[i - |text|])
  {
    var components := background + button;
    Seeds(avatar, cursor,
          seq(|text|, i requires 0 <= i < |text| => Seed(TextGroup, text[i]))
          + seq(|components|, i requires 0 <= i < |components| => Seed(ComponentGroup, components[i])))
  }

  /** One fresh identity per seed, in the order the seeds are visited. */
  function SeedCount(seeds: Seeds): nat {
    2 + |seeds.groups|
  }

  const AvatarTitle := "Avatar Group"
  const CursorTitle := "Cursor"

  /** The fields refreshed on an existing Avatar Group or Cursor record. */
  function ShowcasePayload(seed: Record): Record {
    map["description" := Get(seed, "description"), "sourceUrl" := Get(seed, "sourceUrl"),
        "codeHtml" := Get(seed, "codeHtml"), "codeCss" := Get(seed, "codeCss"), "codeJs" := Get(seed, "codeJs")]
  }

  /** The fields refreshed on an existing text-effect record. */
  function CodePayload(seed: Record): Record {
    map["codeHtml" := Get(seed, "codeHtml"), "codeCss" := Get(seed, "codeCss"), "codeJs" := Get(seed, "codeJs")]
  }

  const ComponentFields: seq<string> :=
    ["codeHtml", "codeCss", "codeJs", "previewType", "componentKey", "componentProps"]

  /** The fields refreshed on an existing background or button record: those the seed defines. */
  function DefinedPayload(seed: Record): (r: Record)
    ensures forall k :: k in r <==> k in ComponentFields && Get(seed, k) != Undef
  {
    map k | k in ComponentFields && Get(seed, k) != Undef :: Get(seed, k)
  }

  /** The Avatar Group step, over the cleaned list. */
  function AvatarStep(cleaned: seq<Record>, seed: Record, f: Fresh): seq<Record> {
    match FindFirst(cleaned, "title", Str(AvatarTitle))
    case Some(i) => Updated(cleaned, Get(cleaned[i], "id"), ShowcasePayload(seed))
    case None => if |cleaned| == 0 then Added(cleaned, seed, f) else cleaned
  }

  /** The Cursor step: the record is looked up in the cleaned list, the update and the add act on the
      current one. */
  function CursorStep(cleaned: seq<Record>, current: seq<Record>, seed: Record, f: Fresh): seq<Record> {
    match FindFirst(cleaned, "title", Str(CursorTitle))
    case Some(i) => Updated(current, Get(cleaned[i], "id"), ShowcasePayload(seed))
    case None => Added(current, seed, f)
  }

  /** The Avatar Group and Cursor steps. */
  function Showcase(cleaned: seq<Record>, seeds: Seeds, forAvatar: Fresh, forCursor: Fresh): seq<Record> {
    CursorStep(cleaned, AvatarStep(cleaned, seeds.avatar, forAvatar), seeds.cursor, forCursor)
  }

  /** One seed of a group: the stored record with the seed's exact title is refreshed, or the seed is
      added when there is none. */
  function SeedStep(current: seq<Record>, seed: Seed, f: Fresh): seq<Record> {
    match FindFirst(current, "title", Get(seed.record, "title"))
    case Some(i) =>
      if seed.group == TextGroup then Updated(current, Get(current[i], "id"), CodePayload(seed.record))
      else if |DefinedPayload(seed.record)| > 0 then
        Updated(current, Get(current[i], "id"), DefinedPayload(seed.record))
      else current
    case None => Added(current, seed.record, f)
  }

  /** The `forEach` loops over the groups, one after the other. */
  function SeedFold(current: seq<Record>, seeds: seq<Seed>, issued: seq<Fresh>): seq<Record>
    requires |issued| == |seeds|
    decreases |seeds|
  {
    if seeds == [] then current
    else
      var n := |seeds| - 1;
      SeedStep(SeedFold(current, seeds[..n], issued[..n]), seeds[n], issued[n])
  }

  /** The stored list after `ensureSeedExample`: the stored list cleaned up as `getExamples` does, then
      the Avatar Group and Cursor steps, then the groups. */
  function Seeded(stored: seq<Record>, seeds: Seeds, issued: seq<Fresh>): seq<Record>
    requires |issued| == SeedCount(seeds)
  {
    SeedFold(Showcase(Examples(stored), seeds, issued[0], issued[1]), seeds.groups, issued[2..])
  }

  // ---------------------------------------------------------------------------------------------
  // What seeding adds: the identities (id, title) of the stored records

  function Identity(r: Record): (Value, Value) {
    (Get(r, "id"), Get(r, "title"))
  }

  function Identities(list: seq<Record>): (r: seq<(Value, Value)>)
    ensures |r| == |list| && forall i :: 0 <= i < |list| ==> r[i] == Identity(list[i])
  {
    seq(|list|, i requires 0 <= i < |list| => Identity(list[i]))
  }

  /** An update whose payload leaves `id` and `title` alone keeps every identity. */
  lemma UpdatedKeepsIdentities(list: seq<Record>, id: Value, payload: Record)
    requires "id" !in payload && "title" !in payload
    ensures Identities(Updated(list, id, payload)) == Identities(list)
  {
  }

  /** An add appends the identity of the new record. */
  lemma AddedAppendsIdentity(list: seq<Record>, example: Record, f: Fresh)
    ensures Identities(Added(list, example, f)) == Identities(list) + [(Str(f.id), Get(example, "title"))]
  {
  }

  /** A group seed is added exactly when no stored record carries its title; otherwise the records keep
      their identities and their number. */
  lemma SeedStepIdentities(current: seq<Record>, seed: Seed, f: Fresh)
    ensures Identities(SeedStep(current, seed, f))
         == Identities(current)
            + (if FindFirst(current, "title", Get(seed.record, "title")).Some? then []
               else [(Str(f.id), Get(seed.record, "title"))])
  {
    match FindFirst(current, "title", Get(seed.record, "title"))
    case Some(i) =>
      SeedPayloadsKeepIdentity(seed.record);
      var id := Get(current[i], "id");
      UpdatedKeepsIdentities(current, id, CodePayload(seed.record));
      UpdatedKeepsIdentities(current, id, DefinedPayload(seed.record));
    case None =>
      AddedAppendsIdentity(current, seed.record, f);
  }

  /** Neither refresh payload touches `id` or `title`. */
  lemma SeedPayloadsKeepIdentity(seed: Record)
    ensures "id" !in CodePayload(seed) && "title" !in CodePayload(seed)
    ensures "id" !in DefinedPayload(seed) && "title" !in DefinedPayload(seed)
  {
    assert "id" !in ComponentFields && "title" !in ComponentFields;
  }

  /** The Avatar Group seed is added only to an empty cleaned list. */
  lemma AvatarStepIdentities(cleaned: seq<Record>, seed: Record, f: Fresh)
    ensures Identities(AvatarStep(cleaned, seed, f))
         == Identities(cleaned) + (if |cleaned| == 0 then [(Str(f.id), Get(seed, "title"))] else [])
  {
    match FindFirst(cleaned, "title", Str(AvatarTitle))
    case Some(i) =>
      UpdatedKeepsIdentities(cleaned, Get(cleaned[i], "id"), ShowcasePayload(seed));
    case None =>
      AddedAppendsIdentity(cleaned, seed, f);
  }

  /** The Cursor seed is added exactly when the cleaned list has no Cursor record. */
  lemma CursorStepIdentities(cleaned: seq<Record>, current: seq<Record>, seed: Record, f: Fresh)
    ensures Identities(CursorStep(cleaned, current, seed, f))
         == Identities(current)
            + (if FindFirst(cleaned, "title", Str(CursorTitle)).Some? then [] else [(Str(f.id), Get(seed, "title"))])
  {
    match FindFirst(cleaned, "title", Str(CursorTitle))
    case Some(i) =>
      UpdatedKeepsIdentities(current, Get(cleaned[i], "id"), ShowcasePayload(seed));
    case None =>
      AddedAppendsIdentity(current, seed, f);
  }

  // ---------------------------------------------------------------------------------------------
  // A second seeding adds nothing

  /** A title seeding can add without giving the clean-up work: not removed, and a de-duplicated
      title only in its exact form. */
  predicate SafeTitle(t: Value) {
    !IsRemovedTitle(t) && (TitleKey(t).Some? ==> t == Str(TitleKey(t).value))
  }

  /** Identities that the clean-up of `getExamples` leaves as they are. */
  ghost predicate Tidy(ids: seq<(Value, Value)>) {
    && (forall i :: 0 <= i < |ids| ==> SafeTitle(ids[i].1))
    && (forall i, j :: 0 <= i < j < |ids| && TitleKey(ids[i].1).Some? ==> TitleKey(ids[i].1) != TitleKey(ids[j].1))
  }

  ghost predicate HasTitle(ids: seq<(Value, Value)>, t: Value) {
    exists i :: 0 <= i < |ids| && ids[i].1 == t
  }

  /** Every seed's title is among the identities. */
  ghost predicate HasSeedTitles(ids: seq<(Value, Value)>, seeds: seq<Seed>) {
    forall i :: 0 <= i < |seeds| ==> HasTitle(ids, Get(seeds[i].record, "title"))
  }

  /** Every seed's title is safe. */
  ghost predicate SafeGroup(seeds: seq<Seed>) {
    forall i :: 0 <= i < |seeds| ==> SafeTitle(Get(seeds[i].record, "title"))
  }

  /** The seed titles seeding relies on: the Cursor seed carries the title it is looked up by, every
      title is safe, and the Avatar Group and Cursor titles are not de-duplicated ones. */
  ghost predicate SafeSeeds(seeds: Seeds) {
    && Get(seeds.cursor, "title") == Str(CursorTitle)
    && SafeTitle(Get(seeds.avatar, "title")) && TitleKey(Get(seeds.avatar, "title")).None?
    && SafeTitle(Get(seeds.cursor, "title")) && TitleKey(Get(seeds.cursor, "title")).None?
    && SafeGroup(seeds.groups)
  }

  lemma FoundIffHasTitle(list: seq<Record>, t: Value)
    ensures FindFirst(list, "title", t).Some? <==> HasTitle(Identities(list), t)
  {
    if FindFirst(list, "title", t).Some? {
      assert Identities(list)[FindFirst(list, "title", t).value].1 == t;
    }
  }

  lemma PrefixKeepsTitles(a: seq<(Value, Value)>, b: seq<(Value, Value)>, t: Value)
    requires |b| >= |a| && b[..|a|] == a
    requires HasTitle(a, t)
    ensures HasTitle(b, t)
  {
    var j :| 0 <= j < |a| && a[j].1 == t;
    assert b[j] == a[j];
  }

  lemma TidyAppend(ids: seq<(Value, Value)>, id: Value, t: Value)
    requires Tidy(ids) && SafeTitle(t)
    requires TitleKey(t).Some? ==> !HasTitle(ids, t)
    ensures Tidy(ids + [(id, t)])
  {
    var ids' := ids + [(id, t)];
    forall i, j | 0 <= i < j < |ids'| && TitleKey(ids'[i].1).Some?
      ensures TitleKey(ids'[i].1) != TitleKey(ids'[j].1)
    {
      if j == |ids| {
        assert ids'[i] == ids[i];
        if TitleKey(t).Some? {
          assert ids[i].1 != t;
        }
      }
    }
  }

  lemma {:induction false} WithoutRemovedOfKept(list: seq<Record>)
    requires forall i :: 0 <= i < |list| ==> !IsRemovedTitle(Get(list[i], "title"))
    ensures WithoutRemoved(list) == list
    decreases |list|
  {
    if list != [] {
      assert forall i :: 0 <= i < |list[1..]| ==> list[1..][i] == list[i + 1];
      WithoutRemovedOfKept(list[1..]);
    }
  }

  /** A tidy list is its own `getExamples` clean-up. */
  lemma ExamplesOfTidy(list: seq<Record>)
    requires Tidy(Identities(list))
    ensures Examples(list) == list
  {
    WithoutRemovedOfKept(list);
    DedupeOfDistinct(list);
  }

  /** The clean-up of a list whose de-duplicated titles are exact is tidy. */
  lemma ExamplesAreTidy(stored: seq<Record>)
    requires forall i :: 0 <= i < |stored| && KeyOf(stored[i]).Some? ==> Get(stored[i], "title") == Str(KeyOf(stored[i]).value)
    ensures Tidy(Identities(Examples(stored)))
  {
    var cleaned := Examples(stored);
    ExamplesAreCleanedUp(stored);
    SubsequenceMembers(cleaned, stored);
    forall i | 0 <= i < |cleaned| ensures SafeTitle(Identities(cleaned)[i].1) {
      assert cleaned[i] in cleaned;
      assert cleaned[i] in stored;
    }
  }

  /** Seeding one safe title keeps the list tidy, keeps the identities already there, and leaves the
      seed's title present. */
  lemma SeedStepFirstTime(current: seq<Record>, seed: Seed, f: Fresh)
    requires Tidy(Identities(current)) && SafeTitle(Get(seed.record, "title"))
    ensures var r := SeedStep(current, seed, f);
      && Tidy(Identities(r))
      && |r| >= |current| && Identities(r)[..|current|] == Identities(current)
      && HasTitle(Identities(r), Get(seed.record, "title"))
  {
    var t := Get(seed.record, "title");
    var r := SeedStep(current, seed, f);
    SeedStepIdentities(current, seed, f);
    FoundIffHasTitle(current, t);
    if HasTitle(Identities(current), t) {
      PrefixKeepsTitles(Identities(current), Identities(r), t);
    } else {
      TidyAppend(Identities(current), Str(f.id), t);
      assert Identities(r)[|current|].1 == t;
    }
  }

  /** Titles present before an extension stay present, and the last seed's title was just made
      present. */
  lemma AllTitlesKept(before: seq<(Value, Value)>, after: seq<(Value, Value)>, seeds: seq<Seed>, done: seq<Seed>)
    requires |seeds| > 0 && done == seeds[..|seeds| - 1]
    requires |after| >= |before| && after[..|before|] == before
    requires HasSeedTitles(before, done)
    requires HasTitle(after, Get(seeds[|seeds| - 1].record, "title"))
    ensures HasSeedTitles(after, seeds)
  {
    forall i | 0 <= i < |seeds| ensures HasTitle(after, Get(seeds[i].record, "title")) {
      if i < |seeds| - 1 {
        assert done[i] == seeds[i];
        PrefixKeepsTitles(before, after, Get(seeds[i].record, "title"));
      }
    }
  }

  /** Seeding safe titles keeps the list tidy, keeps the identities already there, and leaves every
      seed's title present. */
  lemma {:induction false} SeedFoldFirstTime(current: seq<Record>, seeds: seq<Seed>, issued: seq<Fresh>)
    requires |issued| == |seeds|
    requires Tidy(Identities(current)) && SafeGroup(seeds)
    ensures var r := SeedFold(current, seeds, issued);
      && Tidy(Identities(r))
      && |r| >= |current| && Identities(r)[..|current|] == Identities(current)
      && HasSeedTitles(Identities(r), seeds)
    decreases |seeds|
  {
    if seeds != [] {
      var n := |seeds| - 1;
      var before := SeedFold(current, seeds[..n], issued[..n]);
      assert forall i :: 0 <= i < n ==> seeds[..n][i] == seeds[i];
      assert SafeGroup(seeds[..n]);
      SeedFoldFirstTime(current, seeds[..n], issued[..n]);
      var r := SeedStep(before, seeds[n], issued[n]);
      SeedStepFirstTime(before, seeds[n], issued[n]);
      assert SeedFold(current, seeds, issued) == r;
      PrefixOfPrefix(Identities(r), Identities(before), |current|);
      AllTitlesKept(Identities(before), Identities(r), seeds, seeds[..n]);
    }
  }

  /** Seeding titles that are all present keeps every identity: nothing is added. */
  lemma {:induction false} SeedFoldWhenPresent(current: seq<Record>, seeds: seq<Seed>, issued: seq<Fresh>)
    requires |issued| == |seeds|
    requires HasSeedTitles(Identities(current), seeds)
    ensures Identities(SeedFold(current, seeds, issued)) == Identities(current)
    decreases |seeds|
  {
    if seeds != [] {
      var n := |seeds| - 1;
      var before := SeedFold(current, seeds[..n], issued[..n]);
      assert forall i :: 0 <= i < n ==> seeds[..n][i] == seeds[i];
      SeedFoldWhenPresent(current, seeds[..n], issued[..n]);
      SeedStepIdentities(before, seeds[n], issued[n]);
      FoundIffHasTitle(before, Get(seeds[n].record, "title"));
    }
  }

  /** The Avatar Group step keeps a tidy list tidy and keeps its identities in front. */
  lemma AvatarStepFirstTime(cleaned: seq<Record>, seed: Record, f: Fresh)
    requires Tidy(Identities(cleaned)) && SafeTitle(Get(seed, "title")) && TitleKey(Get(seed, "title")).None?
    ensures var r := AvatarStep(cleaned, seed, f);
      && Tidy(Identities(r))
      && |r| >= |cleaned| && Identities(r)[..|cleaned|] == Identities(cleaned)
  {
    AvatarStepIdentities(cleaned, seed, f);
    if |cleaned| == 0 {
      TidyAppend(Identities(cleaned), Str(f.id), Get(seed, "title"));
    }
  }

  /** The Cursor step keeps a tidy list tidy and leaves the Cursor title present, provided every
      identity of the cleaned list is still in front of the current one. */
  lemma CursorStepFirstTime(cleaned: seq<Record>, current: seq<Record>, seed: Record, f: Fresh)
    requires Tidy(Identities(current)) && Get(seed, "title") == Str(CursorTitle)
    requires SafeTitle(Get(seed, "title")) && TitleKey(Get(seed, "title")).None?
    requires |current| >= |cleaned| && Identities(current)[..|cleaned|] == Identities(cleaned)
    ensures var r := CursorStep(cleaned, current, seed, f);
      Tidy(Identities(r)) && HasTitle(Identities(r), Str(CursorTitle))
  {
    CursorStepIdentities(cleaned, current, seed, f);
    FoundIffHasTitle(cleaned, Str(CursorTitle));
    if FindFirst(cleaned, "title", Str(CursorTitle)).None? {
      AppendUnkeyedTitle(Identities(current), Str(f.id), Str(CursorTitle));
    } else {
      PrefixKeepsTitles(Identities(cleaned), Identities(current), Str(CursorTitle));
    }
  }

  /** Appending a safe title that is not de-duplicated keeps identities tidy and makes it present. */
  lemma AppendUnkeyedTitle(ids: seq<(Value, Value)>, id: Value, t: Value)
    requires Tidy(ids) && SafeTitle(t) && TitleKey(t).None?
    ensures Tidy(ids + [(id, t)]) && HasTitle(ids + [(id, t)], t)
  {
    TidyAppend(ids, id, t);
    assert (ids + [(id, t)])[|ids|].1 == t;
  }

  /** The Avatar Group and Cursor steps over a tidy cleaned list keep it tidy and leave the Cursor
      title present. */
  lemma ShowcaseFirstTime(cleaned: seq<Record>, seeds: Seeds, forAvatar: Fresh, forCursor: Fresh)
    requires Tidy(Identities(cleaned)) && SafeSeeds(seeds)
    ensures var r := Showcase(cleaned, seeds, forAvatar, forCursor);
      Tidy(Identities(r)) && HasTitle(Identities(r), Str(CursorTitle))
  {
    AvatarStepFirstTime(cleaned, seeds.avatar, forAvatar);
    CursorStepFirstTime(cleaned, AvatarStep(cleaned, seeds.avatar, forAvatar), seeds.cursor, forCursor);
  }

  /** Over a non-empty list holding the Cursor title, the Avatar Group and Cursor steps add nothing. */
  lemma ShowcaseWhenPresent(list: seq<Record>, seeds: Seeds, forAvatar: Fresh, forCursor: Fresh)
    requires |list| > 0 && HasTitle(Identities(list), Str(CursorTitle))
    ensures Identities(Showcase(list, seeds, forAvatar, forCursor)) == Identities(list)
  {
    AvatarStepIdentities(list, seeds.avatar, forAvatar);
    CursorStepIdentities(list, AvatarStep(list, seeds.avatar, forAvatar), seeds.cursor, forCursor);
    FoundIffHasTitle(list, Str(CursorTitle));
  }

  /** After one seeding the list is tidy and holds the Cursor title and every group seed's title. */
  lemma FirstSeeding(stored: seq<Record>, seeds: Seeds, issued: seq<Fresh>)
    requires |issued| == SeedCount(seeds) && SafeSeeds(seeds)
    requires forall i :: 0 <= i < |stored| && KeyOf(stored[i]).Some? ==> Get(stored[i], "title") == Str(KeyOf(stored[i]).value)
    ensures var once := Seeded(stored, seeds, issued);
      && Tidy(Identities(once))
      && HasTitle(Identities(once), Str(CursorTitle))
      && HasSeedTitles(Identities(once), seeds.groups)
  {
    ExamplesAreTidy(stored);
    var shown := Showcase(Examples(stored), seeds, issued[0], issued[1]);
    ShowcaseFirstTime(Examples(stored), seeds, issued[0], issued[1]);
    SeedFoldFirstTime(shown, seeds.groups, issued[2..]);
    PrefixKeepsTitles(Identities(shown), Identities(SeedFold(shown, seeds.groups, issued[2..])), Str(CursorTitle));
  }

  /** `ensureSeedExample`, called a second time, adds nothing: the stored records keep their number,
      their ids and their titles. This holds when the titles already stored under a de-duplicated
      title carry it exactly. */
  lemma SecondSeedingAddsNothing(stored: seq<Record>, seeds: Seeds, first: seq<Fresh>, second: seq<Fresh>)
    requires |first| == SeedCount(seeds) && |second| == SeedCount(seeds) && SafeSeeds(seeds)
    requires forall i :: 0 <= i < |stored| && KeyOf(stored[i]).Some? ==> Get(stored[i], "title") == Str(KeyOf(stored[i]).value)
    ensures var once := Seeded(stored, seeds, first);
      Identities(Seeded(once, seeds, second)) == Identities(once)
  {
    var once := Seeded(stored, seeds, first);
    FirstSeeding(stored, seeds, first);
    ExamplesOfTidy(once);
    var shown := Showcase(once, seeds, second[0], second[1]);
    ShowcaseWhenPresent(once, seeds, second[0], second[1]);
    SeedFoldWhenPresent(shown, seeds.groups, second[2..]);
  }

  // ---------------------------------------------------------------------------------------------
  // The catalogue's own seeds

  const TextEffectTitles: seq<string> :=
    ["Gradient text", "Typewriter", "Fade in", "Glow", "Letter spacing", "Shake", "Slide in", "Scale in"]

  const BackgroundEffectTitles: seq<string> :=
    ["Bubble", "Gravity Star", "Mesh Gradient", "Breathing Glass", "Infinite Marquee", "Grid Pulse",
     "Particle Constellation", "Matrix", "Generative Noise", "Topographic Lines", "Starfield Wormhole"]

  const ButtonInteractionTitles: seq<string> := ["Theme Toggle"]

  /** A title without surrounding whitespace that differs from every removed title in length or in
      its lower-cased first character. */
  predicate UnlikeRemoved(t: string) {
    && t != "" && !IsSpace(t[0]) && !IsSpace(t[|t| - 1])
    && forall i :: 0 <= i < |RemovedTitles| ==>
         |RemovedTitles[i]| != |t| || LowerChar(RemovedTitles[i][0]) != LowerChar(t[0])
  }

  lemma RemovedTitlesAreTrimmed()
    ensures forall i :: 0 <= i < |RemovedTitles| ==> Trim(RemovedTitles[i]) == RemovedTitles[i]
  {
    forall i | 0 <= i < |RemovedTitles| ensures Trim(RemovedTitles[i]) == RemovedTitles[i] {
      TrimOfTrimmed(RemovedTitles[i]);
    }
  }

  lemma UnlikeRemovedIsSafe(t: string)
    requires UnlikeRemoved(t)
    ensures SafeTitle(Str(t))
  {
    TrimOfTrimmed(t);
    RemovedTitlesAreTrimmed();
    forall i | 0 <= i < |RemovedTitles| ensures Lower(Trim(RemovedTitles[i])) != Lower(Trim(t)) {
      if |RemovedTitles[i]| == |t| {
        assert Lower(RemovedTitles[i])[0] != Lower(t)[0];
      }
    }
  }

  /** Every title of the catalogue's seeds is one that seeding never removes. */
  lemma ShowcaseTitlesAreUnlikeRemoved()
    ensures UnlikeRemoved(AvatarTitle) && UnlikeRemoved(CursorTitle)
  {
  }

  lemma TextEffectTitlesAreUnlikeRemoved()
    ensures forall i :: 0 <= i < |TextEffectTitles| ==> UnlikeRemoved(TextEffectTitles[i])
  {
  }

  lemma BackgroundEffectTitlesAreUnlikeRemoved()
    ensures forall i :: 0 <= i < |BackgroundEffectTitles| ==> UnlikeRemoved(BackgroundEffectTitles[i])
  {
  }

  lemma ButtonInteractionTitlesAreUnlikeRemoved()
    ensures forall i :: 0 <= i < |ButtonInteractionTitles| ==> UnlikeRemoved(ButtonInteractionTitles[i])
  {
  }

  /** The titles of the three groups, in seeding order. */
  const GroupTitles := TextEffectTitles + BackgroundEffectTitles + ButtonInteractionTitles

  lemma GroupTitlesAreUnlikeRemoved()
    ensures forall i :: 0 <= i < |GroupTitles| ==> UnlikeRemoved(GroupTitles[i])
  {
    TextEffectTitlesAreUnlikeRemoved();
    BackgroundEffectTitlesAreUnlikeRemoved();
    ButtonInteractionTitlesAreUnlikeRemoved();
    var a := TextEffectTitles;
    var b := BackgroundEffectTitles;
    forall i | 0 <= i < |GroupTitles| ensures UnlikeRemoved(GroupTitles[i]) {
      if i < |a| {
        assert GroupTitles[i] == a[i];
      } else if i < |a| + |b| {
        assert GroupTitles[i] == b[i - |a|];
      } else {
        assert GroupTitles[i] == ButtonInteractionTitles[i - |a| - |b|];
      }
    }
  }

  /** The seeds carry the catalogue's titles, group by group. */
  ghost predicate CatalogueTitles(seeds: Seeds) {
    && Get(seeds.avatar, "title") == Str(AvatarTitle)
    && Get(seeds.cursor, "title") == Str(CursorTitle)
    && |seeds.groups| == |GroupTitles|
    && (forall i :: 0 <= i < |seeds.groups| ==> Get(seeds.groups[i].record, "title") == Str(GroupTitles[i]))
  }

  /** The catalogue's own seeds meet what the second-seeding theorem asks of them. */
  lemma CatalogueSeedsAreSafe(seeds: Seeds)
    requires CatalogueTitles(seeds)
    ensures SafeSeeds(seeds)
  {
    ShowcaseTitlesAreSafe();
    CatalogueGroupsAreSafe(seeds.groups);
  }

  lemma ShowcaseTitlesAreSafe()
    ensures SafeTitle(Str(AvatarTitle)) && TitleKey(Str(AvatarTitle)).None?
    ensures SafeTitle(Str(CursorTitle)) && TitleKey(Str(CursorTitle)).None?
  {
    ShowcaseTitlesAreUnlikeRemoved();
    UnlikeRemovedIsSafe(AvatarTitle);
    UnlikeRemovedIsSafe(CursorTitle);
  }

  lemma CatalogueGroupsAreSafe(groups: seq<Seed>)
    requires |groups| == |GroupTitles|
    requires forall i :: 0 <= i < |groups| ==> Get(groups[i].record, "title") == Str(GroupTitles[i])
    ensures SafeGroup(groups)
  {
    GroupTitlesAreUnlikeRemoved();
    forall i | 0 <= i < |groups| ensures SafeTitle(Get(groups[i].record, "title")) {
      UnlikeRemovedIsSafe(GroupTitles[i]);
    }
  }

  /** With the catalogue's own seeds, a second `ensureSeedExample` adds nothing. */
  lemma CatalogueSecondSeedingAddsNothing(stored: seq<Record>, seeds: Seeds, first: seq<Fresh>, second: seq<Fresh>)
    requires CatalogueTitles(seeds) && |first| == SeedCount(seeds) && |second| == SeedCount(seeds)
    requires forall i :: 0 <= i < |stored| && KeyOf(stored[i]).Some? ==> Get(stored[i], "title") == Str(KeyOf(stored[i]).value)
    ensures var once := Seeded(stored, seeds, first);
      Identities(Seeded(once, seeds, second)) == Identities(once)
  {
    CatalogueSeedsAreSafe(seeds);
    SecondSeedingAddsNothing(stored, seeds, first, second);
  }

  // ---------------------------------------------------------------------------------------------
  // A stored title padded with spaces: the clean-up trims titles, the seed loops do not

  const NoiseTitle := "Generative Noise"
  const PaddedNoiseTitle := " " + NoiseTitle + " "

  lemma NoiseTitleIsTrimmed()
    ensures Trim(NoiseTitle) == NoiseTitle
  {
    TrimOfTrimmed(NoiseTitle);
  }

  lemma PaddedNoiseTitleTrims()
    ensures Trim(PaddedNoiseTitle) == Trim(NoiseTitle)
  {
    assert AllSpace(" ");
    TrimIgnoresSurroundingSpace(" ", NoiseTitle, " ");
  }

  lemma TitleKeyOfNoise(s: string)
    requires Trim(s) == NoiseTitle
    ensures TitleKey(Str(s)) == Some(NoiseTitle)
  {
    assert NoiseTitle == DedupeTitles[0];
  }

  /** The padded title is the de-duplicated title once trimmed, but not as it stands. */
  lemma PaddedNoiseTitleKey()
    ensures TitleKey(Str(PaddedNoiseTitle)) == Some(NoiseTitle) && TitleKey(Str(NoiseTitle)) == Some(NoiseTitle)
  {
    NoiseTitleIsTrimmed();
    PaddedNoiseTitleTrims();
    TitleKeyOfNoise(PaddedNoiseTitle);
    TitleKeyOfNoise(NoiseTitle);
  }

  lemma NoiseTitleIsSafe()
    ensures SafeTitle(Str(NoiseTitle))
  {
    BackgroundEffectTitlesAreUnlikeRemoved();
    assert NoiseTitle == BackgroundEffectTitles[8];
    UnlikeRemovedIsSafe(NoiseTitle);
  }

  lemma PaddedNoiseTitleIsKept()
    ensures !IsRemovedTitle(Str(PaddedNoiseTitle)) && SafeTitle(Str(NoiseTitle))
  {
    NoiseTitleIsSafe();
    assert AllSpace(" ");
    RemovedTitleIgnoresSurroundingSpace(" ", NoiseTitle, " ");
  }

  /** One group loop over a single seed with the exact title, when no record carries that title. */
  lemma NoiseSeedAdded(current: seq<Record>, seeds: Seeds, issued: seq<Fresh>)
    requires |seeds.groups| == 1 && Get(seeds.groups[0].record, "title") == Str(NoiseTitle) && |issued| == 1
    requires !HasTitle(Identities(current), Str(NoiseTitle))
    ensures Identities(SeedFold(current, seeds.groups, issued))
         == Identities(current) + [(Str(issued[0].id), Str(NoiseTitle))]
  {
    assert seeds.groups[..0] == [] && issued[..0] == [];
    FoundIffHasTitle(current, Str(NoiseTitle));
    SeedStepIdentities(current, seeds.groups[0], issued[0]);
  }

  /** A single record whose title is not removed passes the clean-up. */
  lemma ExamplesOfOne(r: Record)
    requires !IsRemovedTitle(Get(r, "title"))
    ensures Examples([r]) == [r]
  {
    assert WithoutRemoved([r]) == [r] by {
      assert WithoutRemoved([r][1..]) == [];
    }
    var none: set<string> := {};
    assert DedupeFrom([r], none) == [r] + DedupeFrom([], if KeyOf(r).Some? then {KeyOf(r).value} else none);
  }

  /** The Avatar Group and Cursor steps over a single record with another title add Cursor. */
  lemma ShowcaseOfOne(r: Record, seeds: Seeds, forAvatar: Fresh, forCursor: Fresh)
    requires Get(r, "title") != Str(CursorTitle) && Get(seeds.cursor, "title") == Str(CursorTitle)
    ensures Identities(Showcase([r], seeds, forAvatar, forCursor)) == [Identity(r), (Str(forCursor.id), Str(CursorTitle))]
  {
    FoundIffHasTitle([r], Str(CursorTitle));
    AvatarStepIdentities([r], seeds.avatar, forAvatar);
    CursorStepIdentities([r], AvatarStep([r], seeds.avatar, forAvatar), seeds.cursor, forCursor);
  }

  lemma NoNoiseBesidePaddedAndCursor(ids: seq<(Value, Value)>)
    requires |ids| == 2 && ids[0].1 == Str(PaddedNoiseTitle) && ids[1].1 == Str(CursorTitle)
    ensures !HasTitle(ids, Str(NoiseTitle))
  {
    assert |PaddedNoiseTitle| != |NoiseTitle| && |CursorTitle| != |NoiseTitle|;
  }

  /** The first seeding from a single record with the padded title: Cursor is added, and so is the
      exact "Generative Noise", since no record carries that title exactly. */
  lemma FirstSeedingFromPadded(padded: Record, seeds: Seeds, first: seq<Fresh>)
    requires Get(padded, "title") == Str(PaddedNoiseTitle) && Get(seeds.cursor, "title") == Str(CursorTitle)
    requires |seeds.groups| == 1 && Get(seeds.groups[0].record, "title") == Str(NoiseTitle) && |first| == 3
    ensures Identities(Seeded([padded], seeds, first))
         == [Identity(padded), (Str(first[1].id), Str(CursorTitle)), (Str(first[2].id), Str(NoiseTitle))]
  {
    PaddedNoiseTitleIsKept();
    ExamplesOfOne(padded);
    assert |PaddedNoiseTitle| != |CursorTitle|;
    ShowcaseOfOne(padded, seeds, first[0], first[1]);
    var shown := Showcase([padded], seeds, first[0], first[1]);
    NoNoiseBesidePaddedAndCursor(Identities(shown));
    NoiseSeedAdded(shown, seeds, first[2..]);
  }

  /** The next seeding of that list: the clean-up leaves the padded record and Cursor, and the group
      loop adds the exact title again under the new id. */
  lemma NextSeedingReaddsNoise(once: seq<Record>, seeds: Seeds, next: seq<Fresh>)
    requires |once| == 3 && Get(once[0], "title") == Str(PaddedNoiseTitle)
    requires Get(once[1], "title") == Str(CursorTitle) && Get(once[2], "title") == Str(NoiseTitle)
    requires |seeds.groups| == 1 && Get(seeds.groups[0].record, "title") == Str(NoiseTitle) && |next| == 3
    ensures Identities(Seeded(once, seeds, next))
         == [Identity(once[0]), Identity(once[1]), (Str(next[2].id), Str(NoiseTitle))]
  {
    CleanupDropsExactNoise(once);
    var cleaned := once[..2];
    assert Identities(cleaned)[1].1 == Str(CursorTitle);
    ShowcaseWhenPresent(cleaned, seeds, next[0], next[1]);
    var shown := Showcase(cleaned, seeds, next[0], next[1]);
    assert Identities(shown) == [Identity(once[0]), Identity(once[1])];
    NoNoiseBesidePaddedAndCursor(Identities(shown));
    NoiseSeedAdded(shown, seeds, next[2..]);
  }

  /** De-duplicating three records, where the third repeats the first's de-duplicated title and the
      second has none, drops the third. */
  lemma DedupeDropsRepeat(list: seq<Record>, k: string)
    requires |list| == 3 && KeyOf(list[0]) == Some(k) && KeyOf(list[1]).None? && KeyOf(list[2]) == Some(k)
    ensures Dedupe(list) == list[..2]
  {
    var none: set<string> := {};
    assert none + {k} == {k};
    assert DedupeFrom(list[2..], {k}) == DedupeFrom(list[3..], {k}) == [];
    assert DedupeFrom(list[1..], {k}) == [list[1]] + DedupeFrom(list[2..], {k}) by {
      assert list[1..][0] == list[1] && list[1..][1..] == list[2..];
    }
    assert DedupeFrom(list, none) == [list[0]] + DedupeFrom(list[1..], {k});
  }

  /** The clean-up of such three records, none removed, drops the third. */
  lemma CleanupDropsRepeat(list: seq<Record>, k: string)
    requires |list| == 3 && !IsRemovedTitle(Get(list[0], "title"))
    requires !IsRemovedTitle(Get(list[1], "title")) && !IsRemovedTitle(Get(list[2], "title"))
    requires KeyOf(list[0]) == Some(k) && KeyOf(list[1]).None? && KeyOf(list[2]) == Some(k)
    ensures Examples(list) == list[..2]
  {
    assert WithoutRemoved(list[2..]) == [list[2]] + WithoutRemoved(list[3..]);
    assert WithoutRemoved(list[1..]) == [list[1]] + WithoutRemoved(list[2..]);
    assert WithoutRemoved(list) == [list[0]] + WithoutRemoved(list[1..]);
    assert WithoutRemoved(list[3..]) == [];
    assert WithoutRemoved(list) == list;
    DedupeDropsRepeat(list, k);
  }

  /** The clean-up of a list holding the padded title, Cursor and the exact title, in that order,
      drops the record with the exact title: it repeats the padded one once trimmed. */
  lemma CleanupDropsExactNoise(once: seq<Record>)
    requires |once| == 3 && Get(once[0], "title") == Str(PaddedNoiseTitle)
    requires Get(once[1], "title") == Str(CursorTitle) && Get(once[2], "title") == Str(NoiseTitle)
    ensures Examples(once) == once[..2]
  {
    PaddedNoiseTitleKey();
    PaddedNoiseTitleIsKept();
    ShowcaseTitlesAreSafe();
    CleanupDropsRepeat(once, NoiseTitle);
  }

  /** Without the restriction on stored titles, a second seeding does add: from a stored
      " Generative Noise " the first call adds an exact "Generative Noise" record, because the
      group loop looks titles up exactly; the next call's clean-up drops that record as a
      duplicate of the padded one (titles are compared trimmed), and its group loop adds the seed
      again under a new id. So the list after one call does not pass the clean-up unchanged, and
      every later call changes the stored identities. */
  lemma PaddedTitleChurnsOnEverySeeding()
    ensures var padded: Record := map["id" := Str("a"), "title" := Str(PaddedNoiseTitle)];
      var seeds := Seeds(map["title" := Str(AvatarTitle)], map["title" := Str(CursorTitle)],
                         [Seed(ComponentGroup, map["title" := Str(NoiseTitle)])]);
      var first := [Fresh("1", "t"), Fresh("2", "t"), Fresh("3", "t")];
      var second := [Fresh("4", "t"), Fresh("5", "t"), Fresh("6", "t")];
      var once := Seeded([padded], seeds, first);
      && SafeSeeds(seeds)
      && Examples(once) != once
      && Identities(Seeded(once, seeds, second)) != Identities(once)
  {
    var padded: Record := map["id" := Str("a"), "title" := Str(PaddedNoiseTitle)];
    var seeds := Seeds(map["title" := Str(AvatarTitle)], map["title" := Str(CursorTitle)],
                       [Seed(ComponentGroup, map["title" := Str(NoiseTitle)])]);
    var first := [Fresh("1", "t"), Fresh("2", "t"), Fresh("3", "t")];
    var second := [Fresh("4", "t"), Fresh("5", "t"), Fresh("6", "t")];
    ShowcaseTitlesAreSafe();
    PaddedNoiseTitleIsKept();
    assert SafeGroup(seeds.groups);
    FirstSeedingFromPadded(padded, seeds, first);
    var once := Seeded([padded], seeds, first);
    assert Identity(once[1]).1 == Str(CursorTitle) && Identity(once[2]).1 == Str(NoiseTitle);
    CleanupDropsExactNoise(once);
    NextSeedingReaddsNoise(once, seeds, second);
    assert Identities(Seeded(once, seeds, second))[2].0 == Str("6") != Identities(once)[2].0;
  }

  // ---------------------------------------------------------------------------------------------
  // The store over local storage

  /** Reading the clean-up back from storage: a filter that drops nothing leaves the list as it was,
      and a list read from storage is its own JSON round trip. */
  lemma CleanedListIsStored(list: seq<Record>, out: seq<Record>)
    requires AllClean(list) && IsSubsequence(out, list)
    ensures AllClean(out) && CleanAll(out) == out
    ensures |out| == |list| ==> out == list
  {
    SubsequenceMembers(out, list);
    forall i | 0 <= i < |out| ensures IsClean(out[i]) {
      assert out[i] in list;
    }
    CleanAllOfClean(out);
    if |out| == |list| {
      SubsequenceOfSameLength(out, list);
    }
  }

  /** One step of the `dedupeByTitle` filter. */
  lemma DedupeFromStep(list: seq<Record>, i: nat, seen: set<string>)
    requires i < |list|
    ensures var k := KeyOf(list[i]);
      DedupeFrom(list[i..], seen)
      == if k.Some? && k.value in seen then DedupeFrom(list[i + 1..], seen)
         else [list[i]] + DedupeFrom(list[i + 1..], if k.Some? then seen + {k.value} else seen)
  {
    assert list[i..][1..] == list[i + 1..];
  }

  /** One more seed of the fold. */
  lemma SeedFoldStep(current: seq<Record>, seeds: seq<Seed>, issued: seq<Fresh>, n: nat)
    requires n < |seeds| && |issued| == |seeds|
    ensures SeedFold(current, seeds[..n + 1], issued[..n + 1])
         == SeedStep(SeedFold(current, seeds[..n], issued[..n]), seeds[n], issued[n])
  {
    assert seeds[..n + 1][..n] == seeds[..n] && issued[..n + 1][..n] == issued[..n];
  }

  /** The catalogue in local storage, as the list `getStored` reads. */
  class CatalogStore {
    var stored: seq<Record>

    /** What `JSON.parse` can give back: no field holds `undefined`. */
    ghost predicate Valid()
      reads this
    {
      AllClean(stored)
    }

    /** The store over what local storage holds, read through JSON. */
    constructor (persisted: seq<Record>)
      ensures Valid() && stored == CleanAll(persisted)
    {
      stored := CleanAll(persisted);
    }

    /** `setStored` */
    method Persist(list: seq<Record>)
      modifies this
      ensures Valid() && stored == CleanAll(list)
    {
      stored := CleanAll(list);
    }

    /** `getExampleById`: the first record with the id, or nothing. */
    function GetExampleById(id: Value): (r: Option<Record>)
      reads this
      ensures r.Some? ==> r.value in stored && Get(r.value, "id") == id
      ensures r.None? <==> forall j :: 0 <= j < |stored| ==> Get(stored[j], "id") != id
      ensures r.Some? ==> exists i :: 0 <= i < |stored| && stored[i] == r.value
                                      && forall j :: 0 <= j < i ==> Get(stored[j], "id") != id
    {
      match FindFirst(stored, "id", id)
      case None => None
      case Some(i) => Some(stored[i])
    }

    /** `addExample` */
    method AddExample(example: Record, f: Fresh) returns (newEx: Record)
      requires Valid()
      modifies this
      ensures Valid() && stored == Added(old(stored), example, f)
      ensures newEx == WithIdentity(example, f)
    {
      var list := stored;
      newEx := WithIdentity(example, f);
      list := list + [newEx];
      Persist(list);
      CleanAllOfClean(old(stored));
      assert CleanAll(list) == CleanAll(old(stored)) + [Clean(newEx)];
    }

    /** `updateExample`: nothing when no record has the id; otherwise the merged record. */
    method UpdateExample(id: Value, payload: Record) returns (r: Option<Record>)
      requires Valid()
      modifies this
      ensures Valid() && stored == Updated(old(stored), id, payload)
      ensures r.None? <==> FindFirst(old(stored), "id", id).None?
      ensures r.Some? ==> r.value == old(stored)[FindFirst(old(stored), "id", id).value] + payload
    {
      var list := stored;
      var i := FindFirst(list, "id", id);
      if i.None? {
        return None;
      }
      list := list[i.value := list[i.value] + payload];
      Persist(list);
      CleanAllOfClean(old(stored));
      assert CleanAll(list) == old(stored)[i.value := Clean(old(stored)[i.value] + payload)];
      r := Some(list[i.value]);
    }

    /** `removeDeletedTitles`: the records without a removed title, persisted when any was dropped. */
    method RemoveDeletedTitles(list: seq<Record>) returns (filtered: seq<Record>)
      requires Valid()
      modifies this
      ensures filtered == WithoutRemoved(list)
      ensures Valid() && stored == if |filtered| != |list| then CleanAll(filtered) else old(stored)
    {
      filtered := WithoutRemoved(list);
      if |filtered| != |list| {
        Persist(filtered);
      }
    }

    /** `dedupeByTitle`: the filter that keeps the first record of each de-duplicated title, tracking
        the titles seen so far; persisted when any record was dropped. */
    method DedupeByTitle(list: seq<Record>) returns (out: seq<Record>)
      requires Valid()
      modifies this
      ensures out == Dedupe(list)
      ensures Valid() && stored == if |out| != |list| then CleanAll(out) else old(stored)
    {
      var seen: set<string> := {};
      out := [];
      var i := 0;
      while i < |list|
        invariant 0 <= i <= |list|
        invariant out + DedupeFrom(list[i..], seen) == Dedupe(list)
        invariant stored == old(stored)
      {
        DedupeFromStep(list, i, seen);
        var title := KeyOf(list[i]);
        if title.None? || title.value !in seen {
          var seen' := if title.None? then seen else seen + {title.value};
          AppendOne(out, list[i], DedupeFrom(list[i + 1..], seen'));
          out := out + [list[i]];
          seen := seen';
        }
        i := i + 1;
      }
      assert list[i..] == [];
      if |out| != |list| {
        Persist(out);
      }
    }

    /** `getExamples`: the stored list without removed titles and de-duplicated, which is also what is
        left in storage. */
    method GetExamples() returns (list: seq<Record>)
      requires Valid()
      modifies this
      ensures Valid() && list == Examples(old(stored)) && stored == list
    {
      var raw := stored;
      list := RemoveDeletedTitles(raw);
      WithoutRemovedSelects(raw);
      CleanedListIsStored(raw, list);
      assert stored == list;
      var deduped := DedupeByTitle(list);
      DedupeSelects(list);
      CleanedListIsStored(list, deduped);
      list := deduped;
    }

    /** The Avatar Group and Cursor steps of `ensureSeedExample`, looking records up in `list`, the
        cleaned list, which is also what is stored. */
    method SeedShowcase(list: seq<Record>, seeds: Seeds, forAvatar: Fresh, forCursor: Fresh)
      requires Valid() && stored == list
      modifies this
      ensures Valid() && stored == Showcase(list, seeds, forAvatar, forCursor)
    {
      var avatar := FindFirst(list, "title", Str(AvatarTitle));
      if avatar.Some? {
        var _ := UpdateExample(Get(list[avatar.value], "id"), ShowcasePayload(seeds.avatar));
      } else if |list| == 0 {
        var _ := AddExample(seeds.avatar, forAvatar);
      }
      assert stored == AvatarStep(list, seeds.avatar, forAvatar);
      var cursor := FindFirst(list, "title", Str(CursorTitle));
      if cursor.Some? {
        var _ := UpdateExample(Get(list[cursor.value], "id"), ShowcasePayload(seeds.cursor));
      } else {
        var _ := AddExample(seeds.cursor, forCursor);
      }
    }

    /** One iteration of the group loops: refresh the stored record with the seed's title, or add
        the seed. */
    method SeedOne(seed: Seed, f: Fresh)
      requires Valid()
      modifies this
      ensures Valid() && stored == SeedStep(old(stored), seed, f)
    {
      var existing := FindFirst(stored, "title", Get(seed.record, "title"));
      if existing.Some? {
        var id := Get(stored[existing.value], "id");
        if seed.group == TextGroup {
          var _ := UpdateExample(id, CodePayload(seed.record));
        } else {
          var update := DefinedPayload(seed.record);
          if |update| > 0 {
            var _ := UpdateExample(id, update);
          }
        }
      } else {
        var _ := AddExample(seed.record, f);
      }
    }

    /** `ensureSeedExample`: the clean-up, the Avatar Group and Cursor steps over the cleaned list, then
        one update-or-add per group seed against what is stored. `issued` holds the identities the new
        records would take, one per seed. */
    method EnsureSeedExample(seeds: Seeds, issued: seq<Fresh>)
      requires Valid() && |issued| == SeedCount(seeds)
      modifies this
      ensures Valid() && stored == Seeded(old(stored), seeds, issued)
    {
      var list := GetExamples();
      SeedShowcase(list, seeds, issued[0], issued[1]);
      ghost var shown := stored;

      var groups := seeds.groups;
      var ids := issued[2..];
      var n := 0;
      while n < |groups|
        invariant 0 <= n <= |groups|
        invariant Valid() && stored == SeedFold(shown, groups[..n], ids[..n])
      {
        SeedFoldStep(shown, groups, ids, n);
        SeedOne(groups[n], ids[n]);
        n := n + 1;
      }
      assert groups[..n] == groups && ids[..n] == ids;
    }
  }
}
