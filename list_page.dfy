/** The list page (src/pages/ListPage.jsx): which tiles a category shows, the order the user saved
    for them, the drag-and-drop reorder and the saved tile orders. */
module ListPage {
  import opened JsValues
  import opened Strings
  import opened Seqs
  import opened Categories
  import LivePreview

  // ---------------------------------------------------------------------------------------------
  // Category and filter

  /** `categoryFromUrl && DEFAULT_CATEGORIES.includes(categoryFromUrl) ? categoryFromUrl : DEFAULT_CATEGORY`;
      `fromUrl` is `searchParams.get('category')`, absent when the URL has no such parameter. */
  function CategoryFilter(fromUrl: Option<string>): (r: string)
    ensures r in DefaultCategories
    ensures fromUrl.Some? && fromUrl.value in DefaultCategories ==> r == fromUrl.value
    ensures (fromUrl.None? || fromUrl.value !in DefaultCategories) ==> r == DefaultCategory
  {
    if fromUrl.Some? && fromUrl.value != "" && fromUrl.value in DefaultCategories then fromUrl.value
    else DefaultCategory
  }

  /** `ex.title?.trim() ?? ''` for a string, `undefined` or `null` title. */
  function TrimmedTitle(ex: Record): string {
    match Get(ex, "title")
    case Str(s) => Trim(s)
    case _ => ""
  }

  /** Whether the tile of `ex` belongs under `category`. */
  predicate Shown(ex: Record, category: string) {
    if category == All then TrimmedTitle(ex) in OnlineInspirationTitles
    else Get(ex, "category") == Str(category)
  }

  /** `filtered`: the examples of the category, in stored order. */
  function Filtered(examples: seq<Record>, category: string): seq<Record>
    decreases |examples|
  {
    if examples == [] then []
    else if Shown(examples[0], category) then [examples[0]] + Filtered(examples[1..], category)
    else Filtered(examples[1..], category)
  }

  /** The filter keeps, in order, exactly the examples shown under the category. */
  lemma {:induction false} FilteredSelects(examples: seq<Record>, category: string)
    ensures IsSubsequence(Filtered(examples, category), examples)
    ensures forall ex :: ex in Filtered(examples, category) ==> Shown(ex, category)
    ensures forall ex :: ex in examples && Shown(ex, category) ==> ex in Filtered(examples, category)
    decreases |examples|
  {
    if examples != [] {
      FilteredSelects(examples[1..], category);
      assert examples == [examples[0]] + examples[1..];
      if Shown(examples[0], category) {
        KeepHead(examples[0], Filtered(examples[1..], category), examples[1..]);
      } else {
        DropHead(examples[0], Filtered(examples[1..], category), examples[1..]);
      }
    }
  }

  lemma InspirationTitlesAreTrimmed()
    ensures forall i :: 0 <= i < |OnlineInspirationTitles| ==> Trim(OnlineInspirationTitles[i]) == OnlineInspirationTitles[i]
  {
    TrimOfTrimmed(OnlineInspirationTitles[0]);
    TrimOfTrimmed(OnlineInspirationTitles[1]);
  }

  /** Under "all", surrounding whitespace in a title does not hide the tile. */
  lemma PaddedInspirationTitleIsShown(pre: string, t: string, post: string, ex: Record)
    requires AllSpace(pre) && AllSpace(post) && t in OnlineInspirationTitles
    requires Get(ex, "title") == Str(pre + t + post)
    ensures Shown(ex, All)
  {
    TrimIgnoresSurroundingSpace(pre, t, post);
    InspirationTitlesAreTrimmed();
    assert TrimmedTitle(ex) == Trim(t) == t;
  }

  // ---------------------------------------------------------------------------------------------
  // Saved order

  /** The sort key of an id not in the saved order. */
  const Unranked := 1_000_000_000

  /** `idToIndex.has(id) ? idToIndex.get(id) : 1e9`, where `idToIndex = new Map(order.map((id, i) => [id, i]))`:
      a later duplicate overwrites an earlier one, so an id's key is its last index. */
  function Rank(order: seq<Value>, id: Value): (r: int)
    ensures id in order ==> 0 <= r < |order| && order[r] == id
    ensures id in order ==> forall j :: r < j < |order| ==> order[j] != id
    ensures id !in order ==> r == Unranked
    decreases |order|
  {
    if order == [] then Unranked
    else if order[|order| - 1] == id then |order| - 1
    else
      assert order == order[..|order| - 1] + [order[|order| - 1]];
      Rank(order[..|order| - 1], id)
  }

  function RankOf(order: seq<Value>, ex: Record): int {
    Rank(order, Get(ex, "id"))
  }

  /** Keys never decrease along `s`. */
  ghost predicate Sorted(s: seq<Record>, order: seq<Value>) {
    forall i, j :: 0 <= i < j < |s| ==> RankOf(order, s[i]) <= RankOf(order, s[j])
  }

  /** The elements of `s` with key `k`, in order. */
  function WithRank(s: seq<Record>, order: seq<Value>, k: int): seq<Record>
    decreases |s|
  {
    if s == [] then []
    else (if RankOf(order, s[0]) == k then [s[0]] else []) + WithRank(s[1..], order, k)
  }

  /** Places `x` in front of the first element whose key is not smaller. */
  function InsertByRank(x: Record, s: seq<Record>, order: seq<Value>): seq<Record>
    decreases |s|
  {
    if s == [] then [x]
    else if RankOf(order, x) <= RankOf(order, s[0]) then [x] + s
    else [s[0]] + InsertByRank(x, s[1..], order)
  }

  /** `[...filtered].sort((a, b) => ia - ib)`: the engine's sort is stable, and a stable sort by a key
      has one result (`StableSortIsUnique`), which this insertion sort computes. */
  function SortByRank(s: seq<Record>, order: seq<Value>): seq<Record>
    decreases |s|
  {
    if s == [] then [] else InsertByRank(s[0], SortByRank(s[1..], order), order)
  }

  /** `orderedList`: the filtered list, sorted by the saved order when one is saved and non-empty. */
  function OrderedList(filtered: seq<Record>, saved: Option<seq<Value>>): seq<Record> {
    if saved.None? || saved.value == [] then filtered else SortByRank(filtered, saved.value)
  }

  lemma WithRankCons(a: Record, t: seq<Record>, order: seq<Value>, k: int)
    ensures WithRank([a] + t, order, k) == (if RankOf(order, a) == k then [a] else []) + WithRank(t, order, k)
  {
    assert ([a] + t)[0] == a && ([a] + t)[1..] == t;
  }

  /** A sorted sequence stays sorted under a new head no greater than any of its elements. */
  lemma SortedCons(a: Record, t: seq<Record>, order: seq<Value>)
    requires Sorted(t, order) && forall j :: 0 <= j < |t| ==> RankOf(order, a) <= RankOf(order, t[j])
    ensures Sorted([a] + t, order)
  {
    var r := [a] + t;
    forall i, j | 0 <= i < j < |r| ensures RankOf(order, r[i]) <= RankOf(order, r[j]) {
      assert r[j] == t[j - 1];
      if i > 0 {
        assert r[i] == t[i - 1];
      }
    }
  }

  lemma SortedTail(s: seq<Record>, order: seq<Value>)
    requires Sorted(s, order) && s != []
    ensures Sorted(s[1..], order)
    ensures forall j :: 0 <= j < |s| - 1 ==> RankOf(order, s[0]) <= RankOf(order, s[1..][j])
  {
    forall i, j | 0 <= i < j < |s| - 1 ensures RankOf(order, s[1..][i]) <= RankOf(order, s[1..][j]) {
      assert s[1..][i] == s[i + 1] && s[1..][j] == s[j + 1];
    }
    forall j | 0 <= j < |s| - 1 ensures RankOf(order, s[0]) <= RankOf(order, s[1..][j]) {
      assert s[1..][j] == s[j + 1];
    }
  }

  lemma {:induction false} InsertPermutes(x: Record, s: seq<Record>, order: seq<Value>)
    ensures multiset(InsertByRank(x, s, order)) == multiset(s) + multiset{x}
    decreases |s|
  {
    if s != [] && RankOf(order, x) > RankOf(order, s[0]) {
      InsertPermutes(x, s[1..], order);
      assert s == [s[0]] + s[1..];
    }
  }

  lemma {:induction false} InsertKeepsSorted(x: Record, s: seq<Record>, order: seq<Value>)
    requires Sorted(s, order)
    ensures Sorted(InsertByRank(x, s, order), order)
    decreases |s|
  {
    if s == [] {
    } else if RankOf(order, x) <= RankOf(order, s[0]) {
      forall j | 0 <= j < |s| ensures RankOf(order, x) <= RankOf(order, s[j]) {
        if j > 0 {
          assert RankOf(order, s[0]) <= RankOf(order, s[j]);
        }
      }
      SortedCons(x, s, order);
    } else {
      var t := InsertByRank(x, s[1..], order);
      SortedTail(s, order);
      InsertKeepsSorted(x, s[1..], order);
      InsertPermutes(x, s[1..], order);
      forall j | 0 <= j < |t| ensures RankOf(order, s[0]) <= RankOf(order, t[j]) {
        assert t[j] in multiset(t);
        if t[j] != x {
          assert t[j] in multiset(s[1..]);
          var i :| 0 <= i < |s[1..]| && s[1..][i] == t[j];
        }
      }
      SortedCons(s[0], t, order);
    }
  }

  /** Inserting adds `x` to the elements of its own key, in front of them, and leaves the others. */
  lemma {:induction false} InsertWithRank(x: Record, s: seq<Record>, order: seq<Value>, k: int)
    ensures WithRank(InsertByRank(x, s, order), order, k)
         == (if RankOf(order, x) == k then [x] else []) + WithRank(s, order, k)
    decreases |s|
  {
    if s == [] {
      WithRankCons(x, [], order, k);
      assert [x] + [] == [x];
    } else if RankOf(order, x) <= RankOf(order, s[0]) {
      WithRankCons(x, s, order, k);
    } else {
      InsertWithRank(x, s[1..], order, k);
      InsertPastHead(x, s, order, k);
    }
  }

  /** The step of `InsertWithRank` where `x` goes past the head. */
  lemma InsertPastHead(x: Record, s: seq<Record>, order: seq<Value>, k: int)
    requires s != [] && RankOf(order, x) > RankOf(order, s[0])
    requires WithRank(InsertByRank(x, s[1..], order), order, k)
          == (if RankOf(order, x) == k then [x] else []) + WithRank(s[1..], order, k)
    ensures WithRank(InsertByRank(x, s, order), order, k)
         == (if RankOf(order, x) == k then [x] else []) + WithRank(s, order, k)
  {
    var t := InsertByRank(x, s[1..], order);
    var hx := if RankOf(order, x) == k then [x] else [];
    var h0 := if RankOf(order, s[0]) == k then [s[0]] else [];
    assert InsertByRank(x, s, order) == [s[0]] + t;
    WithRankCons(s[0], t, order, k);
    assert WithRank(s, order, k) == h0 + WithRank(s[1..], order, k);
    SwapAroundEmpty(h0, hx, WithRank(s[1..], order, k));
  }

  /** Two pieces of which one is empty can be put in front in either order. */
  lemma SwapAroundEmpty<T>(a: seq<T>, b: seq<T>, w: seq<T>)
    requires a == [] || b == []
    ensures a + (b + w) == b + (a + w)
  {
    if a == [] {
      assert a + (b + w) == b + w;
      assert a + w == w;
    } else {
      assert b + w == w;
      assert b + (a + w) == a + w;
    }
  }

  /** The sort is a stable sort by key: a permutation, sorted, and each key's elements in their
      original order. */
  lemma SortByRankIsStableSort(s: seq<Record>, order: seq<Value>)
    ensures multiset(SortByRank(s, order)) == multiset(s)
    ensures Sorted(SortByRank(s, order), order)
    ensures forall k :: WithRank(SortByRank(s, order), order, k) == WithRank(s, order, k)
  {
    SortByRankPermutes(s, order);
    SortByRankIsSorted(s, order);
    forall k ensures WithRank(SortByRank(s, order), order, k) == WithRank(s, order, k) {
      SortByRankKeepsKeyOrder(s, order, k);
    }
  }

  lemma {:induction false} SortByRankPermutes(s: seq<Record>, order: seq<Value>)
    ensures multiset(SortByRank(s, order)) == multiset(s)
    decreases |s|
  {
    if s != [] {
      SortByRankPermutes(s[1..], order);
      InsertPermutes(s[0], SortByRank(s[1..], order), order);
      assert s == [s[0]] + s[1..];
    }
  }

  lemma {:induction false} SortByRankIsSorted(s: seq<Record>, order: seq<Value>)
    ensures Sorted(SortByRank(s, order), order)
    decreases |s|
  {
    if s != [] {
      SortByRankIsSorted(s[1..], order);
      InsertKeepsSorted(s[0], SortByRank(s[1..], order), order);
    }
  }

  lemma {:induction false} SortByRankKeepsKeyOrder(s: seq<Record>, order: seq<Value>, k: int)
    ensures WithRank(SortByRank(s, order), order, k) == WithRank(s, order, k)
    decreases |s|
  {
    if s != [] {
      SortByRankKeepsKeyOrder(s[1..], order, k);
      InsertWithRank(s[0], SortByRank(s[1..], order), order, k);
    }
  }

  /** The head of a sorted sequence has the smallest key of all its elements. */
  lemma SortedHeadIsLeast(s: seq<Record>, order: seq<Value>, x: Record)
    requires Sorted(s, order) && s != [] && x in multiset(s)
    ensures RankOf(order, s[0]) <= RankOf(order, x)
  {
    var i :| 0 <= i < |s| && s[i] == x;
    if i > 0 {
      assert RankOf(order, s[0]) <= RankOf(order, s[i]);
    }
  }

  /** Two sorted arrangements of the same elements with every key's elements in the same order are
      the same sequence. */
  lemma {:induction false} StableSortIsUnique(r1: seq<Record>, r2: seq<Record>, order: seq<Value>)
    requires multiset(r1) == multiset(r2) && Sorted(r1, order) && Sorted(r2, order)
    requires forall k :: WithRank(r1, order, k) == WithRank(r2, order, k)
    ensures r1 == r2
    decreases |r1|
  {
    assert |r1| == |multiset(r1)| == |multiset(r2)| == |r2|;
    if r1 != [] {
      SameHead(r1, r2, order);
      SameTails(r1, r2, order);
      SortedTail(r1, order);
      SortedTail(r2, order);
      StableSortIsUnique(r1[1..], r2[1..], order);
      assert r1 == [r1[0]] + r1[1..] && r2 == [r2[0]] + r2[1..];
    }
  }

  /** Two such arrangements start with the same element: the first of the least key. */
  lemma SameHead(r1: seq<Record>, r2: seq<Record>, order: seq<Value>)
    requires r1 != [] && r2 != [] && multiset(r1) == multiset(r2) && Sorted(r1, order) && Sorted(r2, order)
    requires forall k :: WithRank(r1, order, k) == WithRank(r2, order, k)
    ensures r1[0] == r2[0]
  {
    assert r1[0] in multiset(r2) && r2[0] in multiset(r1);
    SortedHeadIsLeast(r1, order, r2[0]);
    SortedHeadIsLeast(r2, order, r1[0]);
    HeadLeadsItsKey(r1, order);
    HeadLeadsItsKey(r2, order);
  }

  /** The head of a sequence is the first element of its own key. */
  lemma HeadLeadsItsKey(r: seq<Record>, order: seq<Value>)
    requires r != []
    ensures var w := WithRank(r, order, RankOf(order, r[0])); w != [] && w[0] == r[0]
  {
    assert r == [r[0]] + r[1..];
    WithRankCons(r[0], r[1..], order, RankOf(order, r[0]));
  }

  /** After a common head, the tails hold the same elements and the same order within each key. */
  lemma SameTails(r1: seq<Record>, r2: seq<Record>, order: seq<Value>)
    requires r1 != [] && r2 != [] && r1[0] == r2[0] && multiset(r1) == multiset(r2)
    requires forall k :: WithRank(r1, order, k) == WithRank(r2, order, k)
    ensures multiset(r1[1..]) == multiset(r2[1..])
    ensures forall k :: WithRank(r1[1..], order, k) == WithRank(r2[1..], order, k)
  {
    assert r1 == [r1[0]] + r1[1..] && r2 == [r2[0]] + r2[1..];
    forall j ensures WithRank(r1[1..], order, j) == WithRank(r2[1..], order, j) {
      WithRankCons(r1[0], r1[1..], order, j);
      WithRankCons(r2[0], r2[1..], order, j);
      var h := if RankOf(order, r1[0]) == j then [r1[0]] else [];
      assert (h + WithRank(r1[1..], order, j))[|h|..] == WithRank(r1[1..], order, j);
      assert (h + WithRank(r2[1..], order, j))[|h|..] == WithRank(r2[1..], order, j);
    }
    assert multiset(r1) == multiset{r1[0]} + multiset(r1[1..]);
    assert multiset(r2) == multiset{r2[0]} + multiset(r2[1..]);
    assert multiset(r1[1..]) == multiset(r1) - multiset{r1[0]};
    assert multiset(r2[1..]) == multiset(r2) - multiset{r2[0]};
  }

  /** Whatever stable sort the engine uses, its result is `SortByRank`. */
  lemma AnyStableSortIsSortByRank(s: seq<Record>, order: seq<Value>, r: seq<Record>)
    requires multiset(r) == multiset(s) && Sorted(r, order)
    requires forall k :: WithRank(r, order, k) == WithRank(s, order, k)
    ensures r == SortByRank(s, order)
  {
    SortByRankIsStableSort(s, order);
    StableSortIsUnique(r, SortByRank(s, order), order);
  }

  /** With a saved order: the tiles are those of the filter; tiles in the order come by their index,
      before every tile not in it; and the tiles not in the order keep their relative order. */
  lemma OrderedListFollowsSavedOrder(filtered: seq<Record>, order: seq<Value>)
    requires order != [] && |order| <= Unranked
    ensures var r := OrderedList(filtered, Some(order));
      && multiset(r) == multiset(filtered)
      && (forall i, j :: 0 <= i < j < |r| && Get(r[j], "id") in order ==>
            Get(r[i], "id") in order && Rank(order, Get(r[i], "id")) <= Rank(order, Get(r[j], "id")))
      && WithRank(r, order, Unranked) == WithRank(filtered, order, Unranked)
  {
    var r := OrderedList(filtered, Some(order));
    SortByRankIsStableSort(filtered, order);
    forall i, j | 0 <= i < j < |r| && Get(r[j], "id") in order
      ensures Get(r[i], "id") in order && Rank(order, Get(r[i], "id")) <= Rank(order, Get(r[j], "id"))
    {
      assert RankOf(order, r[i]) <= RankOf(order, r[j]) < |order|;
    }
  }

  /** Without a saved order, or with an empty one, the tiles keep the filter's order. */
  lemma OrderedListWithoutOrder(filtered: seq<Record>, saved: Option<seq<Value>>)
    requires saved.None? || saved.value == []
    ensures OrderedList(filtered, saved) == filtered
  {
  }

  /** An empty saved order would sort nothing anyway: every key is `1e9`. */
  lemma {:induction false} EmptyOrderSortsNothing(s: seq<Record>)
    ensures SortByRank(s, []) == s
    decreases |s|
  {
    if s != [] {
      EmptyOrderSortsNothing(s[1..]);
      var t := s[1..];
      if t != [] {
        assert RankOf([], s[0]) == Unranked == RankOf([], t[0]);
      }
      assert s == [s[0]] + t;
    }
  }

  // ---------------------------------------------------------------------------------------------
  // Drag-and-drop reorder

  /** `list.findIndex((ex) => ex.id === id)` */
  function FindIndex(list: seq<Record>, id: Value): (r: Option<nat>)
    ensures r.Some? ==> r.value < |list| && Get(list[r.value], "id") == id
    ensures r.Some? ==> forall j :: 0 <= j < r.value ==> Get(list[j], "id") != id
    ensures r.None? ==> forall j :: 0 <= j < |list| ==> Get(list[j], "id") != id
    decreases |list|
  {
    if list == [] then None
    else if Get(list[0], "id") == id then Some(0)
    else match FindIndex(list[1..], id)
      case None => None
      case Some(i) => Some(i + 1)
  }

  /** `s` without its element at `i`: `s.filter((_, j) => j !== i)`. */
  function RemoveAt<T>(s: seq<T>, i: nat): (r: seq<T>)
    requires i < |s|
    ensures |r| == |s| - 1
    ensures forall j :: 0 <= j < |r| ==> r[j] == if j < i then s[j] else s[j + 1]
  {
    s[..i] + s[i + 1..]
  }

  lemma RemoveAtPermutes<T>(s: seq<T>, i: nat)
    requires i < |s|
    ensures multiset(RemoveAt(s, i)) + multiset{s[i]} == multiset(s)
  {
    assert s == s[..i] + [s[i]] + s[i + 1..];
  }

  /** `s.splice(i, 0, x)`: `x` put in at index `i`. */
  function InsertAt<T>(s: seq<T>, i: nat, x: T): (r: seq<T>)
    requires i <= |s|
    ensures |r| == |s| + 1 && r[i] == x
    ensures RemoveAt(r, i) == s
    ensures multiset(r) == multiset(s) + multiset{x}
  {
    var r := s[..i] + [x] + s[i..];
    assert r[..i] == s[..i] && r[i + 1..] == s[i..];
    assert s == s[..i] + s[i..];
    r
  }

  /** The list after the tile at `from` is taken out and put back in at index `to`. */
  function Moved<T>(s: seq<T>, from: nat, to: nat): (r: seq<T>)
    requires from < |s| && to < |s|
    ensures |r| == |s| && r[to] == s[from]
    ensures RemoveAt(r, to) == RemoveAt(s, from)
    ensures multiset(r) == multiset(s)
  {
    RemoveAtPermutes(s, from);
    InsertAt(RemoveAt(s, from), to, s[from])
  }

  /** The moved list is the only one that holds the dragged tile at `to` and the other tiles in their
      previous order. */
  lemma MovedIsUnique<T>(s: seq<T>, from: nat, to: nat, r: seq<T>)
    requires from < |s| && to < |s| && |r| == |s|
    requires r[to] == s[from] && RemoveAt(r, to) == RemoveAt(s, from)
    ensures r == Moved(s, from, to)
  {
    var m := Moved(s, from, to);
    forall j | 0 <= j < |r| ensures r[j] == m[j] {
      if j < to {
        assert r[j] == RemoveAt(r, to)[j] == RemoveAt(m, to)[j] == m[j];
      } else if j > to {
        assert r[j] == RemoveAt(r, to)[j - 1] == RemoveAt(m, to)[j - 1] == m[j];
      }
    }
  }

  /** `newOrder.map((ex) => ex.id)` */
  function Ids(list: seq<Record>): (r: seq<Value>)
    ensures |r| == |list| && forall i :: 0 <= i < |list| ==> r[i] == Get(list[i], "id")
  {
    seq(|list|, i requires 0 <= i < |list| => Get(list[i], "id"))
  }

  /** The ids a drop saves, or nothing: the dragged id and the id under the pointer must both be set,
      differ, and be tiles of the list. */
  function DropOrder(list: seq<Record>, dragged: Value, dropTarget: Value): (r: Option<seq<Value>>)
    ensures r.None? <==>
      || !Truthy(dragged) || !Truthy(dropTarget) || dropTarget == dragged
      || FindIndex(list, dragged).None? || FindIndex(list, dropTarget).None?
    ensures r.Some? ==> r.value == Ids(Moved(list, FindIndex(list, dragged).value, FindIndex(list, dropTarget).value))
  {
    if !Truthy(dragged) || !Truthy(dropTarget) || dropTarget == dragged then None
    else match (FindIndex(list, dragged), FindIndex(list, dropTarget))
      case (Some(from), Some(to)) => Some(Ids(Moved(list, from, to)))
      case _ => None
  }

  /** A saved drop is a permutation of the tiles' ids in which the dragged id lands at the drop
      target's former index and every other id keeps its relative order. */
  lemma DropOrderMovesOneTile(list: seq<Record>, dragged: Value, dropTarget: Value)
    requires DropOrder(list, dragged, dropTarget).Some?
    ensures var ids := DropOrder(list, dragged, dropTarget).value;
      var from := FindIndex(list, dragged).value;
      var to := FindIndex(list, dropTarget).value;
      && multiset(ids) == multiset(Ids(list)) && ids[to] == dragged
      && RemoveAt(ids, to) == RemoveAt(Ids(list), from)
  {
    var from := FindIndex(list, dragged).value;
    var to := FindIndex(list, dropTarget).value;
    var m := Moved(list, from, to);
    IdsOfRemoveAt(m, to);
    IdsOfRemoveAt(list, from);
    MovedIsUnique(Ids(list), from, to, Ids(m));
  }

  lemma IdsOfRemoveAt(list: seq<Record>, i: nat)
    requires i < |list|
    ensures Ids(RemoveAt(list, i)) == RemoveAt(Ids(list), i)
  {
  }

  // ---------------------------------------------------------------------------------------------
  // Saved tile orders

  /** TILE_ORDER_KEY */
  const TileOrderKey := "animation-playground-tile-order"

  /** The page's `tileOrder` state: one saved id order per category, and the last value the page
      wrote to storage. */
  class TileOrders {
    var orders: map<string, seq<Value>>
    var written: Option<map<string, seq<Value>>>

    /** `useState(loadTileOrder)`: the parsed stored object, or `{}` when there is none or it does
        not parse to an object. */
    constructor(loaded: Option<map<string, seq<Value>>>)
      ensures orders == (if loaded.Some? then loaded.value else map[])
      ensures written.None?
    {
      orders := if loaded.Some? then loaded.value else map[];
      written := None;
    }

    /** `saveOrderForCategory`: replaces the one category's entry and persists the whole map. */
    method SaveOrderForCategory(category: string, ids: seq<Value>)
      modifies this
      ensures orders == old(orders)[category := ids]
      ensures forall c :: c != category ==> (c in orders <==> c in old(orders))
      ensures forall c :: c != category && c in orders ==> orders[c] == old(orders)[c]
      ensures written == Some(orders)
    {
      orders := orders[category := ids];
      written := Some(orders);
    }

    /** The drop branch of the pointer-up handler: removes the dragged tile, splices it back in at
        the drop target's index and saves the ids for the category. */
    method Drop(category: string, list: seq<Record>, dragged: Value, dropTarget: Value)
      modifies this
      ensures DropOrder(list, dragged, dropTarget).None? ==> orders == old(orders) && written == old(written)
      ensures DropOrder(list, dragged, dropTarget).Some? ==>
        orders == old(orders)[category := DropOrder(list, dragged, dropTarget).value] && written == Some(orders)
    {
      if Truthy(dragged) && Truthy(dropTarget) && dropTarget != dragged {
        var fromIndex := FindIndex(list, dragged);
        var toIndex := FindIndex(list, dropTarget);
        if fromIndex.Some? && toIndex.Some? {
          var from, to := fromIndex.value, toIndex.value;
          var newOrder := RemoveAt(list, from);
          newOrder := newOrder[..to] + [list[from]] + newOrder[to..];
          assert newOrder == InsertAt(RemoveAt(list, from), to, list[from]);
          SaveOrderForCategory(category, Ids(newOrder));
        }
      }
    }

    /** The `storage` listener: another tab's write of the tile orders replaces the state when it
        parses to an object; anything else leaves it. */
    method OnStorage(key: string, parsed: Option<map<string, seq<Value>>>)
      modifies this
      ensures orders == (if key == TileOrderKey && parsed.Some? then parsed.value else old(orders))
      ensures written == old(written)
    {
      if key == TileOrderKey && parsed.Some? {
        orders := parsed.value;
      }
    }
  }

  // ---------------------------------------------------------------------------------------------
  // Card preview

  /** `hasLivePreview(ex)`, read as a condition. */
  predicate HasLivePreview(ex: Record) {
    || Truthy(Get(ex, "embedUrl"))
    || Get(ex, "previewType") == Str("component")
    || (Get(ex, "previewType") == Str("code")
        && (Truthy(Get(ex, "codeHtml")) || Truthy(Get(ex, "codeCss")) || Truthy(Get(ex, "codeJs"))))
  }

  /** A card with a live preview of type code or embed gets a frame from the preview component, never
      its placeholder. */
  lemma LiveCardGetsFrame(ex: Record)
    requires HasLivePreview(ex)
    requires Get(ex, "previewType") == Str("code") || Get(ex, "previewType") == Str("embed")
    ensures !LivePreview.Render(Get(ex, "previewType"), Get(ex, "codeHtml"), Get(ex, "codeCss"),
                                Get(ex, "codeJs"), Get(ex, "embedUrl")).Placeholder?
  {
  }

  /** An embed URL alone makes a card live, but without the embed type the preview component shows
      its placeholder. */
  lemma EmbedUrlWithoutTypeShowsPlaceholder(url: string)
    requires url != ""
    ensures var ex := map["embedUrl" := Str(url)];
      HasLivePreview(ex)
      && LivePreview.Render(Get(ex, "previewType"), Get(ex, "codeHtml"), Get(ex, "codeCss"),
                            Get(ex, "codeJs"), Get(ex, "embedUrl")) == LivePreview.Placeholder
  {
    var ex := map["embedUrl" := Str(url)];
    assert Get(ex, "previewType") == Undef;
  }
}
