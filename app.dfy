/** The application shell (src/App.jsx): the dock's category order kept in local storage, and the
    category the dock marks as current. */
module App {
  import opened JsValues
  import opened Categories
  import ListPage

  /** NAV_ORDER_KEY */
  const NavOrderKey := "animation-playground-nav-order-v3"

  /** What reading the stored dock order gives: nothing (a missing or empty entry), text that does not
      parse as JSON, a parsed value that is not an array, or an array of values. */
  datatype Stored = Absent | Malformed | NotArray | List(items: seq<Value>)

  /** The default dock order, as the string values an array holds. */
  function DefaultOrder(): (r: seq<Value>)
    ensures |r| == |DefaultCategories| && forall i :: 0 <= i < |r| ==> r[i] == Str(DefaultCategories[i])
  {
    [Str(BackgroundEffect), Str(TextEffect), Str(ButtonInteractions), Str(All)]
  }

  /** The three checks an order must pass: the default length, every default category present, and
      the default first category first. */
  predicate Acceptable(items: seq<Value>) {
    && |items| == |DefaultCategories|
    && (forall i :: 0 <= i < |DefaultCategories| ==> Str(DefaultCategories[i]) in items)
    && items[0] == Str(DefaultCategories[0])
  }

  /** `loadCategoryOrder`: the stored order when it passes the checks, otherwise a copy of the
      defaults. */
  function LoadCategoryOrder(stored: Stored): (r: seq<Value>)
    ensures stored.List? && Acceptable(stored.items) ==> r == stored.items
    ensures !(stored.List? && Acceptable(stored.items)) ==> r == DefaultOrder()
  {
    match stored
    case List(items) => if Acceptable(items) then items else DefaultOrder()
    case _ => DefaultOrder()
  }

  /** A dock order the shell can show: the default categories rearranged, the default first one
      first. */
  ghost predicate IsDockOrder(order: seq<Value>) {
    multiset(order) == multiset(DefaultOrder()) && |order| > 0 && order[0] == Str(BackgroundEffect)
  }

  /** `s` lists no element twice. */
  ghost predicate Distinct(s: seq<Value>) {
    forall i, j :: 0 <= i < j < |s| ==> s[i] != s[j]
  }

  /** The elements of a repetition-free `s` that all occur in `t` form a sub-multiset of `t`'s. */
  lemma {:induction false} DistinctMembersAreSubMultiset(s: seq<Value>, t: seq<Value>)
    requires Distinct(s) && forall i :: 0 <= i < |s| ==> s[i] in t
    ensures multiset(s) <= multiset(t)
    decreases |s|
  {
    if s != [] {
      var rest := s[1..];
      assert Distinct(rest) by {
        forall i, j | 0 <= i < j < |rest| ensures rest[i] != rest[j] {
          assert rest[i] == s[i + 1] && rest[j] == s[j + 1];
        }
      }
      assert forall i :: 0 <= i < |rest| ==> rest[i] == s[i + 1];
      DistinctMembersAreSubMultiset(rest, t);
      assert s == [s[0]] + rest;
      assert s[0] !in rest by {
        forall i | 0 <= i < |rest| ensures rest[i] != s[0] {
          assert rest[i] == s[i + 1];
        }
      }
      assert multiset(rest)[s[0]] == 0;
      forall x ensures multiset(s)[x] <= multiset(t)[x] {
        if x == s[0] {
          assert multiset(s)[x] == 1;
        } else {
          assert multiset(s)[x] == multiset(rest)[x];
        }
      }
    }
  }

  /** A sub-multiset as large as the whole is the whole. */
  lemma SubMultisetOfSameSize(a: multiset<Value>, b: multiset<Value>)
    requires a <= b && |a| == |b|
    ensures a == b
  {
    assert |b - a| == |b| - |a|;
    assert b - a == multiset{};
    assert b == a + (b - a);
  }

  /** An order that passes the checks is a rearrangement of the defaults: the length check and the
      presence check leave no room for repeats or strangers. */
  lemma AcceptableIsDockOrder(items: seq<Value>)
    requires Acceptable(items)
    ensures IsDockOrder(items)
  {
    var d := DefaultOrder();
    DefaultCategoriesDistinct();
    assert Distinct(d);
    forall i | 0 <= i < |d| ensures d[i] in items {
      assert Str(DefaultCategories[i]) in items;
    }
    DistinctMembersAreSubMultiset(d, items);
    SubMultisetOfSameSize(multiset(d), multiset(items));
  }

  /** Whatever storage holds, the dock shows the four categories once each, "Background effect"
      first. */
  lemma LoadedOrderIsDockOrder(stored: Stored)
    ensures IsDockOrder(LoadCategoryOrder(stored))
  {
    if stored.List? && Acceptable(stored.items) {
      AcceptableIsDockOrder(stored.items);
    } else {
      AcceptableIsDockOrder(DefaultOrder());
    }
  }

  /** An order with a repeated category passes none of the checks together: it is replaced by the
      defaults. */
  lemma OrderWithRepeatIsRejected(items: seq<Value>, i: nat, j: nat)
    requires i < j < |items| && items[i] == items[j]
    ensures LoadCategoryOrder(List(items)) == DefaultOrder()
  {
    var d := DefaultOrder();
    assert multiset(items)[items[i]] >= 2 by {
      assert items == items[..j] + [items[j]] + items[j + 1..];
      assert items[i] in items[..j];
    }
    DefaultCategoriesDistinct();
    forall a, b | 0 <= a < b < |d| ensures d[a] != d[b] {
      assert d[a] == Str(DefaultCategories[a]) && d[b] == Str(DefaultCategories[b]);
    }
    MultiplicityInDistinct(d, items[i]);
    assert multiset(items) != multiset(d);
    if Acceptable(items) {
      AcceptableIsDockOrder(items);
      assert false;
    }
  }

  /** An element occurs at most once in a sequence without repeats. */
  lemma {:induction false} MultiplicityInDistinct(s: seq<Value>, x: Value)
    requires Distinct(s)
    ensures multiset(s)[x] <= 1
    decreases |s|
  {
    if s != [] {
      var rest := s[1..];
      assert Distinct(rest) by {
        forall a, b | 0 <= a < b < |rest| ensures rest[a] != rest[b] {
          assert rest[a] == s[a + 1] && rest[b] == s[b + 1];
        }
      }
      MultiplicityInDistinct(rest, x);
      assert s == [s[0]] + rest;
      if x == s[0] {
        assert x !in rest by {
          forall a | 0 <= a < |rest| ensures rest[a] != x {
            assert rest[a] == s[a + 1];
          }
        }
      }
    }
  }

  /** The `storage` listener: another tab's write of the dock order is taken when it parses and
      passes the checks; anything else leaves the order as it is. */
  function OnStorage(order: seq<Value>, key: string, newValue: Stored): (r: seq<Value>)
    ensures key == NavOrderKey && newValue.List? && Acceptable(newValue.items) ==> r == newValue.items
    ensures !(key == NavOrderKey && newValue.List? && Acceptable(newValue.items)) ==> r == order
  {
    if key != NavOrderKey then order
    else match newValue
      case List(items) => if Acceptable(items) then items else order
      case _ => order
  }

  /** The dock order stays a rearrangement of the categories through any storage event. */
  lemma OnStorageKeepsDockOrder(order: seq<Value>, key: string, newValue: Stored)
    requires IsDockOrder(order)
    ensures IsDockOrder(OnStorage(order, key, newValue))
  {
    if key == NavOrderKey && newValue.List? && Acceptable(newValue.items) {
      AcceptableIsDockOrder(newValue.items);
    }
  }

  /** `current`: the URL's category when it is a known one, otherwise `'all'`. */
  function Current(fromUrl: Option<string>): (r: string)
    ensures r in DefaultCategories
    ensures fromUrl.Some? && fromUrl.value in DefaultCategories ==> r == fromUrl.value
    ensures (fromUrl.None? || fromUrl.value !in DefaultCategories) ==> r == All
  {
    if fromUrl.Some? && fromUrl.value != "" && fromUrl.value in DefaultCategories then fromUrl.value
    else All
  }

  /** The dock and the list page agree on a known category; without one the dock marks "Online
      Inspirations" while the list page shows "Background effect". */
  lemma DockAndListDisagreeOnlyWithoutCategory(fromUrl: Option<string>)
    ensures Current(fromUrl) == ListPage.CategoryFilter(fromUrl)
        <==> fromUrl.Some? && fromUrl.value in DefaultCategories
  {
  }
}
