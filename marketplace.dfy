/**
 * The in-memory component catalogue (lib/marketplace-service.ts): built-in
 * components followed by custom ones, with filtering, descending sorts, lookup
 * by id, and adding, updating, deleting and counting downloads of components.
 * Ratings are in tenths, creation and update times are epoch milliseconds, and
 * the clock and random id suffix are parameters.
 */
module Marketplace {
  import opened Common
  import opened Strings

  datatype Component = Component(
    id: string,
    name: string,
    description: string,
    category: string,
    code: string,
    preview: Option<string>,
    tags: seq<string>,
    author: string,
    downloads: int,
    rating: int,
    createdAt: int,
    updatedAt: int)

  /** What `addComponent` is given: a component without id and times. */
  datatype Draft = Draft(
    name: string,
    description: string,
    category: string,
    code: string,
    preview: Option<string>,
    tags: seq<string>,
    author: string,
    downloads: int,
    rating: int)

  /** `Partial<Component>`: `None` where the update leaves the field out. */
  datatype Update = Update(
    id: Option<string>,
    name: Option<string>,
    description: Option<string>,
    category: Option<string>,
    code: Option<string>,
    preview: Option<Option<string>>,
    tags: Option<seq<string>>,
    author: Option<string>,
    downloads: Option<int>,
    rating: Option<int>,
    createdAt: Option<int>)

  datatype SortBy = Popular | Recent | Rating

  datatype Filter = Filter(
    category: Option<string>,
    tags: Option<seq<string>>,
    search: Option<string>,
    sortBy: Option<SortBy>)

  datatype Category = Category(id: string, name: string, icon: string, count: nat)

  const Categories: seq<Category> := [
    Category("buttons", "Buttons", "\U{1F518}", 1),
    Category("cards", "Cards", "\U{1F3B4}", 1),
    Category("forms", "Forms", "\U{1F4DD}", 1),
    Category("loaders", "Loaders", "\U{23F3}", 1),
    Category("modals", "Modals", "\U{1FA9F}", 1),
    Category("navigation", "Navigation", "\U{1F9ED}", 1)
  ]

  const NoFilter: Filter := Filter(None, None, None, None)

  // ---------------------------------------------------------------- filters

  /** A truthy filter string. */
  predicate Given(s: Option<string>) {
    s.Some? && s.value != ""
  }

  predicate SharesTag(c: Component, tags: seq<string>) {
    exists k :: 0 <= k < |tags| && tags[k] in c.tags
  }

  /** `name`, `description` or a tag contains the query, ignoring case. */
  predicate SearchMatches(c: Component, query: string) {
    var q := Lower(query);
    Includes(Lower(c.name), q) || Includes(Lower(c.description), q)
    || exists k :: 0 <= k < |c.tags| && Includes(Lower(c.tags[k]), q)
  }

  /** A component passes every filter that is switched on. */
  predicate Matches(c: Component, f: Filter) {
    && (Given(f.category) ==> c.category == f.category.value)
    && (f.tags.Some? && |f.tags.value| > 0 ==> SharesTag(c, f.tags.value))
    && (Given(f.search) ==> SearchMatches(c, f.search.value))
  }

  /** `a` is `b` with some elements left out, the rest in the same order. */
  predicate Subsequence(a: seq<Component>, b: seq<Component>)
    decreases |b|
  {
    if a == [] then true
    else if b == [] then false
    else (a[0] == b[0] && Subsequence(a[1..], b[1..])) || Subsequence(a, b[1..])
  }

  /**
   * The three `filter` calls in turn: the matching components in catalogue
   * order, each as often as it occurs, and nothing else.
   */
  function Select(cs: seq<Component>, f: Filter): (r: seq<Component>)
    ensures |r| <= |cs|
    ensures Subsequence(r, cs)
    ensures forall c :: multiset(r)[c] == if Matches(c, f) then multiset(cs)[c] else 0
    ensures forall c :: c in r <==> c in cs && Matches(c, f)
    ensures !Given(f.category) && (f.tags.None? || f.tags.value == []) && !Given(f.search) ==> r == cs
  {
    if cs == [] then []
    else
      var rest := Select(cs[1..], f);
      assert forall c :: c in cs <==> c == cs[0] || c in cs[1..];
      assert cs == [cs[0]] + cs[1..];
      if Matches(cs[0], f) then
        assert ([cs[0]] + rest)[1..] == rest;
        [cs[0]] + rest
      else rest
  }

  // ---------------------------------------------------------------- sorting

  /** The number a sort orders by. */
  function Key(c: Component, order: SortBy): int {
    match order
    case Popular => c.downloads
    case Rating => c.rating
    case Recent => c.createdAt
  }

  predicate SortedDesc(cs: seq<Component>, order: SortBy) {
    forall i, j :: 0 <= i < j < |cs| ==> Key(cs[i], order) >= Key(cs[j], order)
  }

  /** A sorted list stays sorted under a head whose key bounds every element. */
  lemma SortedCons(h: Component, t: seq<Component>, order: SortBy)
    requires SortedDesc(t, order)
    requires forall x :: x in t ==> Key(x, order) <= Key(h, order)
    ensures SortedDesc([h] + t, order)
  {
    var r := [h] + t;
    forall i, j | 0 <= i < j < |r|
      ensures Key(r[i], order) >= Key(r[j], order)
    {
      if i == 0 {
        assert r[j] == t[j - 1] && r[j] in t;
      } else {
        assert r[i] == t[i - 1] && r[j] == t[j - 1];
      }
    }
  }

  /** The elements whose key is `k`, in order. */
  function WithKey(cs: seq<Component>, order: SortBy, k: int): seq<Component> {
    if cs == [] then []
    else (if Key(cs[0], order) == k then [cs[0]] else []) + WithKey(cs[1..], order, k)
  }

  /** Places `c` before the first element whose key does not exceed its own. */
  function Insert(c: Component, sorted: seq<Component>, order: SortBy): (r: seq<Component>)
    requires SortedDesc(sorted, order)
    ensures SortedDesc(r, order)
    ensures multiset(r) == multiset(sorted) + multiset{c}
  {
    if sorted == [] || Key(c, order) >= Key(sorted[0], order) then
      SortedCons(c, sorted, order);
      [c] + sorted
    else
      var h, t := sorted[0], sorted[1..];
      assert sorted == [h] + t;
      var rest := Insert(c, t, order);
      assert forall x :: x in rest ==> Key(x, order) <= Key(h, order) by {
        forall x | x in rest
          ensures Key(x, order) <= Key(h, order)
        {
          assert x in multiset(rest);
          if x != c {
            assert x in multiset(t);
            var k :| 0 <= k < |t| && t[k] == x;
            assert sorted[k + 1] == x;
          }
        }
      }
      SortedCons(h, rest, order);
      [h] + rest
  }

  /** The inserted element goes ahead of every element with an equal key; the others keep their order. */
  lemma {:induction false} InsertStable(c: Component, sorted: seq<Component>, order: SortBy, k: int)
    requires SortedDesc(sorted, order)
    ensures WithKey(Insert(c, sorted, order), order, k) ==
      (if Key(c, order) == k then [c] else []) + WithKey(sorted, order, k)
  {
    if sorted == [] || Key(c, order) >= Key(sorted[0], order) {
      assert ([c] + sorted)[1..] == sorted;
    } else {
      var h, t := sorted[0], sorted[1..];
      assert sorted == [h] + t;
      InsertStable(c, t, order, k);
      var rest := Insert(c, t, order);
      assert Insert(c, sorted, order) == [h] + rest;
      assert ([h] + rest)[1..] == rest;
    }
  }

  /**
   * `sort((a, b) => key(b) - key(a))`: descending, a stable insertion sort in
   * which an element stays ahead of later ones with an equal key.
   */
  function SortDesc(cs: seq<Component>, order: SortBy): (r: seq<Component>)
    ensures SortedDesc(r, order)
    ensures multiset(r) == multiset(cs)
    ensures forall k :: WithKey(r, order, k) == WithKey(cs, order, k)
  {
    if cs == [] then []
    else
      assert cs == [cs[0]] + cs[1..];
      var sorted := SortDesc(cs[1..], order);
      assert forall k ::
        WithKey(Insert(cs[0], sorted, order), order, k) ==
        (if Key(cs[0], order) == k then [cs[0]] else []) + WithKey(sorted, order, k) by {
        forall k {
          InsertStable(cs[0], sorted, order, k);
        }
      }
      Insert(cs[0], sorted, order)
  }

  /** `getComponents(filter)` on a given list. */
  function Query(all: seq<Component>, f: Filter): (r: seq<Component>)
    ensures multiset(r) == multiset(Select(all, f))
    ensures forall c :: c in r <==> c in all && Matches(c, f)
    ensures f.sortBy.Some? ==> SortedDesc(r, f.sortBy.value)
    ensures f.sortBy.Some? ==> forall k :: WithKey(r, f.sortBy.value, k) == WithKey(Select(all, f), f.sortBy.value, k)
    ensures f.sortBy.None? ==> r == Select(all, f)
  {
    var selected := Select(all, f);
    if f.sortBy.None? then selected
    else
      var r := SortDesc(selected, f.sortBy.value);
      assert forall c :: c in r <==> c in multiset(r);
      r
  }

  /** `slice(0, limit)`: a negative limit counts back from the end. */
  function Slice(cs: seq<Component>, limit: int): (r: seq<Component>)
    ensures r <= cs
    ensures limit >= 0 ==> |r| == if limit < |cs| then limit else |cs|
    ensures limit < 0 ==> |r| == if |cs| + limit > 0 then |cs| + limit else 0
  {
    if limit >= 0 then (if limit < |cs| then cs[..limit] else cs)
    else if |cs| + limit > 0 then cs[..|cs| + limit]
    else []
  }

  // ---------------------------------------------------------------- lookup

  /** The index of the first component with this id, -1 when there is none. */
  function FindIndex(cs: seq<Component>, id: string): (i: int)
    ensures -1 <= i < |cs|
    ensures i >= 0 ==> cs[i].id == id && forall k :: 0 <= k < i ==> cs[k].id != id
    ensures i == -1 <==> forall k :: 0 <= k < |cs| ==> cs[k].id != id
  {
    if cs == [] then -1
    else if cs[0].id == id then 0
    else
      var i := FindIndex(cs[1..], id);
      if i == -1 then -1 else i + 1
  }

  predicate DistinctIds(cs: seq<Component>) {
    forall i, j :: 0 <= i < j < |cs| ==> cs[i].id != cs[j].id
  }

  /** When ids are unique, removing the found entry leaves no component with that id. */
  lemma DeleteRemovesId(cs: seq<Component>, id: string)
    requires DistinctIds(cs)
    requires FindIndex(cs, id) != -1
    ensures var i := FindIndex(cs, id);
      forall c :: c in cs[..i] + cs[i + 1..] ==> c.id != id
  {
    var i := FindIndex(cs, id);
    var rest := cs[..i] + cs[i + 1..];
    forall c | c in rest
      ensures c.id != id
    {
      var k :| 0 <= k < |rest| && rest[k] == c;
      if k < i {
        assert c == cs[k];
      } else {
        assert c == cs[k + 1];
      }
    }
  }

  /** `{ ...component, ...updates }`: every field the update names is replaced. */
  function Merge(c: Component, u: Update, now: int): (r: Component)
    ensures r.updatedAt == now
    ensures r.id == u.id.GetOr(c.id) && r.name == u.name.GetOr(c.name)
    ensures r.downloads == u.downloads.GetOr(c.downloads) && r.tags == u.tags.GetOr(c.tags)
    ensures r.description == u.description.GetOr(c.description) && r.category == u.category.GetOr(c.category)
    ensures r.code == u.code.GetOr(c.code) && r.preview == u.preview.GetOr(c.preview)
    ensures r.author == u.author.GetOr(c.author) && r.rating == u.rating.GetOr(c.rating)
    ensures r.createdAt == u.createdAt.GetOr(c.createdAt)
  {
    Component(
      u.id.GetOr(c.id), u.name.GetOr(c.name), u.description.GetOr(c.description),
      u.category.GetOr(c.category), u.code.GetOr(c.code), u.preview.GetOr(c.preview),
      u.tags.GetOr(c.tags), u.author.GetOr(c.author), u.downloads.GetOr(c.downloads),
      u.rating.GetOr(c.rating), u.createdAt.GetOr(c.createdAt), now)
  }

  /** The id `addComponent` makes from the clock and a random base-36 suffix. */
  function CustomId(stamp: nat, suffix: string): (id: string)
    ensures StartsWith(id, "custom-")
  {
    "custom-" + IntToString(stamp) + "-" + suffix
  }

  function FromDraft(d: Draft, id: string, now: int): Component {
    Component(id, d.name, d.description, d.category, d.code, d.preview, d.tags, d.author,
              d.downloads, d.rating, now, now)
  }

  function Bumped(c: Component): Component {
    c.(downloads := c.downloads + 1)
  }

  // ---------------------------------------------------------------- the service

  class MarketplaceService {
    var components: seq<Component>
    var customComponents: seq<Component>

    /** Starts from a copy of the built-in catalogue and no custom components. */
    constructor(builtIns: seq<Component>)
      ensures components == builtIns && customComponents == []
    {
      components := builtIns;
      customComponents := [];
    }

    /** Built-ins first, then custom components, each in insertion order. */
    function All(): seq<Component>
      reads this
    {
      components + customComponents
    }

    /** `getComponents(filter)`. */
    function GetComponents(f: Filter): (r: seq<Component>)
      reads this
      ensures forall c :: c in r <==> c in All() && Matches(c, f)
      ensures multiset(r) == multiset(Select(All(), f))
      ensures f.sortBy.Some? ==> SortedDesc(r, f.sortBy.value)
      ensures f.sortBy.Some? ==> forall k :: WithKey(r, f.sortBy.value, k) == WithKey(Select(All(), f), f.sortBy.value, k)
      ensures f.sortBy.None? ==> r == Select(All(), f)
    {
      Query(All(), f)
    }

    /** `getComponent(id)`: the first match, built-ins searched before custom components. */
    function GetComponent(id: string): (r: Option<Component>)
      reads this
      ensures r.Some? ==> r.value.id == id && r.value in All()
      ensures r.Some? ==> exists i :: 0 <= i < |All()| && All()[i] == r.value && forall k :: 0 <= k < i ==> All()[k].id != id
      ensures r.None? <==> forall c :: c in All() ==> c.id != id
      ensures (exists c :: c in components && c.id == id) ==> r.Some? && r.value in components
    {
      var i := FindIndex(All(), id);
      if i == -1 then None
      else
        assert forall k :: 0 <= k < |components| ==> All()[k] == components[k];
        Some(All()[i])
    }

    function GetCategories(): seq<Category> {
      Categories
    }

    /** `addComponent(component)`: appends and returns a component with a fresh `custom-` id. */
    method AddComponent(d: Draft, stamp: nat, suffix: string, now: int) returns (c: Component)
      modifies this
      ensures c == FromDraft(d, CustomId(stamp, suffix), now)
      ensures StartsWith(c.id, "custom-")
      ensures customComponents == old(customComponents) + [c]
      ensures components == old(components)
    {
      c := FromDraft(d, CustomId(stamp, suffix), now);
      customComponents := customComponents + [c];
    }

    /** `updateComponent(id, updates)`: only custom components can change. */
    method UpdateComponent(id: string, u: Update, now: int) returns (r: Option<Component>)
      modifies this
      ensures components == old(components)
      ensures var i := FindIndex(old(customComponents), id);
        if i == -1 then r.None? && customComponents == old(customComponents)
        else (r == Some(Merge(old(customComponents)[i], u, now))
              && customComponents == old(customComponents)[i := r.value])
    {
      var i := FindIndex(customComponents, id);
      if i == -1 {
        return None;
      }
      var updated := Merge(customComponents[i], u, now);
      customComponents := customComponents[i := updated];
      r := Some(updated);
    }

    /** `deleteComponent(id)`: removes the first custom component with the id. */
    method DeleteComponent(id: string) returns (deleted: bool)
      modifies this
      ensures components == old(components)
      ensures var i := FindIndex(old(customComponents), id);
        if i == -1 then !deleted && customComponents == old(customComponents)
        else (deleted && customComponents == old(customComponents)[..i] + old(customComponents)[i + 1..])
      ensures deleted ==> |customComponents| == |old(customComponents)| - 1
    {
      var i := FindIndex(customComponents, id);
      if i == -1 {
        return false;
      }
      customComponents := customComponents[..i] + customComponents[i + 1..];
      deleted := true;
    }

    /** `incrementDownloads(id)`: the component `getComponent` finds gains one download. */
    method IncrementDownloads(id: string)
      modifies this
      ensures var i := FindIndex(old(components), id);
        var j := FindIndex(old(customComponents), id);
        if i != -1 then
          components == old(components)[i := Bumped(old(components)[i])]
          && customComponents == old(customComponents)
        else if j != -1 then
          components == old(components)
          && customComponents == old(customComponents)[j := Bumped(old(customComponents)[j])]
        else components == old(components) && customComponents == old(customComponents)
    {
      var i := FindIndex(components, id);
      if i != -1 {
        components := components[i := Bumped(components[i])];
        return;
      }
      var j := FindIndex(customComponents, id);
      if j != -1 {
        customComponents := customComponents[j := Bumped(customComponents[j])];
      }
    }

    /** `getPopular(limit = 6)`: the first `limit` components by downloads. */
    function GetPopular(limit: int := 6): (r: seq<Component>)
      reads this
      ensures r <= GetComponents(Filter(None, None, None, Some(Popular)))
      ensures SortedDesc(r, Popular)
      ensures var sorted := GetComponents(Filter(None, None, None, Some(Popular)));
        limit >= 0 ==> |r| == if limit < |sorted| then limit else |sorted|
    {
      Slice(GetComponents(Filter(None, None, None, Some(Popular))), limit)
    }

    /** `getRecent(limit = 6)`: the first `limit` components by creation time. */
    function GetRecent(limit: int := 6): (r: seq<Component>)
      reads this
      ensures r <= GetComponents(Filter(None, None, None, Some(Recent)))
      ensures SortedDesc(r, Recent)
      ensures var sorted := GetComponents(Filter(None, None, None, Some(Recent)));
        limit >= 0 ==> |r| == if limit < |sorted| then limit else |sorted|
    {
      Slice(GetComponents(Filter(None, None, None, Some(Recent))), limit)
    }

    /** `search(query)`: an empty query keeps everything, in catalogue order. */
    function Search(query: string): (r: seq<Component>)
      reads this
      ensures forall c :: c in r <==> c in All() && (query == "" || SearchMatches(c, query))
      ensures Subsequence(r, All())
      ensures forall c :: multiset(r)[c] == if query == "" || SearchMatches(c, query) then multiset(All())[c] else 0
      ensures query == "" ==> r == All()
    {
      GetComponents(Filter(None, None, Some(query), None))
    }
  }

  /** Without a filter the catalogue comes back whole: built-ins, then custom components. */
  lemma UnfilteredIsEverything(s: MarketplaceService)
    ensures s.GetComponents(NoFilter) == s.components + s.customComponents
  {
  }
}
