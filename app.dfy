/**
 * `src/App.tsx`: the load step that turns `data.json` nodes into graph
 * nodes, the search/category filter, and the favourites and theme state.
 * `fetch`, the `CustomEvent` plumbing and the rendering are the boundary.
 */
module App {
  import opened Wrappers
  import opened JsString
  import opened Storage
  import opened Types
  import opened MultiSelectAssignee

  // ---------------------------------------------------------------------
  // loading data.json
  // ---------------------------------------------------------------------

  /** A node as `data.json` holds it; `None` is a missing optional list. */
  datatype RawNode = RawNode(
    id: string,
    position: Position,
    title: string,
    description: string,
    category: string,
    tags: seq<string>,
    links: Option<seq<Link>>,
    inputs: Option<seq<string>>,
    outputs: Option<seq<string>>,
    next: Option<seq<string>>)

  /** `new Set(data.nodes.map(n => n.id))`. */
  function IdSet(nodes: seq<RawNode>): (s: set<string>)
    ensures forall id :: id in s <==> exists i :: 0 <= i < |nodes| && nodes[i].id == id
  {
    if nodes == [] then {}
    else
      var rest := IdSet(nodes[1..]);
      assert forall i :: 1 <= i < |nodes| ==> nodes[i] == nodes[1..][i - 1];
      {nodes[0].id} + rest
  }

  predicate DistinctIds(nodes: seq<RawNode>) {
    forall i, j :: 0 <= i < j < |nodes| ==> nodes[i].id != nodes[j].id
  }

  /** The set of ids is as large as the list exactly when no id repeats. */
  lemma {:induction false} IdSetSize(nodes: seq<RawNode>)
    ensures |IdSet(nodes)| <= |nodes|
    ensures |IdSet(nodes)| == |nodes| <==> DistinctIds(nodes)
  {
    if nodes != [] {
      var rest := nodes[1..];
      IdSetSize(rest);
      if nodes[0].id in IdSet(rest) {
        DuplicateHead(nodes);
      } else {
        assert |IdSet(nodes)| == |IdSet(rest)| + 1;
        DistinctCons(nodes);
      }
    }
  }

  /** A list whose head id recurs in its tail has a repeated id and no more ids than its tail. */
  lemma DuplicateHead(nodes: seq<RawNode>)
    requires nodes != [] && nodes[0].id in IdSet(nodes[1..])
    ensures IdSet(nodes) == IdSet(nodes[1..]) && !DistinctIds(nodes)
  {
    var rest := nodes[1..];
    var j :| 0 <= j < |rest| && rest[j].id == nodes[0].id;
    assert nodes[j + 1].id == nodes[0].id;
  }

  /** A list whose head id is new has distinct ids exactly when its tail has. */
  lemma DistinctCons(nodes: seq<RawNode>)
    requires nodes != [] && nodes[0].id !in IdSet(nodes[1..])
    ensures DistinctIds(nodes) <==> DistinctIds(nodes[1..])
  {
    var rest := nodes[1..];
    if DistinctIds(rest) {
      forall i, j | 0 <= i < j < |nodes|
        ensures nodes[i].id != nodes[j].id
      {
        assert nodes[j] == rest[j - 1];
        if i > 0 {
          assert nodes[i] == rest[i - 1];
        }
      }
    }
    if DistinctIds(nodes) {
      forall i, j | 0 <= i < j < |rest|
        ensures rest[i].id != rest[j].id
      {
        assert rest[i] == nodes[i + 1] && rest[j] == nodes[j + 1];
      }
    }
  }

  const NODE_WIDTH: int := 200
  const NODE_HEIGHT: int := 80
  const JUNCTION_SIZE: int := 12

  /** The graph node the loader builds from a `data.json` node. */
  function ConvertNode(n: RawNode): (f: FlowNode)
    ensures f.id == n.id && f.position == n.position && f.nodeType == "custom"
    ensures f.data == NodeData(n.title, n.description, n.category, n.tags, n.links.GetOr([]),
                               n.inputs.GetOr([]), n.outputs.GetOr([]), n.next.GetOr([]), None, None)
    ensures n.category == JUNCTION ==> f.width == JUNCTION_SIZE && f.height == JUNCTION_SIZE
    ensures n.category != JUNCTION ==> f.width == NODE_WIDTH && f.height == NODE_HEIGHT
  {
    var small := n.category == JUNCTION;
    FlowNode(n.id, n.position,
             NodeData(n.title, n.description, n.category, n.tags, n.links.GetOr([]), n.inputs.GetOr([]),
                      n.outputs.GetOr([]), n.next.GetOr([]), None, None),
             "custom",
             if small then JUNCTION_SIZE else NODE_WIDTH,
             if small then JUNCTION_SIZE else NODE_HEIGHT)
  }

  const DUPLICATE_IDS: string := "Duplicate Node IDs found."

  /**
   * The load step: an error when two nodes share an id, otherwise one graph
   * node per `data.json` node, in order, with the same id.
   */
  function LoadNodes(nodes: seq<RawNode>): (r: Result<seq<FlowNode>>)
    ensures r.Err? <==> !DistinctIds(nodes)
    ensures r.Err? ==> r.message == DUPLICATE_IDS
    ensures r.Ok? ==> |r.value| == |nodes|
    ensures r.Ok? ==> forall i :: 0 <= i < |nodes| ==> r.value[i] == ConvertNode(nodes[i]) && r.value[i].id == nodes[i].id
  {
    IdSetSize(nodes);
    if |IdSet(nodes)| != |nodes| then Err(DUPLICATE_IDS)
    else Ok(seq(|nodes|, i requires 0 <= i < |nodes| => ConvertNode(nodes[i])))
  }

  // ---------------------------------------------------------------------
  // filteredNodes
  // ---------------------------------------------------------------------

  const ALL: string := "all"
  const FAVORITES: string := "favorites"

  /** The search half of the filter: the term, lower-cased, occurs in the lower-cased label or id. */
  predicate MatchesSearch(n: FlowNode, searchTerm: string) {
    var term := ToLowerAscii(searchTerm);
    Contains(ToLowerAscii(n.data.title), term) || Contains(ToLowerAscii(n.id), term)
  }

  /** The category half: favourites only, one category, or everything. */
  predicate MatchesCategory(n: FlowNode, activeCategory: string, favorites: seq<string>) {
    if activeCategory == FAVORITES then n.id in favorites
    else if activeCategory != ALL then n.data.category == activeCategory
    else true
  }

  predicate Keep(n: FlowNode, searchTerm: string, activeCategory: string, favorites: seq<string>) {
    MatchesSearch(n, searchTerm) && MatchesCategory(n, activeCategory, favorites)
  }

  /** `filteredNodes`. */
  function FilterNodes(nodes: seq<FlowNode>, searchTerm: string, activeCategory: string,
                       favorites: seq<string>): (r: seq<FlowNode>)
    ensures |r| <= |nodes|
    ensures forall n :: n in r <==> n in nodes && Keep(n, searchTerm, activeCategory, favorites)
  {
    if nodes == [] then []
    else
      (if Keep(nodes[0], searchTerm, activeCategory, favorites) then [nodes[0]] else [])
      + FilterNodes(nodes[1..], searchTerm, activeCategory, favorites)
  }

  /** The filter keeps order: it distributes over concatenation. */
  lemma {:induction false} FilterNodesAppend(a: seq<FlowNode>, b: seq<FlowNode>, searchTerm: string,
                                             activeCategory: string, favorites: seq<string>)
    ensures FilterNodes(a + b, searchTerm, activeCategory, favorites)
         == FilterNodes(a, searchTerm, activeCategory, favorites) + FilterNodes(b, searchTerm, activeCategory, favorites)
  {
    if a == [] {
      assert a + b == b;
    } else {
      assert (a + b)[1..] == a[1..] + b;
      FilterNodesAppend(a[1..], b, searchTerm, activeCategory, favorites);
    }
  }

  /** `a` is `b` with some elements left out, the rest in their order. */
  predicate Subsequence(a: seq<FlowNode>, b: seq<FlowNode>)
    decreases |b|
  {
    if a == [] then true
    else if b == [] then false
    else (a[0] == b[0] && Subsequence(a[1..], b[1..])) || Subsequence(a, b[1..])
  }

  /** `filteredNodes` is an order-preserving subsequence of the nodes. */
  lemma {:induction false} FilterNodesSubsequence(nodes: seq<FlowNode>, searchTerm: string, activeCategory: string,
                                                  favorites: seq<string>)
    ensures Subsequence(FilterNodes(nodes, searchTerm, activeCategory, favorites), nodes)
  {
    if nodes != [] {
      FilterNodesSubsequence(nodes[1..], searchTerm, activeCategory, favorites);
      var r := FilterNodes(nodes, searchTerm, activeCategory, favorites);
      var rest := FilterNodes(nodes[1..], searchTerm, activeCategory, favorites);
      if Keep(nodes[0], searchTerm, activeCategory, favorites) {
        assert r == [nodes[0]] + rest;
        assert r[1..] == rest;
      } else {
        assert r == rest;
      }
    }
  }

  /** The empty term occurs in every string. */
  lemma EmptyTermMatches(n: FlowNode)
    ensures MatchesSearch(n, "")
  {
    assert OccursAt(ToLowerAscii(n.data.title), "", 0);
  }

  /** With no search term and the category `all`, every node is kept, in order. */
  lemma {:induction false} FilterAllKeepsEverything(nodes: seq<FlowNode>, favorites: seq<string>)
    ensures FilterNodes(nodes, "", ALL, favorites) == nodes
  {
    if nodes != [] {
      EmptyTermMatches(nodes[0]);
      FilterAllKeepsEverything(nodes[1..], favorites);
      assert [nodes[0]] + nodes[1..] == nodes;
    }
  }

  /** With no search term, `favorites` keeps the favourite nodes and a category keeps that category. */
  lemma FilterByCategory(nodes: seq<FlowNode>, activeCategory: string, favorites: seq<string>, n: FlowNode)
    requires n in nodes
    ensures activeCategory == FAVORITES ==>
      (n in FilterNodes(nodes, "", activeCategory, favorites) <==> n.id in favorites)
    ensures activeCategory != FAVORITES && activeCategory != ALL ==>
      (n in FilterNodes(nodes, "", activeCategory, favorites) <==> n.data.category == activeCategory)
  {
    EmptyTermMatches(n);
  }

  // ---------------------------------------------------------------------
  // favourites and theme
  // ---------------------------------------------------------------------

  const FAVORITES_KEY: string := "helios_favorites"
  const THEME_KEY: string := "helios_theme"
  const DARK: string := "dark"
  const LIGHT: string := "light"

  /**
   * The initial favourites: `[]` when nothing is stored, the stored list when
   * it parses as an array, and `None` otherwise. `JSON.parse` throws on text
   * that is not JSON; JSON that is not an array is not modelled.
   */
  function LoadFavorites(items: map<string, Entry>): (r: Option<seq<string>>)
    ensures FAVORITES_KEY !in items || !Truthy(items[FAVORITES_KEY]) ==> r == Some([])
    ensures FAVORITES_KEY in items && Truthy(items[FAVORITES_KEY]) ==> r == ParseArray(items[FAVORITES_KEY])
  {
    if FAVORITES_KEY in items && Truthy(items[FAVORITES_KEY]) then ParseArray(items[FAVORITES_KEY]) else Some([])
  }

  /** `prev === 'dark' ? 'light' : 'dark'`. */
  function NextTheme(theme: string): (r: string)
    ensures r == DARK || r == LIGHT
    ensures r == DARK <==> theme != DARK
  {
    if theme == DARK then LIGHT else DARK
  }

  /** Two toggles give back a dark or light theme; any other value settles on dark after one. */
  lemma NextThemeInvolution(theme: string)
    ensures theme == DARK || theme == LIGHT ==> NextTheme(NextTheme(theme)) == theme
    ensures NextTheme(NextTheme(NextTheme(theme))) == NextTheme(theme)
  {
  }

  /** The favourites and theme cells of `App`, with the storage they write. */
  class AppState {
    const store: LocalStorage
    var favorites: seq<string>
    var theme: string

    /**
     * The initial state, then the theme effect that runs on mount.  The
     * favourites entry must parse as an array: on text that is not JSON the
     * source throws, and JSON that is not an array is not modelled.
     */
    constructor (store: LocalStorage)
      requires LoadFavorites(store.items).Some?
      modifies store
      ensures this.store == store
      ensures favorites == LoadFavorites(old(store.items)).value
      ensures theme == TextOr(old(store.items), THEME_KEY, DARK)
      ensures store.items == old(store.items)[THEME_KEY := Text(theme)]
    {
      this.store := store;
      favorites := LoadFavorites(store.items).value;
      theme := TextOr(store.items, THEME_KEY, DARK);
      new;
      store.SetItem(THEME_KEY, Text(theme));
    }

    /** `handleFav`: the id toggled in the list, and the new list persisted. */
    method ToggleFav(id: string)
      modifies this, store
      ensures id in old(favorites) ==> favorites == Remove(old(favorites), id)
      ensures id !in old(favorites) ==> favorites == old(favorites) + [id]
      ensures theme == old(theme)
      ensures store.items == old(store.items)[FAVORITES_KEY := StringifyArray(favorites)]
      ensures LoadFavorites(store.items) == Some(favorites)
    {
      var next := Toggle(favorites, id);
      store.SetItem(FAVORITES_KEY, StringifyArray(next));
      favorites := next;
    }

    /** `toggleTheme`, followed by the effect that persists the new theme. */
    method ToggleTheme()
      modifies this, store
      ensures theme == NextTheme(old(theme))
      ensures favorites == old(favorites)
      ensures store.items == old(store.items)[THEME_KEY := Text(theme)]
      ensures TextOr(store.items, THEME_KEY, DARK) == theme
    {
      theme := NextTheme(theme);
      store.SetItem(THEME_KEY, Text(theme));
    }
  }
}
