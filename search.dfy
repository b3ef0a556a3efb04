/** The spotlight search of App.tsx and opening a catalog project by its id. */
module Search {
  import opened Wrappers
  import opened Types
  import opened Strings
  import Registry

  /** A project matches when its lowercased title, description or one of its tags contains the
      lowercased query. */
  predicate Matches(p: Project, query: string)
  {
    var q := ToLower(query);
    || Contains(ToLower(p.title), q)
    || Contains(ToLower(p.description), q)
    || exists k :: 0 <= k < |p.tags| && Contains(ToLower(p.tags[k]), q)
  }

  /** `a` is `b` with some elements left out, the rest in their order. */
  ghost predicate IsSubsequence<T>(a: seq<T>, b: seq<T>)
    decreases |b|
  {
    if |a| == 0 then true
    else if |b| == 0 then false
    else if a[0] == b[0] then IsSubsequence(a[1..], b[1..])
    else IsSubsequence(a, b[1..])
  }

  /** `catalog.filter(p => Matches(p, query))`: the matching projects, all of them, each as often
      as it occurs, in catalog order. */
  function Filter(catalog: seq<Project>, query: string): (r: seq<Project>)
    ensures forall p :: p in r <==> p in catalog && Matches(p, query)
    ensures forall p :: multiset(r)[p] == if Matches(p, query) then multiset(catalog)[p] else 0
    ensures IsSubsequence(r, catalog)
  {
    if |catalog| == 0 then []
    else
      assert catalog == [catalog[0]] + catalog[1..];
      var rest := Filter(catalog[1..], query);
      if Matches(catalog[0], query) then [catalog[0]] + rest else rest
  }

  /** The results list: nothing for a blank query, otherwise the filter. The query itself is
      not trimmed before matching. */
  function FilteredResults(catalog: seq<Project>, query: string): seq<Project>
  {
    if Trim(query) == [] then [] else Filter(catalog, query)
  }

  lemma TrimEmpty(s: string)
    ensures Trim(s) == [] <==> AllWhitespace(s)
  {
  }

  /** A blank query (empty or only whitespace) shows no results, whatever the catalog. */
  lemma BlankQueryEmpty(catalog: seq<Project>, query: string)
    ensures FilteredResults(catalog, query) == [] <==> AllWhitespace(query) || forall p :: p in catalog ==> !Matches(p, query)
  {
    TrimEmpty(query);
    if !AllWhitespace(query) && forall p :: p in catalog ==> !Matches(p, query) {
      var r := Filter(catalog, query);
      if r != [] {
        assert r[0] in r;
      }
    }
  }

  /** A non-blank query shows exactly the matching projects. */
  lemma SearchSpec(catalog: seq<Project>, query: string)
    requires !AllWhitespace(query)
    ensures var r := FilteredResults(catalog, query);
      && (forall p :: p in r <==> p in catalog && Matches(p, query))
      && IsSubsequence(r, catalog)
  {
    TrimEmpty(query);
  }

  lemma LowerCharIdempotent(c: char)
    ensures LowerChar(LowerChar(c)) == LowerChar(c)
  {
  }

  /** Case folding preserves whitespace. */
  lemma LowerKeepsWhitespace(s: string)
    ensures AllWhitespace(ToLower(s)) <==> AllWhitespace(s)
  {
    assert forall k :: 0 <= k < |s| ==> (IsWhitespace(ToLower(s)[k]) <==> IsWhitespace(s[k]));
  }

  /** The search ignores the case of the query. */
  lemma SearchIgnoresCase(catalog: seq<Project>, query: string)
    ensures FilteredResults(catalog, ToLower(query)) == FilteredResults(catalog, query)
  {
    var lq := ToLower(query);
    assert ToLower(lq) == lq by {
      forall k | 0 <= k < |lq| ensures ToLower(lq)[k] == lq[k] {
        LowerCharIdempotent(query[k]);
      }
    }
    assert forall p :: Matches(p, lq) == Matches(p, query);
    TrimEmpty(query);
    TrimEmpty(lq);
    LowerKeepsWhitespace(query);
    FilterSameMatches(catalog, lq, query);
  }

  lemma {:induction false} FilterSameMatches(catalog: seq<Project>, q1: string, q2: string)
    requires forall p :: Matches(p, q1) == Matches(p, q2)
    ensures Filter(catalog, q1) == Filter(catalog, q2)
    decreases |catalog|
  {
    if |catalog| > 0 {
      FilterSameMatches(catalog[1..], q1, q2);
    }
  }

  lemma ContainsSelf(s: string)
    ensures Contains(s, s)
  {
    ContainsIff(s, s);
    assert OccursAt(s, s, 0);
  }

  /** Clicking a tag searches for it: a non-blank tag finds every project that carries it. */
  lemma TagSearchFindsProject(catalog: seq<Project>, p: Project, k: int)
    requires p in catalog && 0 <= k < |p.tags| && !AllWhitespace(p.tags[k])
    ensures p in FilteredResults(catalog, p.tags[k])
  {
    ContainsSelf(ToLower(p.tags[k]));
    TrimEmpty(p.tags[k]);
  }

  /** `allProjects.find(p => p.id === id)` */
  function FindProject(catalog: seq<Project>, id: string): (r: Option<Project>)
    ensures r.Some? ==> r.value in catalog && r.value.id == id
    ensures r.None? <==> forall p :: p in catalog ==> p.id != id
    ensures r.Some? ==> exists k :: 0 <= k < |catalog| && catalog[k] == r.value && forall j :: 0 <= j < k ==> catalog[j].id != id
  {
    if |catalog| == 0 then None
    else if catalog[0].id == id then Some(catalog[0])
    else
      var r := FindProject(catalog[1..], id);
      assert forall p :: p in catalog[1..] ==> p in catalog;
      assert forall p :: p in catalog ==> p == catalog[0] || p in catalog[1..];
      if r.Some? then
        var k :| 0 <= k < |catalog[1..]| && catalog[1..][k] == r.value && forall j :: 0 <= j < k ==> catalog[1..][j].id != id;
        assert catalog[k + 1] == r.value;
        r
      else r
  }

  /** Opens the project's window if the catalog has the id, and does nothing otherwise. */
  function OpenProjectById(ws: seq<WindowState>, catalog: seq<Project>, id: string): seq<WindowState>
    requires |ws| > 0
  {
    match FindProject(catalog, id)
    case None => ws
    case Some(p) => Registry.OpenProjectWindow(ws, p)
  }

  lemma OpenProjectByIdSpec(ws: seq<WindowState>, catalog: seq<Project>, id: string)
    requires Registry.WellFormed(ws) && |ws| > 0
    ensures var r := OpenProjectById(ws, catalog, id);
      && ((forall p :: p in catalog ==> p.id != id) ==> r == ws)
      && ((exists p :: p in catalog && p.id == id) ==> Registry.OnTop(r, "project-" + id) && Registry.WellFormed(r))
  {
    var f := FindProject(catalog, id);
    if f.Some? {
      Registry.OpenProjectWindowSpec(ws, f.value);
    }
  }
}
