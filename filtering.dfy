/** Poem filtering: `applyFilters` in src/utils/DataManager.js (a search
    term with a scope, and an exact dynasty) and the filter predicate of
    `filterPoems` in src/main.js (a search over all three fields, and an
    exact dynasty). Both keep the corpus order. */
module Filtering {
  import opened Text
  import opened Maybe
  import opened Records

  /** The stored filter state. `searchType` is one of 'all', 'title',
      'author', 'content'; any other value behaves like 'all'. */
  datatype Filters = Filters(searchTerm: string, dynasty: string, searchType: string)

  const DefaultFilters: Filters := Filters("", "", "all")

  /** The argument of `applyFilters`: the keys the caller passes. */
  datatype FilterPatch = FilterPatch(searchTerm: Option<string>, dynasty: Option<string>, searchType: Option<string>)

  /** `{ ...filters, ...patch }`: a key given in the patch replaces the stored
      one; the others keep their values. */
  function Merge(f: Filters, patch: FilterPatch): (r: Filters)
    ensures patch.searchTerm.None? ==> r.searchTerm == f.searchTerm
    ensures patch.dynasty.None? ==> r.dynasty == f.dynasty
    ensures patch.searchType.None? ==> r.searchType == f.searchType
    ensures patch.searchTerm.Some? ==> r.searchTerm == patch.searchTerm.value
    ensures patch.dynasty.Some? ==> r.dynasty == patch.dynasty.value
    ensures patch.searchType.Some? ==> r.searchType == patch.searchType.value
  {
    Filters(
      if patch.searchTerm.Some? then patch.searchTerm.value else f.searchTerm,
      if patch.dynasty.Some? then patch.dynasty.value else f.dynasty,
      if patch.searchType.Some? then patch.searchType.value else f.searchType)
  }

  /** Applying the same patch twice is the same as applying it once, and a
      patch that names every key forgets the previous filters. */
  lemma MergeProperties(f: Filters, g: Filters, patch: FilterPatch)
    ensures Merge(Merge(f, patch), patch) == Merge(f, patch)
    ensures patch.searchTerm.Some? && patch.dynasty.Some? && patch.searchType.Some?
            ==> Merge(f, patch) == Merge(g, patch)
  {
  }

  /** The search part of the DataManager filter, for a non-empty term:
      the lower-cased term is a substring of the lower-cased scoped field(s). */
  predicate SearchMatches(p: Poem, term: string, scope: string) {
    var t := ToLower(term);
    if scope == "title" then Contains(ToLower(p.title), t)
    else if scope == "author" then Contains(ToLower(p.author), t)
    else if scope == "content" then Contains(ToLower(p.content), t)
    else Contains(ToLower(p.title), t) || Contains(ToLower(p.author), t) || Contains(ToLower(p.content), t)
  }

  /** Whether `applyFilters` keeps a poem: an empty term and an empty
      dynasty impose nothing. */
  predicate Matches(p: Poem, f: Filters) {
    && (f.searchTerm == "" || SearchMatches(p, f.searchTerm, f.searchType))
    && (f.dynasty == "" || p.dynasty == f.dynasty)
  }

  /** `ps.filter(keep)` for the DataManager filter. */
  function Filter(ps: seq<Poem>, f: Filters): (r: seq<Poem>)
    ensures |r| <= |ps|
  {
    if ps == [] then []
    else (if Matches(ps[0], f) then [ps[0]] else []) + Filter(ps[1..], f)
  }

  /** `a` is `b` with some elements left out, the rest in the same order:
      each element of `a` is matched with its first occurrence in what is
      left of `b` (matching early never loses a match). */
  predicate IsSubsequence<T(==)>(a: seq<T>, b: seq<T>)
    decreases |b|
  {
    if a == [] then true
    else if b == [] then false
    else if a[0] == b[0] then IsSubsequence(a[1..], b[1..])
    else IsSubsequence(a, b[1..])
  }

  /** Every sequence is a subsequence of itself. */
  lemma {:induction false} SubsequenceReflexive<T>(s: seq<T>)
    ensures IsSubsequence(s, s)
  {
    if s != [] {
      SubsequenceReflexive(s[1..]);
    }
  }

  /** The result keeps the corpus order: it is a subsequence of the input. */
  lemma {:induction false} FilterSubsequence(ps: seq<Poem>, f: Filters)
    ensures IsSubsequence(Filter(ps, f), ps)
  {
    if ps != [] {
      FilterSubsequence(ps[1..], f);
      var r := Filter(ps, f);
      if Matches(ps[0], f) {
        assert r[0] == ps[0] && r[1..] == Filter(ps[1..], f);
      } else {
        assert r == Filter(ps[1..], f);
        if r != [] {
          FilterMembership(ps[1..], f, r[0]);
          assert r[0] != ps[0];
        }
      }
    }
  }

  /** A poem is in the result exactly when it is in the input and matches. */
  lemma {:induction false} FilterMembership(ps: seq<Poem>, f: Filters, p: Poem)
    ensures p in Filter(ps, f) <==> p in ps && Matches(p, f)
  {
    if ps != [] {
      FilterMembership(ps[1..], f, p);
      assert ps == [ps[0]] + ps[1..];
    }
  }

  /** Filtering twice with the same filters changes nothing more. */
  lemma {:induction false} FilterIdempotent(ps: seq<Poem>, f: Filters)
    ensures Filter(Filter(ps, f), f) == Filter(ps, f)
  {
    if ps != [] {
      FilterIdempotent(ps[1..], f);
      var r := Filter(ps, f);
      if Matches(ps[0], f) {
        assert r != [] && r[0] == ps[0] && r[1..] == Filter(ps[1..], f);
        assert Filter(r, f) == [r[0]] + Filter(r[1..], f);
      } else {
        assert r == Filter(ps[1..], f);
      }
    }
  }

  /** A filter whose conditions hold for every poem keeps the whole input. */
  lemma {:induction false} FilterAll(ps: seq<Poem>, f: Filters)
    requires forall k :: 0 <= k < |ps| ==> Matches(ps[k], f)
    ensures Filter(ps, f) == ps
  {
    if ps != [] {
      FilterAll(ps[1..], f);
      assert ps == [ps[0]] + ps[1..];
    }
  }

  /** The default filters keep every poem. */
  lemma DefaultKeepsAll(ps: seq<Poem>)
    ensures Filter(ps, DefaultFilters) == ps
  {
    FilterAll(ps, DefaultFilters);
  }

  /** An unknown search scope searches all three fields, as 'all' does. */
  lemma UnknownScopeIsAll(p: Poem, f: Filters)
    requires f.searchType !in {"title", "author", "content"}
    ensures Matches(p, f) <==> Matches(p, f.(searchType := "all"))
  {
  }

  /** A scoped search finds a subset of what the 'all' search finds. */
  lemma ScopedWithinAll(p: Poem, f: Filters)
    requires Matches(p, f)
    ensures Matches(p, f.(searchType := "all"))
  {
  }

  /** The filter predicate of `filterPoems` in src/main.js, given the
      dynasty selection and the already lower-cased search text. */
  predicate MainKeeps(p: Poem, dynasty: string, searchText: string) {
    && (dynasty == "" || p.dynasty == dynasty)
    && (searchText == ""
        || Contains(ToLower(p.title), searchText)
        || Contains(ToLower(p.author), searchText)
        || Contains(ToLower(p.content), searchText))
  }

  /** `appState.allPoems.filter(...)`. */
  function MainFilter(ps: seq<Poem>, dynasty: string, searchText: string): (r: seq<Poem>)
    ensures |r| <= |ps|
    ensures forall k :: 0 <= k < |r| ==> MainKeeps(r[k], dynasty, searchText)
  {
    if ps == [] then []
    else (if MainKeeps(ps[0], dynasty, searchText) then [ps[0]] else []) + MainFilter(ps[1..], dynasty, searchText)
  }

  /** The two apps filter alike: src/main.js with input `s` keeps exactly the
      poems the DataManager keeps with term `s`, scope 'all' and the same dynasty. */
  lemma MainKeepsAsAll(p: Poem, dynasty: string, s: string)
    ensures MainKeeps(p, dynasty, ToLower(s)) <==> Matches(p, Filters(s, dynasty, "all"))
  {
    assert ToLower(s) == "" <==> s == "";
  }

  /** Hence the two filtered lists are the same. */
  lemma {:induction false} MainFilterAsFilter(ps: seq<Poem>, dynasty: string, s: string)
    ensures MainFilter(ps, dynasty, ToLower(s)) == Filter(ps, Filters(s, dynasty, "all"))
  {
    if ps != [] {
      MainKeepsAsAll(ps[0], dynasty, s);
      MainFilterAsFilter(ps[1..], dynasty, s);
    }
  }
}
