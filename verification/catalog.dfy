/** The product list page: the search and category filter and the list of
    category choices. */
module Catalog {
  import opened Common
  import opened Entities
  import opened Strings

  /** The search test: the lower-cased name or description includes the
      lower-cased term. */
  predicate MatchesTerm(p: Product, term: string)
  {
    Contains(Lower(p.name), Lower(term)) || Contains(Lower(p.description), Lower(term))
  }

  /** The category test: `product.category?.toLowerCase() === category.toLowerCase()`;
      a product without a category never matches. */
  predicate InCategory(p: Product, category: string)
  {
    p.category.Some? && Lower(p.category.value) == Lower(category)
  }

  function SearchFilter(term: string): Product -> bool
  {
    (p: Product) => MatchesTerm(p, term)
  }

  function CategoryFilter(category: string): Product -> bool
  {
    (p: Product) => InCategory(p, category)
  }

  /** A product is listed: it passes the search when a term is given and the
      category test when a category other than `'all'` is selected. */
  predicate Listed(p: Product, term: string, category: string)
  {
    (term == "" || MatchesTerm(p, term)) && (category == "all" || InCategory(p, category))
  }

  /** `filterProducts()`: the search filter when the term is non-empty, then
      the category filter when the category is not `'all'`. */
  function FilterProducts(ps: seq<Product>, term: string, category: string): (r: seq<Product>)
    ensures forall p :: p in r <==> p in ps && Listed(p, term, category)
  {
    FilterMembers(ps, SearchFilter(term));
    FilterMembers(if term != "" then Filter(ps, SearchFilter(term)) else ps, CategoryFilter(category));
    var searched := if term != "" then Filter(ps, SearchFilter(term)) else ps;
    if category != "all" then Filter(searched, CategoryFilter(category)) else searched
  }

  /** The filtered list is the one-pass filter by `Listed`. */
  lemma FilterProductsIsOneFilter(ps: seq<Product>, term: string, category: string)
    ensures FilterProducts(ps, term, category) == Filter(ps, (p: Product) => Listed(p, term, category))
  {
    var listed := (p: Product) => Listed(p, term, category);
    if term != "" && category != "all" {
      FilterTwice(ps, SearchFilter(term), CategoryFilter(category), listed);
    } else if term != "" {
      FilterTwice(ps, SearchFilter(term), (p: Product) => true, listed);
      FilterKeepsAll(Filter(ps, SearchFilter(term)), (p: Product) => true);
    } else if category != "all" {
      FilterTwice(ps, (p: Product) => true, CategoryFilter(category), listed);
      FilterKeepsAll(ps, (p: Product) => true);
    } else {
      FilterKeepsAll(ps, listed);
    }
  }

  /** The filtered list keeps the input's order, keeps each listed product as
      often as it occurs, and drops every other product. With an empty term and
      category `'all'` it is the whole list. */
  lemma FilterProductsSpec(ps: seq<Product>, term: string, category: string)
    ensures IsSubsequence(FilterProducts(ps, term, category), ps)
    ensures forall p :: p in FilterProducts(ps, term, category) <==> p in ps && Listed(p, term, category)
    ensures forall p ::
              multiset(FilterProducts(ps, term, category))[p] ==
              if Listed(p, term, category) then multiset(ps)[p] else 0
    ensures term == "" && category == "all" ==> FilterProducts(ps, term, category) == ps
  {
    var listed := (p: Product) => Listed(p, term, category);
    FilterProductsIsOneFilter(ps, term, category);
    FilterIsSubsequence(ps, listed);
    FilterMembers(ps, listed);
    forall p
      ensures multiset(FilterProducts(ps, term, category))[p] ==
        if Listed(p, term, category) then multiset(ps)[p] else 0
    {
      FilterCount(ps, listed, p);
    }
  }

  /** A kept product matches the search term and the selected category; a
      product with no category never survives a category filter. */
  lemma FilteredProductsMatch(ps: seq<Product>, term: string, category: string, p: Product)
    requires p in FilterProducts(ps, term, category)
    ensures term != "" ==>
      Contains(Lower(p.name), Lower(term)) || Contains(Lower(p.description), Lower(term))
    ensures category != "all" ==> p.category.Some? && Lower(p.category.value) == Lower(category)
  {
    FilterProductsSpec(ps, term, category);
  }

  // ---- category choices --------------------------------------------------

  /** `productList.map(p => p.category).filter(Boolean)`: the present,
      non-empty categories, in product order. */
  function NamedCategories(ps: seq<Product>): (cs: seq<string>)
    ensures forall c :: c in cs <==> c != "" && exists p :: p in ps && p.category == Some(c)
    decreases |ps|
  {
    if ps == [] then []
    else
      var rest := NamedCategories(ps[1..]);
      assert forall p :: p in ps <==> p == ps[0] || p in ps[1..] by {
        assert ps == [ps[0]] + ps[1..];
      }
      if ps[0].category.Some? && ps[0].category.value != "" then [ps[0].category.value] + rest else rest
  }

  /** Some product has category `c`. */
  predicate HasCategory(ps: seq<Product>, c: string)
  {
    exists p :: p in ps && p.category == Some(c)
  }

  /** The position of the first product whose category is `c`. */
  function FirstWith(ps: seq<Product>, c: string): (k: nat)
    requires HasCategory(ps, c)
    ensures k < |ps| && ps[k].category == Some(c)
    ensures forall j :: 0 <= j < k ==> ps[j].category != Some(c)
    decreases |ps|
  {
    if ps[0].category == Some(c) then 0
    else
      assert HasCategory(ps[1..], c) by {
        var p :| p in ps && p.category == Some(c);
        assert ps == [ps[0]] + ps[1..];
      }
      1 + FirstWith(ps[1..], c)
  }

  /** The named categories keep product order: of two listed categories, the
      one listed first is the one a product carries first. */
  lemma {:induction false} NamedCategoriesOrder(ps: seq<Product>, c: string, d: string)
    requires c in NamedCategories(ps) && d in NamedCategories(ps)
    ensures HasCategory(ps, c) && HasCategory(ps, d)
    ensures IndexOf(NamedCategories(ps), c) < IndexOf(NamedCategories(ps), d) <==>
      FirstWith(ps, c) < FirstWith(ps, d)
    decreases |ps|
  {
    var named := NamedCategories(ps);
    var rest := NamedCategories(ps[1..]);
    var x := ps[0].category;
    if x.Some? && x.value != "" {
      assert named == [x.value] + rest;
      if c != x.value && d != x.value {
        assert c in rest && d in rest;
        NamedCategoriesOrder(ps[1..], c, d);
        IndexOfCons(x.value, rest, c);
        IndexOfCons(x.value, rest, d);
      }
    } else {
      assert named == rest;
      NamedCategoriesOrder(ps[1..], c, d);
    }
  }

  /** `[...new Set(xs)]`: each distinct value once, in order of first appearance. */
  method Distinct(xs: seq<string>) returns (ds: seq<string>)
    ensures NoDups(ds)
    ensures forall c :: c in ds <==> c in xs
    ensures forall k :: 0 <= k < |ds| ==> ds[k] in xs
    ensures forall k, l :: 0 <= k < l < |ds| ==> IndexOf(xs, ds[k]) < IndexOf(xs, ds[l])
  {
    var seen: set<string> := {};
    ds := [];
    for i := 0 to |xs|
      invariant forall c :: c in seen <==> c in ds
      invariant forall c :: c in ds <==> c in xs[..i]
      invariant NoDups(ds)
      invariant forall k :: 0 <= k < |ds| ==> ds[k] in xs && IndexOf(xs, ds[k]) < i
      invariant forall k, l :: 0 <= k < l < |ds| ==> IndexOf(xs, ds[k]) < IndexOf(xs, ds[l])
    {
      assert xs[..i + 1] == xs[..i] + [xs[i]];
      if xs[i] !in seen {
        assert IndexOf(xs, xs[i]) == i;
        ds := ds + [xs[i]];
        seen := seen + {xs[i]};
      }
    }
    assert xs[..|xs|] == xs;
  }

  /** `['all', ...new Set(named categories)]`: `'all'` first, then each
      distinct non-empty category once, in order of first appearance. A
      category literally named `'all'` would be listed a second time. */
  method Categories(ps: seq<Product>) returns (cats: seq<string>)
    ensures |cats| >= 1 && cats[0] == "all"
    ensures NoDups(cats[1..])
    ensures forall c :: c in cats[1..] <==> c != "" && exists p :: p in ps && p.category == Some(c)
    ensures forall i :: 1 <= i < |cats| ==> HasCategory(ps, cats[i])
    ensures forall i, j :: 1 <= i < j < |cats| ==> FirstWith(ps, cats[i]) < FirstWith(ps, cats[j])
  {
    var named := NamedCategories(ps);
    var distinct := Distinct(named);
    cats := ["all"] + distinct;
    assert cats[1..] == distinct;
    forall i, j | 1 <= i < j < |cats|
      ensures HasCategory(ps, cats[i]) && FirstWith(ps, cats[i]) < FirstWith(ps, cats[j])
    {
      assert cats[i] == distinct[i - 1] && cats[j] == distinct[j - 1];
      NamedCategoriesOrder(ps, cats[i], cats[j]);
    }
    forall i | 1 <= i < |cats|
      ensures HasCategory(ps, cats[i])
    {
      assert cats[i] in cats[1..];
    }
  }
}
