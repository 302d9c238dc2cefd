/**
 * The storefront's catalogue view: the sidebar filters (category, maximum
 * price, search text) applied to the loaded products, the category
 * checkboxes, and the sort menu.
 */
module Catalog {
  import opened Wrappers
  import opened Domain
  import Seqs
  import Text

  /** `state.filtros`: the checked category id (if any), the price slider value and the search text. */
  datatype Filters = Filters(categoria: Option<string>, preco: real, busca: string)

  /** The storefront's initial filters: no category, price up to 500, empty search. */
  const InitialFilters := Filters(None, 500.0, "")

  /** `if (state.filtros.categoria)`: a category id is set and is not the empty string. */
  predicate CategoryActive(f: Filters) {
    f.categoria.Some? && f.categoria.value != []
  }

  /** `p.categoria_id === state.filtros.categoria`. */
  function InCategory(f: Filters): Product -> bool {
    (p: Product) => p.categoriaId == f.categoria
  }

  /** `p.preco <= state.filtros.preco`. */
  function WithinPrice(f: Filters): Product -> bool {
    (p: Product) => p.preco <= f.preco
  }

  /** The lower-cased name contains `termo`, or there is a non-empty description whose lower-cased form contains it. */
  predicate MatchesTerm(p: Product, termo: string) {
    || Text.Contains(Text.ToLower(p.nome), termo)
    || (p.descricao.Some? && p.descricao.value != [] && Text.Contains(Text.ToLower(p.descricao.value), termo))
  }

  function MatchesSearch(f: Filters): Product -> bool {
    (p: Product) => MatchesTerm(p, Text.ToLower(f.busca))
  }

  /** `aplicarFiltros`: the three `filter` calls, the first and the last only when their filter is set. */
  function ApplyFilters(ps: seq<Product>, f: Filters): (r: seq<Product>)
    ensures r == Seqs.Filter(ps, Keeps(f))
  {
    var a := if CategoryActive(f) then Seqs.Filter(ps, InCategory(f)) else ps;
    var b := Seqs.Filter(a, WithinPrice(f));
    var c := if f.busca != [] then Seqs.Filter(b, MatchesSearch(f)) else b;
    ApplyFiltersIsOneFilter(ps, f);
    c
  }

  /** The reference definition: the single test a product passes to stay in the list. */
  predicate Keep(f: Filters, p: Product) {
    && (CategoryActive(f) ==> p.categoriaId == f.categoria)
    && p.preco <= f.preco
    && (f.busca != [] ==> MatchesTerm(p, Text.ToLower(f.busca)))
  }

  function Keeps(f: Filters): Product -> bool {
    (p: Product) => Keep(f, p)
  }

  /** The category step as a test on every product: it passes when no category is set. */
  function CategoryTest(f: Filters): Product -> bool {
    (p: Product) => CategoryActive(f) ==> p.categoriaId == f.categoria
  }

  /** The search step as a test on every product: it passes when the search text is empty. */
  function SearchTest(f: Filters): Product -> bool {
    (p: Product) => f.busca != [] ==> MatchesTerm(p, Text.ToLower(f.busca))
  }

  lemma CategoryStep(ps: seq<Product>, f: Filters)
    ensures (if CategoryActive(f) then Seqs.Filter(ps, InCategory(f)) else ps) == Seqs.Filter(ps, CategoryTest(f))
  {
    if CategoryActive(f) {
      Seqs.FilterExtensional(ps, InCategory(f), CategoryTest(f));
    } else {
      Seqs.FilterAll(ps, CategoryTest(f));
    }
  }

  lemma SearchStep(ps: seq<Product>, f: Filters)
    ensures (if f.busca != [] then Seqs.Filter(ps, MatchesSearch(f)) else ps) == Seqs.Filter(ps, SearchTest(f))
  {
    if f.busca != [] {
      Seqs.FilterExtensional(ps, MatchesSearch(f), SearchTest(f));
    } else {
      Seqs.FilterAll(ps, SearchTest(f));
    }
  }

  /** The three chained filters select exactly the products that pass `Keep`. */
  lemma ApplyFiltersIsOneFilter(ps: seq<Product>, f: Filters)
    ensures (var a := if CategoryActive(f) then Seqs.Filter(ps, InCategory(f)) else ps;
             var b := Seqs.Filter(a, WithinPrice(f));
             var c := if f.busca != [] then Seqs.Filter(b, MatchesSearch(f)) else b;
             c == Seqs.Filter(ps, Keeps(f)))
  {
    CategoryStep(ps, f);
    var b := Seqs.Filter(Seqs.Filter(ps, CategoryTest(f)), WithinPrice(f));
    Seqs.FilterFusion(ps, CategoryTest(f), WithinPrice(f));
    SearchStep(b, f);
    Seqs.FilterFusion(ps, Seqs.Both(CategoryTest(f), WithinPrice(f)), SearchTest(f));
    Seqs.FilterExtensional(ps, Seqs.Both(Seqs.Both(CategoryTest(f), WithinPrice(f)), SearchTest(f)), Keeps(f));
  }

  /**
   * What the filtered list is: a subsequence of the catalogue in its
   * original order, holding exactly the products that pass every set filter,
   * each as many times as in the catalogue.
   */
  lemma FilteredList(ps: seq<Product>, f: Filters, p: Product)
    ensures Seqs.IsSubsequence(ApplyFilters(ps, f), ps)
    ensures p in ApplyFilters(ps, f) <==> p in ps && Keep(f, p)
    ensures Keep(f, p) ==> multiset(ApplyFilters(ps, f))[p] == multiset(ps)[p]
    ensures forall i :: 0 <= i < |ApplyFilters(ps, f)| ==> ApplyFilters(ps, f)[i].preco <= f.preco
  {
    Seqs.FilterMembership(ps, Keeps(f), p);
  }

  /** On page load (no category, price up to 500, no search) the list is every product priced at most 500, in catalogue order. */
  lemma InitialFiltersListUpTo500(ps: seq<Product>, p: Product)
    ensures ApplyFilters(ps, InitialFilters) == Seqs.Filter(ps, WithinPrice(InitialFilters))
    ensures p in ApplyFilters(ps, InitialFilters) <==> p in ps && p.preco <= 500.0
  {
    Seqs.FilterExtensional(ps, Keeps(InitialFilters), WithinPrice(InitialFilters));
    Seqs.FilterMembership(ps, Keeps(InitialFilters), p);
  }

  /** With a category checked, every listed product is in that category. */
  lemma FilteredByCategory(ps: seq<Product>, f: Filters, i: nat)
    requires CategoryActive(f) && i < |ApplyFilters(ps, f)|
    ensures ApplyFilters(ps, f)[i].categoriaId == f.categoria
  {
    assert Keeps(f)(ApplyFilters(ps, f)[i]);
  }

  /** With a non-empty search text, every listed product's name or description contains it, ignoring ASCII case. */
  lemma FilteredBySearch(ps: seq<Product>, f: Filters, i: nat)
    requires f.busca != [] && i < |ApplyFilters(ps, f)|
    ensures MatchesTerm(ApplyFilters(ps, f)[i], Text.ToLower(f.busca))
  {
    assert Keeps(f)(ApplyFilters(ps, f)[i]);
  }

  /** `filtrarPorCategoria(id, checked)`: checking a box selects its category; unchecking any box clears the category. */
  function SelectCategory(f: Filters, id: string, checked: bool): (g: Filters)
    ensures g.preco == f.preco && g.busca == f.busca
    ensures checked ==> g.categoria == Some(id)
    ensures !checked ==> !CategoryActive(g)
  {
    if checked then f.(categoria := Some(id)) else f.(categoria := None)
  }

  /**
   * Unchecking a box, even one other than the checked category, lists every
   * product that passes the price and search filters.
   */
  lemma UncheckShowsAllCategories(ps: seq<Product>, f: Filters, id: string, p: Product)
    requires p in ps && p.preco <= f.preco
    requires f.busca != [] ==> MatchesTerm(p, Text.ToLower(f.busca))
    ensures p in ApplyFilters(ps, SelectCategory(f, id, false))
  {
    FilteredList(ps, SelectCategory(f, id, false), p);
  }

  // ------------------------------------------------------------- sorting

  /** Non-decreasing by `key`. */
  predicate SortedBy(s: seq<Product>, key: Product -> real) {
    forall i, j :: 0 <= i < j < |s| ==> key(s[i]) <= key(s[j])
  }

  /** Places `x` before the first element of `t` whose key is not smaller. */
  function Insert(x: Product, t: seq<Product>, key: Product -> real): (r: seq<Product>)
    ensures multiset(r) == multiset(t) + multiset{x}
    ensures |r| == |t| + 1
  {
    if t == [] then [x]
    else if key(x) <= key(t[0]) then [x] + t
    else
      assert t == [t[0]] + t[1..];
      [t[0]] + Insert(x, t[1..], key)
  }

  /** Inserting into an ordered list keeps it ordered. */
  lemma {:induction false} InsertKeepsSorted(x: Product, t: seq<Product>, key: Product -> real)
    requires SortedBy(t, key)
    ensures SortedBy(Insert(x, t, key), key)
  {
    if t != [] && key(x) > key(t[0]) {
      var rest := Insert(x, t[1..], key);
      InsertKeepsSorted(x, t[1..], key);
      forall k | 0 <= k < |rest| ensures key(t[0]) <= key(rest[k]) {
        assert multiset(rest)[rest[k]] > 0;
        if rest[k] != x {
          assert rest[k] in t[1..];
        }
      }
      assert Insert(x, t, key) == [t[0]] + rest;
    }
  }

  /**
   * `sort` with a comparator `key(a) - key(b)`: an insertion sort that keeps
   * elements with equal keys in their original order.
   */
  function SortByKey(s: seq<Product>, key: Product -> real): (r: seq<Product>)
    ensures multiset(r) == multiset(s)
    ensures |r| == |s|
    ensures SortedBy(r, key)
  {
    if s == [] then []
    else
      assert s == [s[0]] + s[1..];
      InsertKeepsSorted(s[0], SortByKey(s[1..], key), key);
      Insert(s[0], SortByKey(s[1..], key), key)
  }

  /** A list already in order is left as it is. */
  lemma {:induction false} SortByKeyKeepsSorted(s: seq<Product>, key: Product -> real)
    requires SortedBy(s, key)
    ensures SortByKey(s, key) == s
  {
    if s != [] {
      SortByKeyKeepsSorted(s[1..], key);
      if |s| > 1 {
        assert key(s[0]) <= key(s[1]);
      }
    }
  }

  /** The products of `s` whose key is `v`, in their order in `s`. */
  function Ties(s: seq<Product>, key: Product -> real, v: real): seq<Product> {
    if s == [] then [] else (if key(s[0]) == v then [s[0]] else []) + Ties(s[1..], key, v)
  }

  /** Inserting `x` puts it ahead of every element with its key, and moves no other element of that key. */
  lemma {:induction false} InsertKeepsTies(x: Product, t: seq<Product>, key: Product -> real, v: real)
    ensures Ties(Insert(x, t, key), key, v) == (if key(x) == v then [x] else []) + Ties(t, key, v)
  {
    if t == [] || key(x) <= key(t[0]) {
      assert ([x] + t)[1..] == t;
    } else {
      var rest := Insert(x, t[1..], key);
      InsertKeepsTies(x, t[1..], key, v);
      assert ([t[0]] + rest)[1..] == rest;
    }
  }

  /** The sort is stable: the products sharing a key come out in the order they went in. */
  lemma {:induction false} SortByKeyStable(s: seq<Product>, key: Product -> real, v: real)
    ensures Ties(SortByKey(s, key), key, v) == Ties(s, key, v)
  {
    if s != [] {
      SortByKeyStable(s[1..], key, v);
      InsertKeepsTies(s[0], SortByKey(s[1..], key), key, v);
    }
  }

  function Price(p: Product): real { p.preco }

  function NegPrice(p: Product): real { -p.preco }

  function NegCreated(p: Product): real { -(p.createdAt as real) }

  /**
   * `ordenarProdutos(tipo)`: a permutation of the list, cheapest first for
   * `menor-preco`, dearest first for `maior-preco`, newest first for
   * `novos`, and the list as it is for any other value.
   */
  function SortProducts(ps: seq<Product>, tipo: string): (r: seq<Product>)
    ensures multiset(r) == multiset(ps)
    ensures tipo == "menor-preco" ==> forall i, j :: 0 <= i < j < |r| ==> r[i].preco <= r[j].preco
    ensures tipo == "maior-preco" ==> forall i, j :: 0 <= i < j < |r| ==> r[i].preco >= r[j].preco
    ensures tipo == "novos" ==> forall i, j :: 0 <= i < j < |r| ==> r[i].createdAt >= r[j].createdAt
    ensures tipo != "menor-preco" && tipo != "maior-preco" && tipo != "novos" ==> r == ps
  {
    if tipo == "menor-preco" then
      var r := SortByKey(ps, Price);
      assert forall i, j :: 0 <= i < j < |r| ==> Price(r[i]) <= Price(r[j]);
      r
    else if tipo == "maior-preco" then
      var r := SortByKey(ps, NegPrice);
      assert forall i, j :: 0 <= i < j < |r| ==> NegPrice(r[i]) <= NegPrice(r[j]);
      r
    else if tipo == "novos" then
      var r := SortByKey(ps, NegCreated);
      assert forall i, j :: 0 <= i < j < |r| ==> NegCreated(r[i]) <= NegCreated(r[j]);
      r
    else ps
  }

  /** Products with the same price (or the same creation time, for `novos`) keep their relative order. */
  lemma SortProductsStable(ps: seq<Product>, tipo: string, v: real)
    ensures tipo == "menor-preco" ==> Ties(SortProducts(ps, tipo), Price, v) == Ties(ps, Price, v)
    ensures tipo == "maior-preco" ==> Ties(SortProducts(ps, tipo), NegPrice, v) == Ties(ps, NegPrice, v)
    ensures tipo == "novos" ==> Ties(SortProducts(ps, tipo), NegCreated, v) == Ties(ps, NegCreated, v)
  {
    SortByKeyStable(ps, Price, v);
    SortByKeyStable(ps, NegPrice, v);
    SortByKeyStable(ps, NegCreated, v);
  }

  /** Sorting the filtered list neither adds nor loses a product, so every listed product still passes the filters. */
  lemma SortedStillFiltered(ps: seq<Product>, f: Filters, tipo: string, p: Product)
    ensures p in SortProducts(ApplyFilters(ps, f), tipo) <==> p in ps && Keep(f, p)
  {
    var l := ApplyFilters(ps, f);
    assert p in SortProducts(l, tipo) <==> multiset(SortProducts(l, tipo))[p] > 0;
    assert p in l <==> multiset(l)[p] > 0;
    FilteredList(ps, f, p);
  }
}
