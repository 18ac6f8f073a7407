/** The recipe-list filters and the ingredient search terms. A queryset is
    the set of ids of the recipes it holds. */
module Filters {
  import opened Models
  import Views

  // ---------------------------------------------------------------------
  // Search terms

  /** An upper-case letter `str.lower` changes: Latin A-Z, Russian А-Я and Ё. */
  predicate IsUpper(c: char)
  {
    'A' <= c <= 'Z' || 'А' <= c <= 'Я' || c == 'Ё'
  }

  /** `str.lower` on one character. */
  function LowerChar(c: char): (d: char)
    ensures !IsUpper(d)
    ensures !IsUpper(c) ==> d == c
    ensures IsUpper(c) ==> d != c
  {
    if 'A' <= c <= 'Z' || 'А' <= c <= 'Я' then (c as int + 32) as char
    else if c == 'Ё' then 'ё'
    else c
  }

  /** `str.lower`: same length, no upper-case letter left, every other
      character kept where it was. */
  function Lower(s: string): (r: string)
    ensures |r| == |s|
    ensures forall i | 0 <= i < |r| :: !IsUpper(r[i])
    ensures forall i | 0 <= i < |s| && !IsUpper(s[i]) :: r[i] == s[i]
    ensures forall i | 0 <= i < |s| :: r[i] == LowerChar(s[i])
  {
    seq(|s|, i requires 0 <= i < |s| => LowerChar(s[i]))
  }

  /** Lowering twice is lowering once. */
  lemma LowerIdempotent(s: string)
    ensures Lower(Lower(s)) == Lower(s)
  {
    var once := Lower(s);
    assert forall i | 0 <= i < |once| :: Lower(once)[i] == once[i];
  }

  /** `get_search_terms`: the terms the parent class parsed from the request,
      each lower-cased, in the same order. */
  function SearchTerms(parsed: seq<string>): (terms: seq<string>)
    ensures |terms| == |parsed|
    ensures forall i | 0 <= i < |parsed| :: terms[i] == Lower(parsed[i])
  {
    seq(|parsed|, i requires 0 <= i < |parsed| => Lower(parsed[i]))
  }

  /** Terms that come back from `get_search_terms` are already lower case,
      so lowering them again changes nothing. */
  lemma SearchTermsIdempotent(parsed: seq<string>)
    ensures SearchTerms(SearchTerms(parsed)) == SearchTerms(parsed)
    ensures forall i, j | 0 <= i < |parsed| && 0 <= j < |parsed[i]| :: !IsUpper(SearchTerms(parsed)[i][j])
  {
    var once := SearchTerms(parsed);
    forall i | 0 <= i < |once| ensures SearchTerms(once)[i] == once[i] {
      LowerIdempotent(parsed[i]);
    }
  }

  // ---------------------------------------------------------------------
  // Recipe filters

  /** `request.user`: anonymous, or the authenticated user with this id. */
  datatype Requester = Anonymous | Authenticated(id: int)

  /** The body `filter_favorited` and `filter_in_shopping_cart` share, on
      relation `rel`: with the value 1 and a signed-in user, keep the recipes
      that user has in the relation; otherwise return the queryset as it is. */
  function FilterByRelation(qs: set<int>, rel: set<Pair>, requester: Requester, value: real): (r: set<int>)
    ensures r <= qs
    ensures value == 1.0 && requester.Authenticated? ==>
              forall id :: id in r <==> id in qs && (requester.id, id) in rel
    ensures value != 1.0 || requester.Anonymous? ==> r == qs
  {
    if value == 1.0 && requester.Authenticated? then set id | id in qs && (requester.id, id) in rel
    else qs
  }

  /** `filter_favorited`: with the value 1 and a signed-in user, exactly the
      recipes that user has favourited; otherwise the queryset as it is. */
  function FilterFavorited(qs: set<int>, favorites: set<Pair>, requester: Requester, value: real): (r: set<int>)
    ensures r <= qs
    ensures value == 1.0 && requester.Authenticated? ==>
              forall id :: id in r <==> id in qs && (requester.id, id) in favorites
    ensures value != 1.0 || requester.Anonymous? ==> r == qs
  {
    FilterByRelation(qs, favorites, requester, value)
  }

  /** `filter_in_shopping_cart`: with the value 1 and a signed-in user,
      exactly the recipes in that user's cart; otherwise the queryset as it
      is. */
  function FilterInShoppingCart(qs: set<int>, cart: set<Pair>, requester: Requester, value: real): (r: set<int>)
    ensures r <= qs
    ensures value == 1.0 && requester.Authenticated? ==>
              forall id :: id in r <==> id in qs && (requester.id, id) in cart
    ensures value != 1.0 || requester.Anonymous? ==> r == qs
  {
    FilterByRelation(qs, cart, requester, value)
  }

  /** Applying the same filter twice is applying it once, and the two
      relation filters may be applied in either order. */
  lemma RelationFiltersCommute(qs: set<int>, favorites: set<Pair>, cart: set<Pair>, requester: Requester,
                               fav: real, inCart: real)
    ensures FilterInShoppingCart(FilterFavorited(qs, favorites, requester, fav), cart, requester, inCart)
         == FilterFavorited(FilterInShoppingCart(qs, cart, requester, inCart), favorites, requester, fav)
    ensures FilterFavorited(FilterFavorited(qs, favorites, requester, fav), favorites, requester, fav)
         == FilterFavorited(qs, favorites, requester, fav)
    ensures FilterInShoppingCart(FilterInShoppingCart(qs, cart, requester, inCart), cart, requester, inCart)
         == FilterInShoppingCart(qs, cart, requester, inCart)
  {
  }

  /** After a successful favourite add, the recipe passes `is_favorited=1`
      for that user (if the queryset holds it); after a successful removal
      it no longer does. Other recipes' membership is unaffected. */
  lemma {:induction false} ToggleShowsInFilter(qs: set<int>, favorites: set<Pair>, recipeIds: set<int>,
                                               user: int, pk: int, verb: Views.Verb)
    requires pk in qs
    ensures var o := Views.Toggle(favorites, recipeIds, user, pk, verb);
      && (o.status == Views.Created201 ==> pk in FilterFavorited(qs, o.rel, Authenticated(user), 1.0))
      && (o.status == Views.NoContent204 ==> pk !in FilterFavorited(qs, o.rel, Authenticated(user), 1.0))
      && (forall id | id != pk ::
            id in FilterFavorited(qs, o.rel, Authenticated(user), 1.0) <==>
            id in FilterFavorited(qs, favorites, Authenticated(user), 1.0))
  {
  }

  /** `int(x)` of a decimal: the integer part, truncated toward zero. */
  function Truncate(x: real): (n: int)
    ensures x >= 0.0 ==> n >= 0 && n as real <= x < n as real + 1.0
    ensures x < 0.0 ==> n <= 0 && n as real - 1.0 < x <= n as real
  {
    if x >= 0.0 then x.Floor else -((-x).Floor)
  }

  /** `author`: a number filter on the author id, exact match. The lookup
      prepares the decimal value for the integer key with `int()`, so a
      fractional value is truncated toward zero before it is compared. */
  function FilterAuthor(qs: set<int>, recipes: map<int, Recipe>, author: real): (r: set<int>)
    requires qs <= recipes.Keys
    ensures r <= qs
    ensures forall id | id in qs :: id in r <==> recipes[id].author == Truncate(author)
  {
    set id | id in qs && recipes[id].author == Truncate(author)
  }

  /** A value and its integer part select the same recipes. */
  lemma AuthorValueTruncated(qs: set<int>, recipes: map<int, Recipe>, author: real)
    requires qs <= recipes.Keys
    ensures FilterAuthor(qs, recipes, author) == FilterAuthor(qs, recipes, Truncate(author) as real)
  {
    assert Truncate(Truncate(author) as real) == Truncate(author);
  }

  /** A fractional value selects the recipes of its integer part: `author=1.5`
      keeps the recipes of author 1. */
  lemma FractionalAuthorMatchesIntegerPart(qs: set<int>, recipes: map<int, Recipe>, n: nat, f: real)
    requires qs <= recipes.Keys
    requires 0.0 <= f < 1.0
    ensures FilterAuthor(qs, recipes, n as real + f) == FilterAuthor(qs, recipes, n as real)
  {
    assert Truncate(n as real + f) == n;
    assert Truncate(n as real) == n;
  }

  /** `tags`: a multiple-choice filter on the tag slugs; no slug leaves the
      queryset alone, otherwise a recipe stays when one of its tags has one of
      the slugs. */
  function FilterTags(qs: set<int>, recipes: map<int, Recipe>, tags: map<int, Tag>, slugs: set<string>): (r: set<int>)
    requires qs <= recipes.Keys
    ensures r <= qs
    ensures slugs == {} ==> r == qs
    ensures slugs != {} ==> forall id | id in qs ::
      id in r <==> exists t | t in recipes[id].tags && t in tags :: tags[t].slug in slugs
  {
    if slugs == {} then qs
    else set id | id in qs && exists t | t in recipes[id].tags && t in tags :: tags[t].slug in slugs
  }

  /** Asking for more slugs never loses a recipe. */
  lemma FilterTagsMonotone(qs: set<int>, recipes: map<int, Recipe>, tags: map<int, Tag>, slugs: set<string>, more: set<string>)
    requires qs <= recipes.Keys
    requires slugs != {} && slugs <= more
    ensures FilterTags(qs, recipes, tags, slugs) <= FilterTags(qs, recipes, tags, more)
  {
    forall id | id in FilterTags(qs, recipes, tags, slugs) ensures id in FilterTags(qs, recipes, tags, more) {
      var t :| t in recipes[id].tags && t in tags && tags[t].slug in slugs;
    }
  }
}
