/** Short links: the path `get_link` hands out for a recipe, the route
    `s/<str:short_path>/`, and `redirect_short_url`, which looks the recipe up
    by its short hash. Host names (`build_absolute_uri`) are left out: every
    URL here is a path. */
module ShortLinks {
  import opened Text
  import opened Models
  import Filters

  /** A short hash as an f-string prints it: `None` when it is null. */
  function HashText(h: Option<string>): string
  {
    match h
    case None => "None"
    case Some(s) => s
  }

  /** `f'/s/{part_of_url}/'`. */
  function LinkPath(h: Option<string>): string
  {
    "/s/" + HashText(h) + "/"
  }

  datatype LinkResult = Link(path: string) | LinkNotFound

  /** `get_link`: `get_object` looks `pk` up in `visible`, the recipes the
      request's `RecipeFilter` parameters leave (all stored recipes when there
      are none); a recipe outside it is 404, otherwise the answer is the short
      link of its current hash. */
  function GetLink(recipes: map<int, Recipe>, visible: set<int>, pk: int): (r: LinkResult)
    requires visible <= recipes.Keys
    ensures r.LinkNotFound? <==> pk !in visible
    ensures pk in visible && recipes[pk].shortHash.Some? ==> r == Link("/s/" + recipes[pk].shortHash.value + "/")
    ensures pk in visible && recipes[pk].shortHash.None? ==> r == Link("/s/None/")
  {
    if pk in visible then Link(LinkPath(recipes[pk].shortHash)) else LinkNotFound
  }

  /** Without filter parameters, 404 means exactly that no such recipe is
      stored. */
  lemma GetLinkUnfiltered(recipes: map<int, Recipe>, pk: int)
    ensures GetLink(recipes, recipes.Keys, pk).LinkNotFound? <==> pk !in recipes
  {
  }

  /** `?author=` naming someone else hides a stored recipe: its link is 404. */
  lemma GetLinkOtherAuthorNotFound(recipes: map<int, Recipe>, pk: int, author: real)
    requires pk in recipes && recipes[pk].author != Filters.Truncate(author)
    ensures GetLink(recipes, Filters.FilterAuthor(recipes.Keys, recipes, author), pk) == LinkNotFound
  {
  }

  /** `?is_favorited=1` from a signed-in user who has not favourited the
      recipe hides it as well. */
  lemma GetLinkNotFavoritedNotFound(recipes: map<int, Recipe>, favorites: set<Pair>, user: int, pk: int)
    requires pk in recipes && (user, pk) !in favorites
    ensures GetLink(recipes, Filters.FilterFavorited(recipes.Keys, favorites, Filters.Authenticated(user), 1.0), pk)
            == LinkNotFound
  {
  }

  /** `?tags=` naming only slugs the recipe does not carry hides it too. */
  lemma GetLinkUntaggedNotFound(recipes: map<int, Recipe>, tags: map<int, Tag>, slugs: set<string>, pk: int)
    requires pk in recipes && slugs != {}
    requires forall t | t in recipes[pk].tags && t in tags :: tags[t].slug !in slugs
    ensures GetLink(recipes, Filters.FilterTags(recipes.Keys, recipes, tags, slugs), pk) == LinkNotFound
  {
  }

  /** A segment the `str` path converter accepts: non-empty, without `/`. */
  predicate IsSegment(s: string)
  {
    s != [] && forall i | 0 <= i < |s| :: s[i] != '/'
  }

  /** The route `s/<str:short_path>/` on a request path: the captured
      segment, if the path has that shape. */
  function MatchShortRoute(path: string): (seg: Option<string>)
    ensures seg.Some? ==> IsSegment(seg.value) && path == "/s/" + seg.value + "/"
  {
    if |path| >= 5 && path[..3] == "/s/" && path[|path| - 1] == '/' && IsSegment(path[3..|path| - 1]) then
      assert path == path[..3] + path[3..|path| - 1] + [path[|path| - 1]];
      Some(path[3..|path| - 1])
    else None
  }

  /** Every path of the route's shape is recognised, with its segment. */
  lemma RouteRoundTrip(seg: string)
    requires IsSegment(seg)
    ensures MatchShortRoute("/s/" + seg + "/") == Some(seg)
  {
    var path := "/s/" + seg + "/";
    assert path[..3] == "/s/";
    assert path[3..|path| - 1] == seg;
  }

  /** `f'/api/recipes/{recipe.id}/'`. */
  function RecipeUrl(id: int): (url: string)
    ensures |url| > 14 && url[..13] == "/api/recipes/" && url[|url| - 1] == '/'
  {
    "/api/recipes/" + IntText(id) + "/"
  }

  /** Distinct stored ids redirect to distinct URLs. */
  lemma RecipeUrlInjective(i: nat, j: nat)
    requires RecipeUrl(i) == RecipeUrl(j)
    ensures i == j
  {
    var u := RecipeUrl(i);
    assert Decimal(i) == u[13..|u| - 1];
    assert Decimal(j) == u[13..|u| - 1];
    DecimalInjective(i, j);
  }

  /** Recipe `id` is stored and has short hash `h`. */
  predicate HasHash(recipes: map<int, Recipe>, id: int, h: string)
  {
    id in recipes && recipes[id].shortHash == Some(h)
  }

  /** What `get_object_or_404(Recipe, short_hash=...)` and `redirect` give:
      a redirect, a 404, or the error `get` raises when several rows match. */
  datatype Redirect = RedirectTo(url: string) | RedirectNotFound | MultipleObjectsReturned

  /** `redirect_short_url`: redirect to the one recipe whose short hash is
      `shortPath`, 404 when there is none. */
  function RedirectShortUrl(recipes: map<int, Recipe>, shortPath: string): (r: Redirect)
    ensures r.RedirectNotFound? <==> forall id | id in recipes :: recipes[id].shortHash != Some(shortPath)
    ensures r.RedirectTo? ==> exists id :: HasHash(recipes, id, shortPath) && r.url == RecipeUrl(id)
    ensures r.RedirectTo? ==> forall id | HasHash(recipes, id, shortPath) :: r.url == RecipeUrl(id)
    ensures r.MultipleObjectsReturned? <==> exists a, b | HasHash(recipes, a, shortPath) && HasHash(recipes, b, shortPath) :: a != b
    ensures ShortHashesUnique(recipes) ==> !r.MultipleObjectsReturned?
  {
    if forall id | id in recipes :: recipes[id].shortHash != Some(shortPath) then RedirectNotFound
    else if exists a, b | a in recipes && b in recipes && HasHash(recipes, a, shortPath) && HasHash(recipes, b, shortPath) :: a != b then
      MultipleObjectsReturned
    else
      var id :| id in recipes && HasHash(recipes, id, shortPath);
      RedirectTo(RecipeUrl(id))
  }

  /** The request for a path: the route first, then the lookup. A path the
      route does not match is a 404 as well. */
  function Resolve(recipes: map<int, Recipe>, path: string): (r: Redirect)
    ensures MatchShortRoute(path).None? ==> r == RedirectNotFound
  {
    match MatchShortRoute(path)
    case None => RedirectNotFound
    case Some(seg) => RedirectShortUrl(recipes, seg)
  }

  /** The round trip: the link `get_link` gives for a recipe with a short
      hash resolves to that recipe's own URL, given unique short hashes. */
  lemma LinkRoundTrip(recipes: map<int, Recipe>, visible: set<int>, pk: int)
    requires ShortHashesUnique(recipes) && visible <= recipes.Keys
    requires pk in visible && recipes[pk].shortHash.Some? && IsShortHash(recipes[pk].shortHash.value)
    ensures GetLink(recipes, visible, pk).Link?
    ensures Resolve(recipes, GetLink(recipes, visible, pk).path) == RedirectTo(RecipeUrl(pk))
  {
    var h := recipes[pk].shortHash.value;
    assert IsSegment(h) by {
      forall i | 0 <= i < |h| ensures h[i] != '/' {
        assert IsHexDigit(h[i]);
      }
    }
    RouteRoundTrip(h);
  }

  /** A recipe without a hash gets the link `/s/None/`; since every stored
      hash is hex, that link never resolves. */
  lemma NullHashLinkDangles(recipes: map<int, Recipe>, visible: set<int>, pk: int)
    requires visible <= recipes.Keys
    requires pk in visible && recipes[pk].shortHash.None?
    requires forall id | id in recipes && recipes[id].shortHash.Some? :: AllHex(recipes[id].shortHash.value)
    ensures GetLink(recipes, visible, pk) == Link("/s/None/")
    ensures Resolve(recipes, "/s/None/") == RedirectNotFound
  {
    RouteRoundTrip("None");
    assert !AllHex("None") by {
      assert !IsHexDigit("None"[0]);
    }
  }
}
