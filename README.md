# Foodgram: a verified model of the recipe store's core

Foodgram is a Django REST backend for publishing recipes. Users put recipes
in their favourites and in a shopping cart, and they subscribe to other
authors. They download the cart as one shopping list, and they share a recipe
through a short link. This project models the parts of the backend that have
a precise meaning and proves properties of them in Dafny:

- **Tables and constraints** (`models.dfy`, module `Models`). Users,
  ingredients, tags and recipes are datatypes. The declared constraints are
  predicates: unique emails and usernames, unique (name, unit) ingredients,
  unique tag names and slugs, cooking-time and amount ranges, unique short
  hashes, resolving foreign keys and no self-subscription.
- **`Recipe.save`** (`Models`). A blank `short_hash` is replaced by the first
  `MAX_LENGTH_SHORT_HASH` characters of the SHA-256 hex digest of
  `"{id}-{name}-{text}"`. SHA-256 is a parameter returning 64 lower-case hex
  characters. The id is an `Option`, because the first save runs while it is
  still `None`.
- **`validate_format`** (`validators.dfy`, module `Validators`). The username
  check `re.match(r'^[\w.@+-]+$', value)`, including the trailing newline
  that `$` tolerates.
- **Favourites, cart and subscriptions** (`views.dfy`, module `Views`). Each
  endpoint is a function from the rows before the request to the status code
  and the rows after it. There is also the subscriptions listing with its
  recipe counts.
- **The shopping list** (`shopping_list.dfy`, module `ShoppingList`). It
  joins the cart's ingredient rows, groups them by (name, unit), sums them,
  orders them by name and renders `"name - total unit\n"` lines.
- **Short links** (`links.dfy`, module `ShortLinks`). `get_link`, the route
  `s/<str:short_path>/` and `redirect_short_url`.
- **Filters** (`filters.dfy`, module `Filters`). The lower-cased ingredient
  search terms, and the recipe filters on favourites, cart, author and tags.
- **The store** (`store.dfy`, class `Store.Foodgram`). The tables are fields
  and the constraints are its `Valid()` invariant. Every method that changes
  rows keeps `Valid()` and is specified by the functions above. This covers
  the favourite/cart toggle, subscribe and unsubscribe, `Recipe.save` for new
  and edited recipes, inserts of users, ingredients and tags, and user
  deletion with its cascade. `DownloadShoppingCart` builds the text with the
  source's `+=` loop and is proved equal to the rendered aggregation.
- **Strings** (`text.dfy`, module `Text`). Python's `str()` of integers and
  of `None`, and the code-point order of strings.

Behaviours of the code worth knowing, which the model reproduces:

- Removing a favourite or cart entry that is not there returns 400, not
  404 (`backend/api/views.py:218-220`).
- Unsubscribing from an unknown author returns 404. Unsubscribing when the
  subscription does not exist returns 400, so the second of two unsubscribes
  answers 400 (`backend/api/views.py:71-79`).
- The short hash of a new recipe is computed before the database assigns its
  id. The hashed text therefore starts with `None-`, and two new recipes with
  the same name and text get the same hash. The second insert then fails on
  the unique constraint (`backend/recipes/models.py:171-174`;
  `Models.NewRecipesShareHash`, `Store.Foodgram.SaveNewRecipe`).
- A recipe's ingredient lines are a map from ingredient id to amount, and
  its tags a set, so a repeated ingredient or tag cannot be represented: the
  (recipe, ingredient) uniqueness of `backend/recipes/models.py:79-85` holds
  by construction. The rule that a recipe has at least one tag and at least
  one ingredient belongs to serializers that are not part of this model, and
  the model does not enforce it.

## Model

| member | source | states |
|---|---|---|
| `Validators.ValidateFormat` | backend/core/validators.py:5-10 | a failure carries the rejected value; a pass means a non-empty value starting with an allowed character |
| `Validators.ValidateFormatIff` | backend/core/validators.py:8-9 | a value passes exactly when it is a non-empty run of `[\w.@+-]`, optionally followed by one final newline |
| `Validators.EmptyRejected` | backend/core/validators.py:8-10 | the empty string fails, because of the `+` quantifier |
| `Validators.ForbiddenCharRejected` | backend/core/validators.py:8-10 | a character outside the class at any position fails the value, unless it is a single newline at the very end |
| `Validators.SpaceOrSlashRejected` | backend/core/validators.py:9-10 | a space or a `/` anywhere fails the value |
| `Validators.TrailingNewlineAccepted` | backend/core/validators.py:8-9 | a valid name followed by one `\n` still passes |
| `Text.IdText` | backend/recipes/models.py:172 | an f-string prints a missing id as `None` and a present one as its decimal digits |
| `Text.DecimalInjective` | backend/recipes/models.py:172 | distinct ids print differently |
| `Models.CookingTimeOk` | backend/recipes/models.py:140-152 | a cooking time is valid exactly when it lies between MIN_COOCKING_TIME and MAX_COOCKING_TIME, both included |
| `Models.AmountOk` | backend/recipes/models.py:60-73 | an ingredient amount is valid exactly when it lies between MIN_INGREDIENT_AMOUNT and MAX_INGREDIENT_AMOUNT, both included |
| `Models.FieldsValid` | backend/recipes/models.py:112-152 | a recipe's author, tags and ingredients are stored rows, its cooking time is in range and every amount is in range |
| `Models.RecipesValid` | backend/recipes/models.py:112-175 | every stored recipe has valid fields and the short hash `save` assigns |
| `Models.IngredientsUnique` | backend/recipes/models.py:36-42 | no two stored ingredients share both name and measurement unit |
| `Models.TagsUnique` | backend/recipes/models.py:91-101 | no two stored tags share a name, and no two share a slug |
| `Models.UserWellFormed` | backend/users/models.py:9-42 | email, first and last name are present and the username passes `validate_format` |
| `Models.UsersValid` | backend/users/models.py:9-25 | every user is well formed, and emails and usernames are each unique |
| `Models.ShortHashesUnique` | backend/recipes/models.py:157-163 | no two recipes share a non-null short hash |
| `Models.RelationValid` | backend/recipes/models.py:181-237 | every favourite or cart row names a stored user and a stored recipe; as a set of pairs it holds each (user, recipe) once |
| `Models.SubscriptionsValid` | backend/users/models.py:52-78 | every subscription names two stored users who differ; as a set of pairs it holds each (subscriber, subscription) once |
| `Models.ShortHashLength` | backend/recipes/models.py:174 | the hash length is min(64, MAX_LENGTH_SHORT_HASH) |
| `Models.SavedShortHash` | backend/recipes/models.py:171-174 | a non-blank hash is kept; a blank one (None or "") becomes a hex prefix of the digest of id-name-text with the hash length |
| `Models.Save` | backend/recipes/models.py:170-175 | save writes the row with only the hash possibly changed, always non-empty afterwards, and nothing changed when it was already set |
| `Models.ShortHashStable` | backend/recipes/models.py:171-175 | once saved, a recipe keeps its short hash through any sequence of edits and saves |
| `Models.NewRecipesShareHash` | backend/recipes/models.py:171-173 | two unsaved recipes with the same name and text get the same hash, since the input starts with `None-` |
| `Models.HashInput` | backend/recipes/models.py:172 | the hashed text starts with the printed id and a `-`, and ends with the recipe text |
| `Models.HashInputSeparatesIds` | backend/recipes/models.py:172 | hash inputs of different ids differ, whatever the names and texts |
| `Models.HashInputSeparatesUnsaved` | backend/recipes/models.py:172 | a hash input with an id never equals that of an unsaved recipe |
| `Views.Short` | backend/api/serializers.py:23-29 | the compact view holds the recipe's id, name, image and cooking time |
| `Views.Toggle` | backend/api/views.py:201-222 | 404 exactly for an unknown recipe; 400 for POST of a present pair or DELETE of an absent one; otherwise 201 inserts or 204 deletes the pair; no other row changes |
| `Views.ToggleChangesOnlyOnSuccess` | backend/api/views.py:209-220 | a 404 or 400 leaves the relation exactly as it was |
| `Views.AddTwice` | backend/api/views.py:210-216 | a second add of the same pair is 400 and changes nothing |
| `Views.AddThenRemoveRestores` | backend/api/views.py:201-222 | adding an absent pair and removing it answers 201 then 204 and restores the relation |
| `Views.RemoveTwice` | backend/api/views.py:218-222 | removing twice answers 204 then 400 |
| `Views.ToggleKeepsRelationValid` | backend/api/views.py:208-214 | a toggle by a stored user keeps both foreign keys of every row resolving |
| `Views.Subscribe` | backend/api/views.py:52-66 | 404 exactly for an unknown author; 400 for self-subscription or an existing pair; otherwise 201 inserting exactly that pair |
| `Views.Unsubscribe` | backend/api/views.py:69-82 | 404 exactly for an unknown author; 400 for a missing pair; otherwise 204 deleting exactly that pair |
| `Views.SubscribeKeepsValid` | backend/users/models.py:66-78 | subscribing keeps the Subscription constraints, and no user becomes subscribed to themselves |
| `Views.UnsubscribeKeepsValid` | backend/api/views.py:72-74 | unsubscribing keeps the Subscription constraints |
| `Views.SubscribeRoundTrip` | backend/api/views.py:52-82 | subscribe then unsubscribe answers 201 and 204 and restores the rows; unsubscribing when not subscribed is 400 |
| `Views.SelfSubscriptionRefused` | backend/users/models.py:75-78 | subscribing to oneself is 400 and changes nothing |
| `Views.RecipesCount` | backend/api/views.py:93-95 | `Count('author_recipes')`: zero exactly when the user authored no stored recipe, and never more than the stored recipes |
| `Views.SubscriptionsOf` | backend/api/views.py:89-95 | the listing holds exactly the stored users the subscriber follows, each with the number of recipes they authored |
| `Views.ListingExcludesSelf` | backend/api/views.py:91-93 | under the constraints nobody is in their own listing, and the listing is exactly the followed ids |
| `Views.ListingFollowsSubscriptions` | backend/api/views.py:52-95 | after a 201 the author is listed with its count, after a 204 it is gone, and nobody else's entry changes |
| `ShoppingList.Aggregate` | backend/api/views.py:153-162 | the grouped report has at most one line per joined row, and is empty exactly when there are no rows |
| `ShoppingList.AggregateCorrect` | backend/api/views.py:153-162 | the report is strictly ordered by (name, unit) and has a line for exactly the keys among the rows, each with the sum of that key's amounts |
| `ShoppingList.AggregateSortedByName` | backend/api/views.py:161 | report names never decrease in code-point order, the collation the model assumes |
| `ShoppingList.AscendingReportsEqual` | backend/api/views.py:153-162 | two ordered reports with the same totals are equal, so the report is determined by the totals |
| `ShoppingList.TotalPermutation` | backend/api/views.py:160 | a group's sum does not depend on the order of the rows |
| `ShoppingList.AggregatePermutation` | backend/api/views.py:153-162 | the report does not depend on the order of the rows |
| `ShoppingList.JoinRows` | backend/api/views.py:154-158 | each cart row becomes its ingredient's name and unit with the row's amount, in the same order |
| `ShoppingList.JoinRowsPermutation` | backend/api/views.py:154-158 | permuted rows join to permuted items |
| `ShoppingList.CartRowsResolve` | backend/api/views.py:155 | every row of a cart enumeration names a stored recipe, one of its lines and a stored ingredient |
| `ShoppingList.ShoppingListOrderIndependent` | backend/api/views.py:151-170 | any two enumerations of the same cart give the same text, whatever order the recipes were carted in |
| `ShoppingList.EmptyCartEmptyText` | backend/api/views.py:164-170 | an empty cart has no rows and gives the empty text |
| `ShoppingList.EntryLine` | backend/api/views.py:166-170 | a line starts with the ingredient name and ends with a newline |
| `ShoppingList.Render` | backend/api/views.py:164-170 | the text is empty exactly when the report is, and otherwise ends with a newline |
| `ShoppingList.FlourScenario` | backend/api/views.py:165-170 | 200 g and 100 g of flour give the single line `flour - 300 g` |
| `ShortLinks.GetLink` | backend/api/views.py:176-181 | 404 exactly when the recipe is not in the queryset left by the request's filter parameters; otherwise the path `/s/<hash>/`, or `/s/None/` for a null hash |
| `ShortLinks.GetLinkUnfiltered` | backend/api/views.py:176-181 | without filter parameters, 404 exactly for a recipe that is not stored |
| `ShortLinks.GetLinkOtherAuthorNotFound` | backend/api/filters.py:19-22 | `?author=` naming someone other than the author makes `get_link` of a stored recipe answer 404 |
| `ShortLinks.GetLinkNotFavoritedNotFound` | backend/api/filters.py:34-38 | `?is_favorited=1` from a user who has not favourited the recipe makes its `get_link` answer 404 |
| `ShortLinks.GetLinkUntaggedNotFound` | backend/api/filters.py:16-18 | `?tags=` naming only slugs the recipe lacks makes its `get_link` answer 404 |
| `ShortLinks.MatchShortRoute` | backend/foodgram_project/urls.py:17 | a matched path is `/s/` + a non-empty segment without `/` + `/` |
| `ShortLinks.RouteRoundTrip` | backend/foodgram_project/urls.py:17 | every path of that shape is matched, with its segment |
| `ShortLinks.RedirectShortUrl` | backend/foodgram_project/urls.py:8-11 | 404 exactly when no recipe has the hash; a redirect goes to `/api/recipes/<id>/` of a recipe with that hash (any such recipe); several matches only when the hashes are not unique |
| `ShortLinks.RecipeUrl` | backend/foodgram_project/urls.py:10 | the redirect target is a path under `/api/recipes/` ending in `/` |
| `ShortLinks.RecipeUrlInjective` | backend/foodgram_project/urls.py:10 | distinct recipe ids give distinct redirect targets |
| `ShortLinks.Resolve` | backend/foodgram_project/urls.py:8-17 | a path the route does not match is a 404 |
| `ShortLinks.LinkRoundTrip` | backend/api/views.py:176-181 | with unique hashes, the link `get_link` gives for a recipe resolves to that recipe's own URL |
| `ShortLinks.NullHashLinkDangles` | backend/api/views.py:179-180 | a recipe with a null hash gets `/s/None/`, which never resolves while stored hashes are hex |
| `Filters.LowerChar` | backend/api/filters.py:12 | lowering leaves no upper-case letter, keeps every other character and changes every upper-case one |
| `Filters.Lower` | backend/api/filters.py:12 | lowering keeps the length and every non-upper-case character, and leaves no upper-case letter |
| `Filters.LowerIdempotent` | backend/api/filters.py:12 | lowering twice is lowering once |
| `Filters.SearchTerms` | backend/api/filters.py:10-12 | the same number of terms in the same order, each lower-cased |
| `Filters.SearchTermsIdempotent` | backend/api/filters.py:10-12 | the returned terms contain no upper-case letter, so lowering them again changes nothing |
| `Filters.FilterByRelation` | backend/api/filters.py:34-44 | a subset of the queryset; with value 1 and a signed-in user exactly the recipes that user has in the relation; otherwise the queryset unchanged |
| `Filters.FilterFavorited` | backend/api/filters.py:34-38 | with value 1 and a signed-in user exactly the queryset's recipes that user favourited; otherwise the queryset unchanged |
| `Filters.FilterInShoppingCart` | backend/api/filters.py:40-44 | with value 1 and a signed-in user exactly the queryset's recipes in that user's cart; otherwise the queryset unchanged |
| `Filters.RelationFiltersCommute` | backend/api/filters.py:34-44 | the favourite and cart filters commute, and each of the two is idempotent |
| `Filters.ToggleShowsInFilter` | backend/api/filters.py:34-38 | after a 201 favourite add the recipe passes `is_favorited=1` for that user, after a 204 it does not, and no other recipe is affected |
| `Filters.Truncate` | backend/api/filters.py:19-22 | `int()` of the decimal value: its integer part, truncated toward zero |
| `Filters.FilterAuthor` | backend/api/filters.py:19-22 | keeps exactly the recipes whose author id equals the value truncated to an integer |
| `Filters.AuthorValueTruncated` | backend/api/filters.py:19-22 | a value and its integer part select the same recipes |
| `Filters.FractionalAuthorMatchesIntegerPart` | backend/api/filters.py:19-22 | `author=n+f` with 0 <= f < 1 keeps exactly the recipes `author=n` keeps, so `1.5` keeps author 1's recipes |
| `Filters.FilterTags` | backend/api/filters.py:16-18 | no slug leaves the queryset alone; otherwise it keeps exactly the recipes with a tag whose slug was asked for |
| `Filters.FilterTagsMonotone` | backend/api/filters.py:16-18 | asking for more slugs never drops a recipe |
| `Store.Foodgram.Valid` | backend/recipes/models.py:22-237 | the store's invariant: every declared constraint on users, ingredients, tags, recipes, favourites, carts and subscriptions holds, and every stored id is below the next id handed out |
| `Store.Foodgram.CreateUser` | backend/users/models.py:9-42 | a user is stored exactly when the username passes `validate_format`, the required fields are present and the email and username are new |
| `Store.Foodgram.DeleteUser` | backend/users/models.py:52-64 | deleting a user removes every subscription naming them, and with the `RecipesKept` and `RowsKept` rows their recipes and the favourite and cart rows of the user or of those recipes; every constraint still holds |
| `Store.RecipesKept` | backend/recipes/models.py:113-118 | the author foreign key cascades: the recipes left are exactly those not authored by the deleted user, each unchanged |
| `Store.RowsKept` | backend/recipes/models.py:181-226 | the favourite and cart foreign keys cascade: a row survives exactly when neither its user nor its recipe was deleted |
| `Store.SubscriptionsKept` | backend/users/models.py:52-64 | both subscription foreign keys cascade: a row survives exactly when the deleted user is on neither side |
| `Store.CascadeKeepsRelationValid` | backend/recipes/models.py:181-226 | the favourite or cart rows left by the cascade still name stored users and stored recipes |
| `Store.CascadeKeepsRecipesValid` | backend/recipes/models.py:113-118 | the recipes left by the cascade still satisfy their constraints and keep unique hashes |
| `Store.CascadeKeepsSubscriptionsValid` | backend/users/models.py:53-64 | the subscriptions left by the cascade still satisfy the Subscription constraints |
| `Store.Foodgram.AddIngredient` | backend/recipes/models.py:36-42 | an ingredient is stored exactly when no stored one has the same name and unit |
| `Store.Foodgram.AddTag` | backend/recipes/models.py:91-100 | a tag is stored exactly when its name and its slug are both new |
| `Store.Foodgram.SaveNewRecipe` | backend/recipes/models.py:157-175 | a new recipe is stored with the hash of `None-name-text` exactly when no stored recipe has that hash; otherwise nothing changes |
| `Store.Foodgram.SaveExistingRecipe` | backend/recipes/models.py:170-175 | an edit replaces the row through `save`, and the short hash stays the same |
| `Store.Foodgram.AddDelFavoriteShoppingCart` | backend/api/views.py:183-222 | the status and the chosen relation are exactly what `Toggle` gives, the other relation is untouched, and a 201 carries the compact view |
| `Store.Foodgram.Subscribe` | backend/api/views.py:52-66 | status and subscription rows are exactly what `Subscribe` gives, and the constraints still hold |
| `Store.Foodgram.DeleteSubscribe` | backend/api/views.py:69-82 | status and subscription rows are exactly what `Unsubscribe` gives, and the constraints still hold |
| `Store.Foodgram.DownloadShoppingCart` | backend/api/views.py:151-174 | the `+=` loop produces the rendered aggregation of the cart's joined rows |

## Left out

- core/constants.py is not part of this model. MIN/MAX_COOCKING_TIME,
  MIN/MAX_INGREDIENT_AMOUNT and MAX_LENGTH_SHORT_HASH are stand-in values
  (1, 32000, 1, 32000, 10). The proofs depend on them only through
  MIN <= MAX and 0 < MAX_LENGTH_SHORT_HASH: with a hash length of 0, `Save`
  could not promise a non-empty hash and `LinkRoundTrip` would fail. The
  `max_length` limits of the character fields are not
  modelled.
- SHA-256 is a parameter of the store that returns 64 lower-case hex
  characters. Its collision behaviour is not modelled.
- Validators.IsWordChar: Python's Unicode `\w` is approximated by ASCII
  letters, digits and `_`, plus the Russian Cyrillic letters.
- Filters.LowerChar: `str.lower` is approximated on Latin and Russian
  Cyrillic letters only. Every other character is left unchanged.
- ShortLinks.GetLink: the queryset `get_object` searches is a parameter,
  the result of the `RecipeFilter` parameters of the request. A filter
  value the filter form rejects, such as an unknown tag slug, makes
  `get_link` answer 400; that path is not modelled.
- Host names: `build_absolute_uri` is left out. Links and redirect targets
  are paths.
- HTTP details: the content type and `Content-Disposition` header of the
  download, and the paginated form of the subscriptions listing.
- The response body of `subscribe` comes from a serializer that is not part
  of this model. Store.Foodgram.Subscribe returns only the status. The
  model answers self-subscription and duplicates with 400, as the
  Subscription constraints demand.
- Store.Foodgram.SaveNewRecipe and Store.Foodgram.SaveExistingRecipe require
  fields that already pass validation: ranges, and tags and ingredients that
  exist. The recipe serializer that performs that validation is not part of
  this model. SaveNewRecipe also requires a blank hash, because the API
  never sets one.
- Store.Foodgram.CreateUser checks email only for being non-empty. The
  `EmailField` format check and the djoser registration flow are not
  modelled.
- Requests are made by a stored, authenticated user: the relation methods
  require `user in users`. The permission classes (`IsAuthenticated`,
  `IsAuthorOrReadOnly`) are not modelled.
- ShoppingList.Aggregate: `order_by('ingredient__name')` sorts by the
  database's collation, and the model fixes code-point order (`Text.Below`),
  which is SQLite's binary collation. Under a locale collation, such as
  PostgreSQL's en_US.UTF-8, lower- and upper-case names interleave
  differently ("апельсин" before "Яблоко"), so the line order the model
  proves holds for that collation only. Aggregate also orders lines with the
  same name by unit. The
  database query orders by name only and leaves the order of such lines
  unspecified.
- Filters.FilterTags does not model how `AllValuesMultipleFilter` validates
  the requested slugs against the existing ones. NumberFilter values are
  modelled as reals.
- The matching of the ingredient search itself (`^name`, a prefix match) is
  library code and is not modelled. Only the terms are.
- The `default=MIN_INGREDIENT_AMOUNT` of an ingredient line's amount is
  not modelled: every ingredient line in the model carries an explicit
  amount, as the API always supplies one.
- Generic CRUD is not modelled: recipe creation through the API beyond
  `save`, recipe deletion, ingredient and tag deletion, avatars, tag and
  ingredient listings, and the recipes' `pub_date` ordering.
- The admin site, the API router and the fixture script are not modelled.
- Concurrency is not modelled: the check-then-insert of the favourite and
  cart add, and transactions. Every operation runs alone.
