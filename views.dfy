/** What the favourite, shopping-cart and subscription endpoints do to their
    relation tables, and the subscriptions listing, as functions of the rows
    before the request. */
module Views {
  import opened Models

  /** Which relation `add_del_favorite_shopping_cart` works on: the `model`
      argument, Favorite or ShoppingList. */
  datatype Kind = Favorite | ShoppingCart

  /** The request method of the action. */
  datatype Verb = Post | Delete

  /** The response status codes these endpoints produce. */
  datatype Status = Created201 | NoContent204 | BadRequest400 | NotFound404

  /** The response status and the relation rows after the request. */
  datatype Outcome = Outcome(status: Status, rel: set<Pair>)

  /** The compact recipe view the add returns: id, name, image, cooking_time. */
  datatype RecipeShort = RecipeShort(id: int, name: string, image: string, cookingTime: int)

  function Short(id: int, r: Recipe): (v: RecipeShort)
    ensures v.id == id && v.name == r.name && v.image == r.image && v.cookingTime == r.cookingTime
  {
    RecipeShort(id, r.name, r.image, r.cookingTime)
  }

  // ---------------------------------------------------------------------
  // Favourites and shopping cart

  /** `add_del_favorite_shopping_cart` on relation `rel` for user `user` and
      recipe `pk`, where `recipeIds` are the stored recipes: an unknown recipe
      is 404; POST of a present pair and DELETE of an absent one are 400;
      otherwise the pair is inserted (201) or deleted (204). No other row is
      touched. */
  function Toggle(rel: set<Pair>, recipeIds: set<int>, user: int, pk: int, verb: Verb): (o: Outcome)
    ensures forall p | p != (user, pk) :: p in o.rel <==> p in rel
    ensures o.status == NotFound404 <==> pk !in recipeIds
    ensures o.status == BadRequest400 <==> pk in recipeIds && ((verb == Post) == ((user, pk) in rel))
    ensures o.status == Created201 <==> pk in recipeIds && verb == Post && (user, pk) !in rel
    ensures o.status == NoContent204 <==> pk in recipeIds && verb == Delete && (user, pk) in rel
    ensures (user, pk) in o.rel <==> o.status == Created201 || ((user, pk) in rel && o.status != NoContent204)
  {
    if pk !in recipeIds then Outcome(NotFound404, rel)
    else match verb
      case Post =>
        if (user, pk) in rel then Outcome(BadRequest400, rel)
        else Outcome(Created201, rel + {(user, pk)})
      case Delete =>
        if (user, pk) !in rel then Outcome(BadRequest400, rel)
        else Outcome(NoContent204, rel - {(user, pk)})
  }

  /** Only a 201 or a 204 changes the relation. */
  lemma ToggleChangesOnlyOnSuccess(rel: set<Pair>, recipeIds: set<int>, user: int, pk: int, verb: Verb)
    ensures Toggle(rel, recipeIds, user, pk, verb).status in {NotFound404, BadRequest400} ==>
              Toggle(rel, recipeIds, user, pk, verb).rel == rel
  {
    var o := Toggle(rel, recipeIds, user, pk, verb);
    if o.status in {NotFound404, BadRequest400} {
      assert forall p :: p in o.rel <==> p in rel;
    }
  }

  /** Adding twice: the second add is refused with 400 and changes nothing. */
  lemma {:induction false} AddTwice(rel: set<Pair>, recipeIds: set<int>, user: int, pk: int)
    requires pk in recipeIds
    ensures Toggle(Toggle(rel, recipeIds, user, pk, Post).rel, recipeIds, user, pk, Post)
              == Outcome(BadRequest400, Toggle(rel, recipeIds, user, pk, Post).rel)
  {
  }

  /** Adding an absent pair and then removing it answers 201 and 204 and
      restores the relation as it was. */
  lemma {:induction false} AddThenRemoveRestores(rel: set<Pair>, recipeIds: set<int>, user: int, pk: int)
    requires pk in recipeIds && (user, pk) !in rel
    ensures Toggle(rel, recipeIds, user, pk, Post).status == Created201
    ensures Toggle(Toggle(rel, recipeIds, user, pk, Post).rel, recipeIds, user, pk, Delete)
              == Outcome(NoContent204, rel)
  {
    var added := Toggle(rel, recipeIds, user, pk, Post).rel;
    assert added - {(user, pk)} == rel;
  }

  /** Removing twice: the second removal is refused with 400. */
  lemma {:induction false} RemoveTwice(rel: set<Pair>, recipeIds: set<int>, user: int, pk: int)
    requires pk in recipeIds && (user, pk) in rel
    ensures Toggle(rel, recipeIds, user, pk, Delete).status == NoContent204
    ensures Toggle(Toggle(rel, recipeIds, user, pk, Delete).rel, recipeIds, user, pk, Delete).status == BadRequest400
  {
  }

  /** A toggle by a stored user keeps every row's foreign keys resolving. */
  lemma ToggleKeepsRelationValid(rel: set<Pair>, users: map<int, User>, recipes: map<int, Recipe>,
                                 user: int, pk: int, verb: Verb)
    requires RelationValid(rel, users, recipes) && user in users
    ensures RelationValid(Toggle(rel, recipes.Keys, user, pk, verb).rel, users, recipes)
  {
    var o := Toggle(rel, recipes.Keys, user, pk, verb);
    forall p | p in o.rel ensures p.0 in users && p.1 in recipes {
      if p != (user, pk) { assert p in rel; }
    }
  }

  // ---------------------------------------------------------------------
  // Subscriptions

  /** `subscribe`: an unknown author is 404; a self-subscription or an
      existing pair violates a Subscription constraint and is 400; otherwise
      the (subscriber, author) row is inserted with 201. */
  function Subscribe(subs: set<Pair>, userIds: set<int>, subscriber: int, author: int): (o: Outcome)
    ensures forall p | p != (subscriber, author) :: p in o.rel <==> p in subs
    ensures o.status == NotFound404 <==> author !in userIds
    ensures o.status == BadRequest400 <==> author in userIds && (subscriber == author || (subscriber, author) in subs)
    ensures o.status == Created201 <==> author in userIds && subscriber != author && (subscriber, author) !in subs
    ensures o.status != NoContent204
    ensures (subscriber, author) in o.rel <==> (subscriber, author) in subs || o.status == Created201
  {
    if author !in userIds then Outcome(NotFound404, subs)
    else if subscriber == author || (subscriber, author) in subs then Outcome(BadRequest400, subs)
    else Outcome(Created201, subs + {(subscriber, author)})
  }

  /** `delete_subscribe`: an unknown author is 404; a missing pair is 400;
      otherwise exactly that row is deleted with 204. */
  function Unsubscribe(subs: set<Pair>, userIds: set<int>, subscriber: int, author: int): (o: Outcome)
    ensures forall p | p != (subscriber, author) :: p in o.rel <==> p in subs
    ensures o.status == NotFound404 <==> author !in userIds
    ensures o.status == BadRequest400 <==> author in userIds && (subscriber, author) !in subs
    ensures o.status == NoContent204 <==> author in userIds && (subscriber, author) in subs
    ensures o.status != Created201
    ensures (subscriber, author) !in o.rel <==> (subscriber, author) !in subs || o.status == NoContent204
  {
    if author !in userIds then Outcome(NotFound404, subs)
    else if (subscriber, author) !in subs then Outcome(BadRequest400, subs)
    else Outcome(NoContent204, subs - {(subscriber, author)})
  }

  /** Nobody ever becomes subscribed to themselves, and a subscription by a
      stored user keeps the Subscription constraints. */
  lemma SubscribeKeepsValid(subs: set<Pair>, users: map<int, User>, subscriber: int, author: int)
    requires SubscriptionsValid(subs, users) && subscriber in users
    ensures SubscriptionsValid(Subscribe(subs, users.Keys, subscriber, author).rel, users)
    ensures (subscriber, subscriber) !in Subscribe(subs, users.Keys, subscriber, author).rel
  {
    var o := Subscribe(subs, users.Keys, subscriber, author);
    forall p | p in o.rel ensures p.0 in users && p.1 in users && p.0 != p.1 {
      if p != (subscriber, author) { assert p in subs; }
    }
  }

  /** Removing rows keeps the Subscription constraints. */
  lemma UnsubscribeKeepsValid(subs: set<Pair>, users: map<int, User>, subscriber: int, author: int)
    requires SubscriptionsValid(subs, users)
    ensures SubscriptionsValid(Unsubscribe(subs, users.Keys, subscriber, author).rel, users)
  {
    var o := Unsubscribe(subs, users.Keys, subscriber, author);
    forall p | p in o.rel ensures p.0 in users && p.1 in users && p.0 != p.1 {
      assert p in subs;
    }
  }

  /** Subscribe, unsubscribe, unsubscribe again: 201, 204, 400, and the
      rows end as they began. */
  lemma {:induction false} SubscribeRoundTrip(subs: set<Pair>, userIds: set<int>, subscriber: int, author: int)
    requires author in userIds && subscriber != author && (subscriber, author) !in subs
    ensures Subscribe(subs, userIds, subscriber, author).status == Created201
    ensures Unsubscribe(Subscribe(subs, userIds, subscriber, author).rel, userIds, subscriber, author)
              == Outcome(NoContent204, subs)
    ensures Unsubscribe(subs, userIds, subscriber, author).status == BadRequest400
  {
    var added := Subscribe(subs, userIds, subscriber, author).rel;
    assert added - {(subscriber, author)} == subs;
  }

  /** A self-subscription is always refused and leaves the rows alone. */
  lemma SelfSubscriptionRefused(subs: set<Pair>, userIds: set<int>, user: int)
    requires user in userIds
    ensures Subscribe(subs, userIds, user, user) == Outcome(BadRequest400, subs)
  {
  }

  // ---------------------------------------------------------------------
  // The subscriptions listing

  /** The number of recipes user `u` authored: `Count('author_recipes')`. */
  function RecipesCount(recipes: map<int, Recipe>, u: int): (n: nat)
    ensures n == 0 <==> forall id | id in recipes :: recipes[id].author != u
    ensures n <= |recipes|
  {
    var authored := set id | id in recipes && recipes[id].author == u;
    SubsetCardinality(authored, recipes.Keys);
    assert forall id | id in recipes && recipes[id].author == u :: id in authored;
    assert (forall id | id in recipes :: recipes[id].author != u) ==> authored == {};
    |authored|
  }

  /** A subset has no more elements than its superset. */
  lemma SubsetCardinality(a: set<int>, b: set<int>)
    requires a <= b
    ensures |a| <= |b|
  {
    assert b == a + (b - a);
    assert a * (b - a) == {};
  }

  /** `subscriptions`: the users the subscriber follows, each annotated with
      its recipe count. */
  function SubscriptionsOf(subs: set<Pair>, users: map<int, User>, recipes: map<int, Recipe>, subscriber: int): (listing: map<int, nat>)
    ensures forall u :: u in listing <==> u in users && (subscriber, u) in subs
    ensures forall u | u in listing :: listing[u] == RecipesCount(recipes, u)
  {
    map u | u in users && (subscriber, u) in subs :: RecipesCount(recipes, u)
  }

  /** Under the Subscription constraints nobody appears in their own listing,
      and the listing names exactly the followed users. */
  lemma ListingExcludesSelf(subs: set<Pair>, users: map<int, User>, recipes: map<int, Recipe>, subscriber: int)
    requires SubscriptionsValid(subs, users)
    ensures subscriber !in SubscriptionsOf(subs, users, recipes, subscriber)
    ensures SubscriptionsOf(subs, users, recipes, subscriber).Keys == set p | p in subs && p.0 == subscriber :: p.1
  {
    var listing := SubscriptionsOf(subs, users, recipes, subscriber);
    forall u | u in (set p | p in subs && p.0 == subscriber :: p.1) ensures u in listing {
      var p :| p in subs && p.0 == subscriber && p.1 == u;
      assert (subscriber, u) == p;
    }
  }

  /** After a successful subscribe the author is listed with its recipe
      count; after a successful unsubscribe it is gone; nobody else's entry
      changes. */
  lemma {:induction false} ListingFollowsSubscriptions(subs: set<Pair>, users: map<int, User>, recipes: map<int, Recipe>,
                                                        subscriber: int, author: int)
    ensures var o := Subscribe(subs, users.Keys, subscriber, author);
      var after := SubscriptionsOf(o.rel, users, recipes, subscriber);
      && (o.status == Created201 ==> author in after && after[author] == RecipesCount(recipes, author))
      && (forall u | u != author :: u in after <==> u in SubscriptionsOf(subs, users, recipes, subscriber))
    ensures var o := Unsubscribe(subs, users.Keys, subscriber, author);
      var after := SubscriptionsOf(o.rel, users, recipes, subscriber);
      && (o.status == NoContent204 ==> author !in after)
      && (forall u | u != author :: u in after <==> u in SubscriptionsOf(subs, users, recipes, subscriber))
  {
  }
}
