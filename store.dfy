/** The database behind the API: the tables of users, ingredients, tags,
    recipes and the three relations, with the constraints the models declare
    as the class invariant, and the operations of the views and of
    `Recipe.save` that change rows. */
module Store {
  import opened Text
  import opened Models
  import opened Views
  import Validators
  import ShoppingList

  class Foodgram {
    /** `hashlib.sha256(...).hexdigest()`, taken as given. */
    const sha256: string -> HexDigest

    var users: map<int, User>
    var ingredients: map<int, Ingredient>
    var tags: map<int, Tag>
    var recipes: map<int, Recipe>
    var favorites: set<Pair>
    var cart: set<Pair>
    var subs: set<Pair>
    /** The next primary keys the database hands out. */
    var nextUserId: int
    var nextIngredientId: int
    var nextTagId: int
    var nextRecipeId: int

    /** Every declared constraint holds of the stored rows. */
    ghost predicate Valid()
      reads this
    {
      && UsersValid(users)
      && IngredientsUnique(ingredients)
      && TagsUnique(tags)
      && RecipesValid(recipes, users, tags, ingredients)
      && ShortHashesUnique(recipes)
      && RelationValid(favorites, users, recipes)
      && RelationValid(cart, users, recipes)
      && SubscriptionsValid(subs, users)
      && KeysBelow(users.Keys, nextUserId)
      && KeysBelow(ingredients.Keys, nextIngredientId)
      && KeysBelow(tags.Keys, nextTagId)
      && KeysBelow(recipes.Keys, nextRecipeId)
    }

    constructor (sha256: string -> HexDigest)
      ensures Valid() && this.sha256 == sha256
      ensures users == map[] && ingredients == map[] && tags == map[] && recipes == map[]
      ensures favorites == {} && cart == {} && subs == {}
    {
      this.sha256 := sha256;
      users, ingredients, tags, recipes := map[], map[], map[], map[];
      favorites, cart, subs := {}, {}, {};
      nextUserId, nextIngredientId, nextTagId, nextRecipeId := 1, 1, 1, 1;
    }

    /** The relation table of `kind`. */
    function Relation(kind: Kind): set<Pair>
      reads this
    {
      match kind
      case Favorite => favorites
      case ShoppingCart => cart
    }

    // -------------------------------------------------------------------
    // Users

    /** Creating a user row: the username must pass `validate_format`, the
        required fields must be present, and email and username must be new.
        Returns the new id, or None when a check fails. */
    method CreateUser(u: User) returns (id: Option<int>)
      requires Valid()
      modifies this`users, this`nextUserId
      ensures Valid()
      ensures id.Some? <==>
        && UserWellFormed(u)
        && (forall k | k in old(users) :: old(users)[k].email != u.email && old(users)[k].username != u.username)
      ensures id.Some? ==> id.value !in old(users) && users == old(users)[id.value := u]
      ensures id.None? ==> users == old(users)
    {
      if u.email == "" || Validators.ValidateFormat(u.username).Fail? || u.firstName == "" || u.lastName == "" {
        return None;
      }
      if exists k | k in users :: users[k].email == u.email || users[k].username == u.username {
        return None;
      }
      var k := nextUserId;
      users := users[k := u];
      nextUserId := nextUserId + 1;
      id := Some(k);
    }

    /** Deleting a user cascades: their recipes go, every favourite and cart
        row of theirs or of those recipes goes, and every subscription row in
        which they are subscriber or subscription goes. */
    method DeleteUser(u: int)
      requires Valid()
      modifies this`users, this`recipes, this`favorites, this`cart, this`subs
      ensures Valid()
      ensures users == old(users) - {u}
      ensures recipes == RecipesKept(old(recipes), u)
      ensures favorites == RowsKept(old(favorites), u, recipes)
      ensures cart == RowsKept(old(cart), u, recipes)
      ensures subs == SubscriptionsKept(old(subs), u)
    {
      var recipes' := RecipesKept(recipes, u);
      CascadeKeepsUsersValid(users, u);
      CascadeKeepsRecipesValid(recipes, users, tags, ingredients, u);
      CascadeKeepsRelationValid(favorites, users, recipes, u);
      CascadeKeepsRelationValid(cart, users, recipes, u);
      CascadeKeepsSubscriptionsValid(subs, users, u);
      users := users - {u};
      recipes := recipes';
      favorites := RowsKept(favorites, u, recipes');
      cart := RowsKept(cart, u, recipes');
      subs := SubscriptionsKept(subs, u);
    }

    // -------------------------------------------------------------------
    // Ingredients and tags

    /** Inserting an ingredient: refused when one with the same name and
        measurement unit exists. */
    method AddIngredient(i: Ingredient) returns (id: Option<int>)
      requires Valid()
      modifies this`ingredients, this`nextIngredientId
      ensures Valid()
      ensures id.Some? <==> forall k | k in old(ingredients) :: old(ingredients)[k] != i
      ensures id.Some? ==> id.value !in old(ingredients) && ingredients == old(ingredients)[id.value := i]
      ensures id.None? ==> ingredients == old(ingredients)
    {
      if exists k | k in ingredients :: ingredients[k] == i {
        return None;
      }
      var k := nextIngredientId;
      ingredients := ingredients[k := i];
      nextIngredientId := nextIngredientId + 1;
      id := Some(k);
    }

    /** Inserting a tag: refused when its name or its slug is taken. */
    method AddTag(t: Tag) returns (id: Option<int>)
      requires Valid()
      modifies this`tags, this`nextTagId
      ensures Valid()
      ensures id.Some? <==> forall k | k in old(tags) :: old(tags)[k].name != t.name && old(tags)[k].slug != t.slug
      ensures id.Some? ==> id.value !in old(tags) && tags == old(tags)[id.value := t]
      ensures id.None? ==> tags == old(tags)
    {
      if exists k | k in tags :: tags[k].name == t.name || tags[k].slug == t.slug {
        return None;
      }
      var k := nextTagId;
      tags := tags[k := t];
      nextTagId := nextTagId + 1;
      id := Some(k);
    }

    // -------------------------------------------------------------------
    // Recipe.save

    /** Saving a new recipe: `save` runs before the row has an id, so the hash
        is taken over "None-name-text"; the insert then fails on the unique
        short hash if another recipe holds it already. Returns the new id, or
        None for that integrity error. */
    method SaveNewRecipe(r: Recipe) returns (id: Option<int>)
      requires Valid()
      requires FieldsValid(r, users, tags, ingredients) && IsBlank(r.shortHash)
      modifies this`recipes, this`nextRecipeId
      ensures Valid()
      ensures var saved := Save(r, None, sha256);
        && (id.Some? <==> forall k | k in old(recipes) :: old(recipes)[k].shortHash != saved.shortHash)
        && (id.Some? ==> id.value !in old(recipes) && recipes == old(recipes)[id.value := saved])
        && (id.None? ==> recipes == old(recipes))
    {
      var saved := Save(r, None, sha256);
      if exists k | k in recipes :: recipes[k].shortHash == saved.shortHash {
        return None;
      }
      var k := nextRecipeId;
      recipes := recipes[k := saved];
      nextRecipeId := nextRecipeId + 1;
      id := Some(k);
    }

    /** Saving an edited recipe: every field but the hash takes the edit, and
        `save` keeps the hash the row already has. */
    method SaveExistingRecipe(id: int, e: Edit)
      requires Valid() && id in recipes
      requires FieldsValid(ApplyEdit(recipes[id], e), users, tags, ingredients)
      modifies this`recipes
      ensures Valid()
      ensures recipes == old(recipes)[id := Save(ApplyEdit(old(recipes)[id], e), Some(id), sha256)]
      ensures recipes[id].shortHash == old(recipes)[id].shortHash
    {
      var edited := ApplyEdit(recipes[id], e);
      recipes := recipes[id := Save(edited, Some(id), sha256)];
    }

    // -------------------------------------------------------------------
    // Favourites and shopping cart

    /** `add_del_favorite_shopping_cart`: the status and the new rows are
        those `Toggle` gives; the other relation and every table are left
        alone; a 201 carries the compact view of the recipe. */
    method AddDelFavoriteShoppingCart(kind: Kind, verb: Verb, user: int, pk: int)
      returns (status: Status, body: Option<RecipeShort>)
      requires Valid() && user in users
      modifies this`favorites, this`cart
      ensures Valid()
      ensures Outcome(status, Relation(kind)) == Toggle(old(Relation(kind)), recipes.Keys, user, pk, verb)
      ensures kind == Favorite ==> cart == old(cart)
      ensures kind == ShoppingCart ==> favorites == old(favorites)
      ensures body.Some? <==> status == Created201
      ensures status == Created201 ==> body == Some(Short(pk, recipes[pk]))
    {
      ToggleKeepsRelationValid(Relation(kind), users, recipes, user, pk, verb);
      body := None;
      if pk !in recipes {
        return NotFound404, None;
      }
      var rel := Relation(kind);
      match verb {
        case Post =>
          if (user, pk) in rel {
            return BadRequest400, None;
          }
          rel := rel + {(user, pk)};
          status, body := Created201, Some(Short(pk, recipes[pk]));
        case Delete =>
          if (user, pk) !in rel {
            return BadRequest400, None;
          }
          rel := rel - {(user, pk)};
          status := NoContent204;
      }
      match kind {
        case Favorite => favorites := rel;
        case ShoppingCart => cart := rel;
      }
    }

    // -------------------------------------------------------------------
    // Subscriptions

    /** `subscribe`: status and rows as `Subscribe` gives them. */
    method Subscribe(subscriber: int, author: int) returns (status: Status)
      requires Valid() && subscriber in users
      modifies this`subs
      ensures Valid()
      ensures Outcome(status, subs) == Views.Subscribe(old(subs), users.Keys, subscriber, author)
    {
      SubscribeKeepsValid(subs, users, subscriber, author);
      if author !in users {
        return NotFound404;
      }
      if subscriber == author || (subscriber, author) in subs {
        return BadRequest400;
      }
      subs := subs + {(subscriber, author)};
      status := Created201;
    }

    /** `delete_subscribe`: status and rows as `Unsubscribe` gives them. */
    method DeleteSubscribe(subscriber: int, author: int) returns (status: Status)
      requires Valid() && subscriber in users
      modifies this`subs
      ensures Valid()
      ensures Outcome(status, subs) == Unsubscribe(old(subs), users.Keys, subscriber, author)
    {
      UnsubscribeKeepsValid(subs, users, subscriber, author);
      if author !in users {
        return NotFound404;
      }
      if (subscriber, author) !in subs {
        return BadRequest400;
      }
      subs := subs - {(subscriber, author)};
      status := NoContent204;
    }

    // -------------------------------------------------------------------
    // Shopping list

    /** `download_shopping_cart`: `rows` are the (recipe, ingredient) rows of
        the user's cart in the order the database returns them. The grouped
        query is `Aggregate`; the loop appends one line per group. */
    method DownloadShoppingCart(user: int, rows: seq<Pair>) returns (text: string)
      requires Valid()
      requires ShoppingList.EnumeratesCart(rows, user, cart, recipes)
      ensures ShoppingList.RowsResolve(rows, recipes, ingredients)
      ensures text == ShoppingList.Render(ShoppingList.Aggregate(ShoppingList.JoinRows(rows, recipes, ingredients)))
    {
      assert ShoppingList.LinesResolve(recipes, ingredients) by {
        forall id | id in recipes ensures recipes[id].ingredients.Keys <= ingredients.Keys {
          assert RecipeValid(recipes[id], users, tags, ingredients);
        }
      }
      ShoppingList.CartRowsResolve(rows, user, cart, recipes, ingredients);
      var report := ShoppingList.Aggregate(ShoppingList.JoinRows(rows, recipes, ingredients));
      text := "";
      for i := 0 to |report|
        invariant text == ShoppingList.Render(report[..i])
      {
        assert report[..i + 1][..i] == report[..i];
        text := text + ShoppingList.EntryLine(report[i]);
      }
      assert report[..|report|] == report;
    }
  }

  /** Every stored id is below the next one the database hands out. */
  ghost predicate KeysBelow(keys: set<int>, next: int)
  {
    forall id | id in keys :: id < next
  }

  // ---------------------------------------------------------------------
  // The cascade of a user deletion keeps every constraint

  /** The recipes that survive deleting user `u`: those not authored by `u`. */
  function RecipesKept(recipes: map<int, Recipe>, u: int): (kept: map<int, Recipe>)
    ensures kept.Keys <= recipes.Keys
    ensures forall id | id in recipes :: id in kept <==> recipes[id].author != u
    ensures forall id | id in kept :: kept[id] == recipes[id]
  {
    map id | id in recipes && recipes[id].author != u :: recipes[id]
  }

  /** The favourite or cart rows that survive: not by `u`, on a kept recipe. */
  function RowsKept(rel: set<Pair>, u: int, kept: map<int, Recipe>): (rows: set<Pair>)
    ensures forall p :: p in rows <==> p in rel && p.0 != u && p.1 in kept
  {
    set p | p in rel && p.0 != u && p.1 in kept
  }

  /** The subscription rows that survive: `u` on neither side. */
  function SubscriptionsKept(subs: set<Pair>, u: int): (rows: set<Pair>)
    ensures forall p :: p in rows <==> p in subs && p.0 != u && p.1 != u
  {
    set p | p in subs && p.0 != u && p.1 != u
  }

  lemma CascadeKeepsUsersValid(users: map<int, User>, u: int)
    requires UsersValid(users)
    ensures UsersValid(users - {u})
  {
  }

  lemma CascadeKeepsRecipesValid(recipes: map<int, Recipe>, users: map<int, User>, tags: map<int, Tag>,
                                 ingredients: map<int, Ingredient>, u: int)
    requires RecipesValid(recipes, users, tags, ingredients)
    requires ShortHashesUnique(recipes)
    ensures RecipesValid(RecipesKept(recipes, u), users - {u}, tags, ingredients)
    ensures ShortHashesUnique(RecipesKept(recipes, u))
  {
    var kept := RecipesKept(recipes, u);
    forall id | id in kept ensures RecipeValid(kept[id], users - {u}, tags, ingredients) {
      assert RecipeValid(recipes[id], users, tags, ingredients);
    }
  }

  lemma CascadeKeepsRelationValid(rel: set<Pair>, users: map<int, User>, recipes: map<int, Recipe>, u: int)
    requires RelationValid(rel, users, recipes)
    ensures RelationValid(RowsKept(rel, u, RecipesKept(recipes, u)), users - {u}, RecipesKept(recipes, u))
  {
  }

  lemma CascadeKeepsSubscriptionsValid(subs: set<Pair>, users: map<int, User>, u: int)
    requires SubscriptionsValid(subs, users)
    ensures SubscriptionsValid(SubscriptionsKept(subs, u), users - {u})
  {
  }
}
