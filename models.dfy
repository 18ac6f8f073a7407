/** The entities of the recipe store, their declared constraints, and the
    short hash `Recipe.save` assigns. */
module Models {
  import opened Text
  import Validators

  // Bounds from core/constants.py. That file is not part of this model: the
  // values are stand-ins, and no lemma depends on them beyond MIN <= MAX and
  // 0 < MAX_LENGTH_SHORT_HASH.
  const MIN_COOCKING_TIME: int := 1
  const MAX_COOCKING_TIME: int := 32000
  const MIN_INGREDIENT_AMOUNT: int := 1
  const MAX_INGREDIENT_AMOUNT: int := 32000
  const MAX_LENGTH_SHORT_HASH: nat := 10

  /** Length of a SHA-256 hex digest. */
  const DIGEST_LENGTH: nat := 64

  /** A (user, recipe) row of Favorite or ShoppingList, or a
      (subscriber, subscription) row of Subscription. */
  type Pair = (int, int)

  datatype User = User(email: string, username: string, firstName: string, lastName: string)

  datatype Ingredient = Ingredient(name: string, measurementUnit: string)

  datatype Tag = Tag(name: string, slug: string)

  /** A recipe row. `ingredients` holds its IngredientInRecipe rows as a map
      from ingredient id to amount, so an ingredient occurs at most once per
      recipe; `tags` is the many-to-many tag set. */
  datatype Recipe = Recipe(
    author: int,
    name: string,
    image: string,
    text: string,
    tags: set<int>,
    ingredients: map<int, int>,
    cookingTime: int,
    shortHash: Option<string>)

  predicate CookingTimeOk(t: int) { MIN_COOCKING_TIME <= t <= MAX_COOCKING_TIME }

  predicate AmountOk(a: int) { MIN_INGREDIENT_AMOUNT <= a <= MAX_INGREDIENT_AMOUNT }

  /** No two ingredients share (name, measurement_unit). */
  ghost predicate IngredientsUnique(ingredients: map<int, Ingredient>)
  {
    forall i, j | i in ingredients && j in ingredients && i != j :: ingredients[i] != ingredients[j]
  }

  /** Tag name and tag slug are each unique. */
  ghost predicate TagsUnique(tags: map<int, Tag>)
  {
    forall i, j | i in tags && j in tags && i != j ::
      tags[i].name != tags[j].name && tags[i].slug != tags[j].slug
  }

  /** Every required user field is present and the username passes
      `validate_format`. */
  predicate UserWellFormed(u: User)
  {
    && u.email != ""
    && Validators.ValidateFormat(u.username).Pass?
    && u.firstName != ""
    && u.lastName != ""
  }

  /** Emails are unique, usernames are unique, and every user is well formed. */
  ghost predicate UsersValid(users: map<int, User>)
  {
    && (forall i | i in users :: UserWellFormed(users[i]))
    && (forall i, j | i in users && j in users && i != j ::
          users[i].email != users[j].email && users[i].username != users[j].username)
  }

  /** The field constraints of a recipe row: its foreign keys resolve, and its
      cooking time and every amount are within range. */
  ghost predicate FieldsValid(r: Recipe, users: map<int, User>, tags: map<int, Tag>, ingredients: map<int, Ingredient>)
  {
    && r.author in users
    && r.tags <= tags.Keys
    && r.ingredients.Keys <= ingredients.Keys
    && CookingTimeOk(r.cookingTime)
    && (forall i | i in r.ingredients :: AmountOk(r.ingredients[i]))
  }

  /** A stored recipe row: valid fields, and the short hash `save` assigned. */
  ghost predicate RecipeValid(r: Recipe, users: map<int, User>, tags: map<int, Tag>, ingredients: map<int, Ingredient>)
  {
    FieldsValid(r, users, tags, ingredients) && r.shortHash.Some? && IsShortHash(r.shortHash.value)
  }

  /** Every recipe row satisfies its constraints. */
  ghost predicate RecipesValid(recipes: map<int, Recipe>, users: map<int, User>, tags: map<int, Tag>, ingredients: map<int, Ingredient>)
  {
    forall id | id in recipes :: RecipeValid(recipes[id], users, tags, ingredients)
  }

  /** `short_hash` is unique where it is not null. */
  ghost predicate ShortHashesUnique(recipes: map<int, Recipe>)
  {
    forall i, j | i in recipes && j in recipes && i != j && recipes[i].shortHash.Some? ::
      recipes[i].shortHash != recipes[j].shortHash
  }

  /** Favorite and ShoppingList rows: both foreign keys resolve; the set makes
      (user, recipe) unique. */
  ghost predicate RelationValid(rel: set<Pair>, users: map<int, User>, recipes: map<int, Recipe>)
  {
    forall p | p in rel :: p.0 in users && p.1 in recipes
  }

  /** Subscription rows: both users exist and nobody subscribes to themselves;
      the set makes (subscriber, subscription) unique. */
  ghost predicate SubscriptionsValid(subs: set<Pair>, users: map<int, User>)
  {
    forall p | p in subs :: p.0 in users && p.1 in users && p.0 != p.1
  }

  // ---------------------------------------------------------------------
  // Short hash

  predicate IsHexDigit(c: char) { '0' <= c <= '9' || 'a' <= c <= 'f' }

  predicate AllHex(s: string) { forall i | 0 <= i < |s| :: IsHexDigit(s[i]) }

  /** What `hashlib.sha256(...).hexdigest()` returns: 64 lower-case hex digits. */
  type HexDigest = s: string | |s| == DIGEST_LENGTH && AllHex(s)
    witness seq(64, _ => '0')

  /** The length of `hexdigest()[:MAX_LENGTH_SHORT_HASH]`. */
  function ShortHashLength(): (n: nat)
    ensures n <= DIGEST_LENGTH && n <= MAX_LENGTH_SHORT_HASH
    ensures n == DIGEST_LENGTH || n == MAX_LENGTH_SHORT_HASH
  {
    if MAX_LENGTH_SHORT_HASH < DIGEST_LENGTH then MAX_LENGTH_SHORT_HASH else DIGEST_LENGTH
  }

  /** The shape of every hash `save` assigns. */
  predicate IsShortHash(h: string) { |h| == ShortHashLength() && AllHex(h) }

  /** Python truthiness of the field: None and "" are both false. */
  predicate IsBlank(h: Option<string>) { h == None || h == Some("") }

  /** f'{self.id}-{self.name}-{self.text}' */
  function HashInput(id: Option<int>, name: string, text: string): (input: string)
    ensures |input| > |IdText(id)| && input[..|IdText(id)|] == IdText(id) && input[|IdText(id)|] == '-'
    ensures |input| >= |text| && input[|input| - |text|..] == text
  {
    IdText(id) + "-" + name + "-" + text
  }

  /** The short hash a recipe holds once `save` has run: a blank one is
      replaced by a prefix of the digest of its id, name and text; any other is
      kept as it is. */
  function SavedShortHash(current: Option<string>, id: Option<int>, name: string, text: string,
                          sha256: string -> HexDigest): (h: string)
    ensures !IsBlank(current) ==> h == current.value
    ensures IsBlank(current) ==> IsShortHash(h) && h <= sha256(HashInput(id, name, text))
  {
    if IsBlank(current) then sha256(HashInput(id, name, text))[..ShortHashLength()]
    else current.value
  }

  /** `Recipe.save`: the row as it is written, with its short hash assigned. */
  function Save(r: Recipe, id: Option<int>, sha256: string -> HexDigest): (saved: Recipe)
    ensures saved.shortHash.Some? && saved.shortHash.value != ""
    ensures saved == r.(shortHash := saved.shortHash)
    ensures !IsBlank(r.shortHash) ==> saved == r
  {
    r.(shortHash := Some(SavedShortHash(r.shortHash, id, r.name, r.text, sha256)))
  }

  /** An edit of a stored recipe through its serializer: every field but the
      short hash may change. */
  datatype Edit = Edit(name: string, image: string, text: string, tags: set<int>,
                       ingredients: map<int, int>, cookingTime: int)

  function ApplyEdit(r: Recipe, e: Edit): Recipe
  {
    r.(name := e.name, image := e.image, text := e.text, tags := e.tags,
       ingredients := e.ingredients, cookingTime := e.cookingTime)
  }

  /** The recipe after a series of edits, each followed by `save`. */
  function SaveAll(r: Recipe, id: Option<int>, edits: seq<Edit>, sha256: string -> HexDigest): Recipe
    decreases |edits|
  {
    if edits == [] then r else SaveAll(Save(ApplyEdit(r, edits[0]), id, sha256), id, edits[1..], sha256)
  }

  /** Once a recipe has been saved, its short hash survives any number of
      further edits and saves. */
  lemma {:induction false} ShortHashStable(r: Recipe, id: Option<int>, edits: seq<Edit>, sha256: string -> HexDigest)
    ensures SaveAll(Save(r, id, sha256), id, edits, sha256).shortHash == Save(r, id, sha256).shortHash
    decreases |edits|
  {
    if edits != [] {
      var first := Save(r, id, sha256);
      var next := ApplyEdit(first, edits[0]);
      assert Save(next, id, sha256) == next;
      assert next == ApplyEdit(next, edits[0]);
      ShortHashStable(ApplyEdit(first, edits[0]), id, edits[1..], sha256);
    }
  }

  /** A recipe saved for the first time has no id yet, so its hash input
      starts with "None": two new recipes with the same name and text get the
      same hash, whatever else differs between them. */
  lemma NewRecipesShareHash(r1: Recipe, r2: Recipe, sha256: string -> HexDigest)
    requires IsBlank(r1.shortHash) && IsBlank(r2.shortHash)
    requires r1.name == r2.name && r1.text == r2.text
    ensures Save(r1, None, sha256).shortHash == Save(r2, None, sha256).shortHash
    ensures HashInput(None, r1.name, r1.text) == "None-" + r1.name + "-" + r1.text
  {
  }

  /** Once the id is known the hash input names it: recipes with different
      ids never share a hash input, whatever their names and texts. */
  lemma HashInputSeparatesIds(i: nat, j: nat, name1: string, text1: string, name2: string, text2: string)
    requires i != j
    ensures HashInput(Some(i), name1, text1) != HashInput(Some(j), name2, text2)
  {
    var a, b := Decimal(i), Decimal(j);
    var s, t := HashInput(Some(i), name1, text1), HashInput(Some(j), name2, text2);
    assert s == a + "-" + name1 + "-" + text1;
    assert t == b + "-" + name2 + "-" + text2;
    if |a| < |b| {
      assert s[|a|] == '-' && t[|a|] == b[|a|];
    } else if |b| < |a| {
      assert t[|b|] == '-' && s[|b|] == a[|b|];
    } else if s == t {
      assert a == s[..|a|] && b == t[..|b|];
      DecimalInjective(i, j);
    }
  }

  /** A hash input with an id never equals the one of an unsaved recipe. */
  lemma HashInputSeparatesUnsaved(i: nat, name1: string, text1: string, name2: string, text2: string)
    ensures HashInput(Some(i), name1, text1) != HashInput(None, name2, text2)
  {
    var s := HashInput(Some(i), name1, text1);
    assert s[0] == Decimal(i)[0];
    assert HashInput(None, name2, text2)[0] == 'N';
  }
}
