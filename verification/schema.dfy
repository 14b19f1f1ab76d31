/** The stored state of the backend: users, ingredients, tags, recipes, the
    RecipeIngredient join rows and the three user relations (favorites,
    shopping cart, subscriptions), together with the database constraints the
    models declare. Relation tables are sequences of rows, so that "at most
    one row per pair" is a property the operations must keep. */
module Schema {
  import opened Common
  import Usernames

  datatype User = User(username: string, email: string)

  datatype Ingredient = Ingredient(name: string, measurementUnit: string)

  datatype Recipe = Recipe(
    author: UserId,
    name: string,
    text: string,
    image: string,
    cookingTime: int,
    tags: set<TagId>,
    shortLink: string
  )

  /** One RecipeIngredient row: an ingredient of a recipe with its amount. */
  datatype RecipeIngredient = RecipeIngredient(recipe: RecipeId, ingredient: IngredientId, amount: int)

  datatype Database = Database(
    users: map<UserId, User>,
    ingredients: map<IngredientId, Ingredient>,
    tags: set<TagId>,
    recipes: map<RecipeId, Recipe>,
    recipeIngredients: seq<RecipeIngredient>,
    favorites: seq<(UserId, RecipeId)>,
    carts: seq<(UserId, RecipeId)>,
    subscriptions: seq<(UserId, UserId)>   // (follower, subscribed_to)
  )

  // ---------------------------------------------------------------------
  // Constraints
  // ---------------------------------------------------------------------

  /** Usernames and emails are unique, and every username passes the validator. */
  ghost predicate UsersValid(db: Database) {
    && (forall a, b :: a in db.users && b in db.users && db.users[a].username == db.users[b].username ==> a == b)
    && (forall a, b :: a in db.users && b in db.users && db.users[a].email == db.users[b].email ==> a == b)
    && (forall a :: a in db.users ==> Usernames.ValidateUsername(db.users[a].username).Ok?)
  }

  /** Ingredient names are unique (and with them the (name, unit) pairs). */
  ghost predicate IngredientsValid(db: Database) {
    forall a, b :: a in db.ingredients && b in db.ingredients && db.ingredients[a].name == db.ingredients[b].name ==> a == b
  }

  /** The set of stored short links. */
  function StoredLinks(recipes: map<RecipeId, Recipe>): set<string> {
    set id | id in recipes :: recipes[id].shortLink
  }

  ghost predicate RecipeValid(cfg: Config, db: Database, r: Recipe) {
    && r.author in db.users
    && r.tags <= db.tags
    && cfg.CookingTimeInRange(r.cookingTime)
  }

  /** Every recipe refers to stored rows, its cooking time is in range, short links are unique. */
  ghost predicate RecipesValid(cfg: Config, db: Database) {
    && (forall id :: id in db.recipes ==> RecipeValid(cfg, db, db.recipes[id]))
    && (forall a, b :: a in db.recipes && b in db.recipes && db.recipes[a].shortLink == db.recipes[b].shortLink ==> a == b)
  }

  ghost predicate RowValid(cfg: Config, db: Database, row: RecipeIngredient) {
    && row.recipe in db.recipes
    && row.ingredient in db.ingredients
    && cfg.AmountInRange(row.amount)
  }

  /** Every RecipeIngredient row is in range, and at most one row per (recipe, ingredient). */
  ghost predicate RecipeIngredientsValid(cfg: Config, db: Database) {
    && (forall i :: 0 <= i < |db.recipeIngredients| ==> RowValid(cfg, db, db.recipeIngredients[i]))
    && (forall i, j :: 0 <= i < j < |db.recipeIngredients| ==>
          (db.recipeIngredients[i].recipe, db.recipeIngredients[i].ingredient)
          != (db.recipeIngredients[j].recipe, db.recipeIngredients[j].ingredient))
  }

  /** A (user, recipe) table: unique pairs over stored users and recipes. */
  ghost predicate UserRecipeTableValid(db: Database, t: seq<(UserId, RecipeId)>) {
    && NoDup(t)
    && (forall i :: 0 <= i < |t| ==> t[i].0 in db.users && t[i].1 in db.recipes)
  }

  /** Subscriptions: unique pairs over stored users, nobody follows themselves. */
  ghost predicate SubscriptionsValid(db: Database) {
    && NoDup(db.subscriptions)
    && (forall i :: 0 <= i < |db.subscriptions| ==>
          && db.subscriptions[i].0 in db.users
          && db.subscriptions[i].1 in db.users
          && db.subscriptions[i].0 != db.subscriptions[i].1)
  }

  /** Every constraint the models declare. */
  ghost predicate Valid(cfg: Config, db: Database) {
    && cfg.WellFormed()
    && UsersValid(db)
    && IngredientsValid(db)
    && RecipesValid(cfg, db)
    && RecipeIngredientsValid(cfg, db)
    && UserRecipeTableValid(db, db.favorites)
    && UserRecipeTableValid(db, db.carts)
    && SubscriptionsValid(db)
  }

  /** The authenticated user of a request is a stored user. */
  predicate RequesterKnown(db: Database, req: Requester) {
    req.Authenticated? ==> req.id in db.users
  }

  /** With unique names, the (name, measurement_unit) pair identifies an ingredient too. */
  lemma IngredientPairsUnique(db: Database, a: IngredientId, b: IngredientId)
    requires IngredientsValid(db)
    requires a in db.ingredients && b in db.ingredients
    requires db.ingredients[a] == db.ingredients[b]
    ensures a == b
  {
  }

  /** A stored subscription never has follower equal to subscribed_to. */
  lemma NoSelfSubscription(db: Database, u: UserId)
    requires SubscriptionsValid(db)
    ensures (u, u) !in db.subscriptions
  {
  }
}
