/** Writing recipes: `CreateRecipeSerializer.create` and `.update` behind the
    recipe endpoints, and `Recipie.save`, which passes the short link through
    link generation on every save. Create stores a new recipe authored by the
    requester with the submitted tags and one ingredient row per submitted
    entry. Update replaces the tag set and the recipe's ingredient rows
    wholesale and overwrites the fields present in the payload. */
module RecipeWrite {
  import opened Common
  import opened Schema
  import opened RecipePayload
  import ShortLinks
  import Permissions

  /** Why a write is refused: 401, 404, 403 and 400. */
  datatype Failure = NotAuthenticated | NotFound | Forbidden | Invalid(rejection: Rejection)

  function Refusal(d: Permissions.Denial): Failure {
    match d
    case Unauthenticated => NotAuthenticated
    case Missing => NotFound
    case Denied => Forbidden
  }

  /** The status a recipe write answers with. A refusal answers 401, 404, 403 or 400.
      A stored recipe is rendered with the recipe serializer, whose author field
      and `is_in_shopping_cart` / `is_favorited` read accessors the models do not
      define (`user_subscribers`, `shoppingcart_set`, `favorite_set`). So every
      committed create or update answers 500, and the write stays committed. */
  function ResponseStatus(r: Result<Database, Failure>): (code: nat)
    ensures code in {400, 401, 403, 404, 500}
    ensures code == 500 <==> r.Ok?
    ensures code == 400 <==> r.Err? && r.error.Invalid?
    ensures code == 401 <==> r == Err(NotAuthenticated)
  {
    match r
    case Ok(_) => 500
    case Err(NotAuthenticated) => 401
    case Err(NotFound) => 404
    case Err(Forbidden) => 403
    case Err(Invalid(_)) => 400
  }

  /** The HTTP method behind an update mode. */
  function MethodOf(mode: Mode): HttpMethod {
    if mode.PartialMode? then Patch else Put
  }

  // ---------------------------------------------------------------------
  // Ingredient rows
  // ---------------------------------------------------------------------

  /** `create_recipe_ingredients`: one row per submitted entry, in order. */
  function RowsFor(id: RecipeId, es: seq<Entry>): (rows: seq<RecipeIngredient>)
    ensures |rows| == |es|
    ensures forall i :: 0 <= i < |es| ==> rows[i] == RecipeIngredient(id, es[i].id, es[i].amount)
  {
    if es == [] then [] else [RecipeIngredient(id, es[0].id, es[0].amount)] + RowsFor(id, es[1..])
  }

  /** `recipe.recipe_ingredients.all()`: the rows of one recipe, in table order. */
  function RowsOf(rows: seq<RecipeIngredient>, id: RecipeId): (r: seq<RecipeIngredient>)
    ensures forall x :: x in r <==> x in rows && x.recipe == id
  {
    if rows == [] then []
    else if rows[0].recipe == id then [rows[0]] + RowsOf(rows[1..], id)
    else RowsOf(rows[1..], id)
  }

  /** What `recipe.recipe_ingredients.all().delete()` leaves in the table. */
  function Without(rows: seq<RecipeIngredient>, id: RecipeId): (r: seq<RecipeIngredient>)
    ensures forall x :: x in r <==> x in rows && x.recipe != id
  {
    if rows == [] then []
    else if rows[0].recipe == id then Without(rows[1..], id)
    else [rows[0]] + Without(rows[1..], id)
  }

  /** At most one row per (recipe, ingredient). */
  ghost predicate KeysUnique(rows: seq<RecipeIngredient>) {
    forall i, j :: 0 <= i < j < |rows| ==>
      (rows[i].recipe, rows[i].ingredient) != (rows[j].recipe, rows[j].ingredient)
  }

  lemma {:induction false} RowsOfAppend(a: seq<RecipeIngredient>, b: seq<RecipeIngredient>, id: RecipeId)
    ensures RowsOf(a + b, id) == RowsOf(a, id) + RowsOf(b, id)
  {
    if a != [] {
      assert (a + b)[0] == a[0];
      assert (a + b)[1..] == a[1..] + b;
      RowsOfAppend(a[1..], b, id);
    } else {
      assert a + b == b;
    }
  }

  lemma {:induction false} RowsOfWithout(rows: seq<RecipeIngredient>, id: RecipeId, k: RecipeId)
    ensures RowsOf(Without(rows, id), k) == if k == id then [] else RowsOf(rows, k)
  {
    if rows != [] {
      RowsOfWithout(rows[1..], id, k);
    }
  }

  lemma {:induction false} RowsOfRowsFor(id: RecipeId, es: seq<Entry>, k: RecipeId)
    ensures RowsOf(RowsFor(id, es), k) == if k == id then RowsFor(id, es) else []
  {
    if es != [] {
      assert RowsFor(id, es)[1..] == RowsFor(id, es[1..]);
      RowsOfRowsFor(id, es[1..], k);
    }
  }

  /** A table none of whose rows belong to `id` has no rows of `id`. */
  lemma RowsOfNone(rows: seq<RecipeIngredient>, id: RecipeId)
    requires forall i :: 0 <= i < |rows| ==> rows[i].recipe != id
    ensures RowsOf(rows, id) == []
  {
  }

  lemma {:induction false} KeysUniqueWithout(rows: seq<RecipeIngredient>, id: RecipeId)
    requires KeysUnique(rows)
    ensures KeysUnique(Without(rows, id))
  {
    if rows != [] {
      var t := rows[1..];
      assert KeysUnique(t) by {
        forall i, j | 0 <= i < j < |t|
          ensures (t[i].recipe, t[i].ingredient) != (t[j].recipe, t[j].ingredient)
        {
          assert t[i] == rows[i + 1] && t[j] == rows[j + 1];
        }
      }
      KeysUniqueWithout(t, id);
      var w := Without(t, id);
      if rows[0].recipe != id {
        var x := rows[0];
        forall j | 0 <= j < |w| ensures (x.recipe, x.ingredient) != (w[j].recipe, w[j].ingredient) {
          assert w[j] in t;
          var k :| 0 <= k < |t| && t[k] == w[j];
          assert rows[k + 1] == w[j];
        }
        var u := [x] + w;
        forall i, j | 0 <= i < j < |u|
          ensures (u[i].recipe, u[i].ingredient) != (u[j].recipe, u[j].ingredient)
        {
          if i == 0 {
            assert u[j] == w[j - 1];
          } else {
            assert u[i] == w[i - 1] && u[j] == w[j - 1];
          }
        }
      }
    }
  }

  /** Rows of one recipe over pairwise-distinct ingredient ids are unique. */
  lemma RowsForKeysUnique(id: RecipeId, es: seq<Entry>)
    requires forall i, j :: 0 <= i < j < |es| ==> es[i].id != es[j].id
    ensures KeysUnique(RowsFor(id, es))
  {
  }

  /** Unique rows of other recipes followed by unique rows of `id` are unique. */
  lemma KeysUniqueAppend(a: seq<RecipeIngredient>, b: seq<RecipeIngredient>, id: RecipeId)
    requires KeysUnique(a) && KeysUnique(b)
    requires forall i :: 0 <= i < |a| ==> a[i].recipe != id
    requires forall i :: 0 <= i < |b| ==> b[i].recipe == id
    ensures KeysUnique(a + b)
  {
    var u := a + b;
    forall i, j | 0 <= i < j < |u|
      ensures (u[i].recipe, u[i].ingredient) != (u[j].recipe, u[j].ingredient)
    {
      if j < |a| {
        assert u[i] == a[i] && u[j] == a[j];
      } else if i >= |a| {
        assert u[i] == b[i - |a|] && u[j] == b[j - |a|];
      } else {
        assert u[i] == a[i] && u[j] == b[j - |a|];
      }
    }
  }

  // ---------------------------------------------------------------------
  // Saving a recipe
  // ---------------------------------------------------------------------

  /** `Recipie.save`: the link goes through `generate_short_link` against the stored links. */
  method SaveRecipe(cfg: Config, recipes: map<RecipeId, Recipe>, recipe: Recipe, digest: string)
    returns (saved: Recipe)
    requires cfg.WellFormed()
    ensures saved == recipe.(shortLink := saved.shortLink)
    // once set, a short link never changes
    ensures recipe.shortLink != "" ==> saved == recipe
    ensures recipe.shortLink == "" ==> saved.shortLink !in StoredLinks(recipes)
    ensures recipe.shortLink == "" && digest != "" ==> saved.shortLink != ""
  {
    var link, _ := ShortLinks.GenerateShortLink(recipe.shortLink, digest, cfg.maxHashLength, StoredLinks(recipes));
    saved := recipe.(shortLink := link);
  }

  /** A value taken from the payload when present, kept otherwise (`setattr` in `update`). */
  function Overwrite<T>(submitted: Option<T>, current: T): (v: T)
    ensures submitted.Some? ==> v == submitted.value
    ensures submitted.None? ==> v == current
  {
    if submitted.Some? then submitted.value else current
  }

  // ---------------------------------------------------------------------
  // Create
  // ---------------------------------------------------------------------

  /** POST to the recipe list: authenticate, validate, then `create`. */
  method CreateRecipe(cfg: Config, db: Database, req: Requester, p: Payload, newId: RecipeId, digest: string)
    returns (r: Result<Database, Failure>)
    requires cfg.WellFormed()
    requires newId !in db.recipes
    ensures req.Anonymous? ==> r == Err(NotAuthenticated)
    ensures req.Authenticated? && Validate(cfg, db, CreateMode, p).Err? ==>
      r == Err(Invalid(Validate(cfg, db, CreateMode, p).error))
    ensures req.Authenticated? && Validate(cfg, db, CreateMode, p).Ok? ==> r.Ok?
    ensures r.Ok? ==> req.Authenticated? && Acceptable(cfg, db, CreateMode, p)
    // the new recipe: authored by the requester, with the submitted fields and tags
    ensures r.Ok? ==>
      && r.value.recipes.Keys == db.recipes.Keys + {newId}
      && (forall k :: k in db.recipes ==> r.value.recipes[k] == db.recipes[k])
      && r.value.recipes[newId].author == req.id
      && r.value.recipes[newId].tags == Elems(p.tags.value)
      && r.value.recipes[newId].name == p.name.value
      && r.value.recipes[newId].text == p.text.value
      && r.value.recipes[newId].image == p.image.value
      && r.value.recipes[newId].cookingTime == p.cookingTime.value
      && r.value.recipes[newId].shortLink !in StoredLinks(db.recipes)
    // one new row per submitted entry; no other recipe's rows change
    ensures r.Ok? ==>
      && RowsOf(r.value.recipeIngredients, newId) == RowsOf(db.recipeIngredients, newId) + RowsFor(newId, p.ingredients.value)
      && (forall k :: k != newId ==> RowsOf(r.value.recipeIngredients, k) == RowsOf(db.recipeIngredients, k))
    ensures r.Ok? ==> r.value == db.(recipes := r.value.recipes, recipeIngredients := r.value.recipeIngredients)
    ensures r.Ok? && Valid(cfg, db) && RequesterKnown(db, req) ==>
      && RowsOf(r.value.recipeIngredients, newId) == RowsFor(newId, p.ingredients.value)
      && Valid(cfg, r.value)
  {
    var gate := Permissions.ListGate(req, Post);
    if gate.Some? {
      return Err(Refusal(gate.value));
    }
    var v := Validate(cfg, db, CreateMode, p);
    if v.Err? {
      return Err(Invalid(v.error));
    }
    var db' := InsertRecipe(cfg, db, req.id, p, newId, digest);
    return Ok(db');
  }

  /** `create` on a validated payload: the new recipe, saved once, and its rows. */
  method InsertRecipe(cfg: Config, db: Database, author: UserId, p: Payload, newId: RecipeId, digest: string)
    returns (db': Database)
    requires cfg.WellFormed()
    requires newId !in db.recipes
    requires Acceptable(cfg, db, CreateMode, p)
    ensures db'.recipes.Keys == db.recipes.Keys + {newId}
    ensures forall k :: k in db.recipes ==> db'.recipes[k] == db.recipes[k]
    ensures db'.recipes[newId].author == author
    ensures db'.recipes[newId].tags == Elems(p.tags.value)
    ensures db'.recipes[newId].name == p.name.value
    ensures db'.recipes[newId].text == p.text.value
    ensures db'.recipes[newId].image == p.image.value
    ensures db'.recipes[newId].cookingTime == p.cookingTime.value
    ensures db'.recipes[newId].shortLink !in StoredLinks(db.recipes)
    ensures RowsOf(db'.recipeIngredients, newId) == RowsOf(db.recipeIngredients, newId) + RowsFor(newId, p.ingredients.value)
    ensures forall k :: k != newId ==> RowsOf(db'.recipeIngredients, k) == RowsOf(db.recipeIngredients, k)
    ensures db' == db.(recipes := db'.recipes, recipeIngredients := db'.recipeIngredients)
    ensures Valid(cfg, db) && author in db.users ==>
      && RowsOf(db'.recipeIngredients, newId) == RowsFor(newId, p.ingredients.value)
      && Valid(cfg, db')
  {
    var draft := Recipe(author, p.name.value, p.text.value, p.image.value, p.cookingTime.value,
                        Elems(p.tags.value), "");
    var recipe := SaveRecipe(cfg, db.recipes, draft, digest);
    var rows := RowsFor(newId, p.ingredients.value);
    db' := db.(recipes := db.recipes[newId := recipe],
               recipeIngredients := db.recipeIngredients + rows);
    forall k ensures RowsOf(db'.recipeIngredients, k) == RowsOf(db.recipeIngredients, k) + RowsOf(rows, k) {
      RowsOfAppend(db.recipeIngredients, rows, k);
    }
    forall k ensures RowsOf(rows, k) == if k == newId then rows else [] {
      RowsOfRowsFor(newId, p.ingredients.value, k);
    }
    if Valid(cfg, db) && author in db.users {
      CreateKeepsValid(cfg, db, author, p, newId, recipe);
    }
  }

  lemma CreateKeepsValid(cfg: Config, db: Database, author: UserId, p: Payload, newId: RecipeId, recipe: Recipe)
    requires Valid(cfg, db) && author in db.users
    requires newId !in db.recipes
    requires Acceptable(cfg, db, CreateMode, p)
    requires recipe.author == author && recipe.tags == Elems(p.tags.value)
    requires recipe.cookingTime == p.cookingTime.value
    requires recipe.shortLink !in StoredLinks(db.recipes)
    ensures RowsOf(db.recipeIngredients, newId) == []
    ensures Valid(cfg, db.(recipes := db.recipes[newId := recipe],
                           recipeIngredients := db.recipeIngredients + RowsFor(newId, p.ingredients.value)))
  {
    var rows := db.recipeIngredients + RowsFor(newId, p.ingredients.value);
    RowsOfNone(db.recipeIngredients, newId);
    assert recipe.tags <= db.tags;
    CreateKeepsRowsValid(cfg, db, newId, p.ingredients.value, recipe);
    StoreKeepsValid(cfg, db, newId, recipe, rows);
  }

  /** Storing a valid recipe under `id` with a link no other recipe has, and a
      valid ingredient table, keeps every constraint. */
  lemma StoreKeepsValid(cfg: Config, db: Database, id: RecipeId, recipe: Recipe, rows: seq<RecipeIngredient>)
    requires Valid(cfg, db)
    requires RecipeValid(cfg, db, recipe)
    requires forall k :: k in db.recipes && k != id ==> db.recipes[k].shortLink != recipe.shortLink
    requires RecipeIngredientsValid(cfg, db.(recipes := db.recipes[id := recipe], recipeIngredients := rows))
    ensures Valid(cfg, db.(recipes := db.recipes[id := recipe], recipeIngredients := rows))
  {
    var db' := db.(recipes := db.recipes[id := recipe], recipeIngredients := rows);
    assert UsersValid(db') && IngredientsValid(db') by {
      assert db'.users == db.users && db'.ingredients == db.ingredients;
    }
    assert RecipesValid(cfg, db') by {
      forall k | k in db'.recipes ensures RecipeValid(cfg, db', db'.recipes[k]) {
        if k != id {
          assert RecipeValid(cfg, db, db.recipes[k]);
        }
      }
      forall a, b | a in db'.recipes && b in db'.recipes && db'.recipes[a].shortLink == db'.recipes[b].shortLink
        ensures a == b
      {
        if a != id && b != id {
          assert db'.recipes[a] == db.recipes[a] && db'.recipes[b] == db.recipes[b];
        }
      }
    }
    TableStaysValid(db, db', db.favorites);
    TableStaysValid(db, db', db.carts);
    assert SubscriptionsValid(db') by {
      assert db'.subscriptions == db.subscriptions && db'.users == db.users;
    }
  }

  /** A (user, recipe) table stays valid when no user or recipe disappears. */
  lemma TableStaysValid(db: Database, db': Database, t: seq<(UserId, RecipeId)>)
    requires UserRecipeTableValid(db, t)
    requires db'.users == db.users && db.recipes.Keys <= db'.recipes.Keys
    ensures UserRecipeTableValid(db', t)
  {
  }

  lemma CreateKeepsRowsValid(cfg: Config, db: Database, newId: RecipeId, es: seq<Entry>, recipe: Recipe)
    requires RecipeIngredientsValid(cfg, db)
    requires newId !in db.recipes
    requires IngredientsOk(cfg, db, es)
    ensures RecipeIngredientsValid(cfg, db.(recipes := db.recipes[newId := recipe],
                                           recipeIngredients := db.recipeIngredients + RowsFor(newId, es)))
  {
    var rows := RowsFor(newId, es);
    var db' := db.(recipes := db.recipes[newId := recipe], recipeIngredients := db.recipeIngredients + rows);
    RowsForKeysUnique(newId, es);
    assert forall i :: 0 <= i < |db.recipeIngredients| ==> db.recipeIngredients[i].recipe != newId by {
      forall i | 0 <= i < |db.recipeIngredients| ensures db.recipeIngredients[i].recipe != newId {
        assert RowValid(cfg, db, db.recipeIngredients[i]);
      }
    }
    KeysUniqueAppend(db.recipeIngredients, rows, newId);
    forall i | 0 <= i < |db'.recipeIngredients| ensures RowValid(cfg, db', db'.recipeIngredients[i]) {
      if i < |db.recipeIngredients| {
        assert db'.recipeIngredients[i] == db.recipeIngredients[i];
        assert RowValid(cfg, db, db.recipeIngredients[i]);
      } else {
        assert db'.recipeIngredients[i] == rows[i - |db.recipeIngredients|];
      }
    }
  }

  // ---------------------------------------------------------------------
  // Update
  // ---------------------------------------------------------------------

  /** PUT or PATCH on one recipe: authenticate, look up, check ownership, validate, then `update`. */
  method UpdateRecipe(cfg: Config, db: Database, req: Requester, id: RecipeId, mode: Mode, p: Payload, digest: string)
    returns (r: Result<Database, Failure>)
    requires cfg.WellFormed()
    requires mode != CreateMode
    ensures req.Anonymous? ==> r == Err(NotAuthenticated)
    ensures req.Authenticated? && id !in db.recipes ==> r == Err(NotFound)
    ensures req.Authenticated? && id in db.recipes && db.recipes[id].author != req.id ==> r == Err(Forbidden)
    ensures req.Authenticated? && id in db.recipes && db.recipes[id].author == req.id ==>
      && (Validate(cfg, db, mode, p).Err? ==> r == Err(Invalid(Validate(cfg, db, mode, p).error)))
      && (Validate(cfg, db, mode, p).Ok? ==> r.Ok?)
    ensures r.Ok? ==>
      && req.Authenticated? && id in db.recipes && db.recipes[id].author == req.id
      && Acceptable(cfg, db, mode, p)
    // only this recipe changes: same author, tags replaced, present fields overwritten, link kept
    ensures r.Ok? ==>
      && r.value.recipes.Keys == db.recipes.Keys
      && (forall k :: k in db.recipes && k != id ==> r.value.recipes[k] == db.recipes[k])
      && r.value.recipes[id].author == db.recipes[id].author
      && r.value.recipes[id].tags == Elems(p.tags.value)
      && r.value.recipes[id].name == Overwrite(p.name, db.recipes[id].name)
      && r.value.recipes[id].text == Overwrite(p.text, db.recipes[id].text)
      && r.value.recipes[id].image == Overwrite(p.image, db.recipes[id].image)
      && r.value.recipes[id].cookingTime == Overwrite(p.cookingTime, db.recipes[id].cookingTime)
      && (db.recipes[id].shortLink != "" ==> r.value.recipes[id].shortLink == db.recipes[id].shortLink)
      && (db.recipes[id].shortLink == "" ==> r.value.recipes[id].shortLink !in StoredLinks(db.recipes))
    // the recipe's rows are exactly the submitted list; other recipes' rows are untouched
    ensures r.Ok? ==>
      && RowsOf(r.value.recipeIngredients, id) == RowsFor(id, p.ingredients.value)
      && (forall k :: k != id ==> RowsOf(r.value.recipeIngredients, k) == RowsOf(db.recipeIngredients, k))
    ensures r.Ok? ==> r.value == db.(recipes := r.value.recipes, recipeIngredients := r.value.recipeIngredients)
    ensures r.Ok? && Valid(cfg, db) ==> Valid(cfg, r.value)
  {
    var gate := Permissions.DetailGate(req, MethodOf(mode), if id in db.recipes then Some(db.recipes[id].author) else None);
    if gate.Some? {
      return Err(Refusal(gate.value));
    }
    var v := Validate(cfg, db, mode, p);
    if v.Err? {
      return Err(Invalid(v.error));
    }
    var db' := ReplaceRecipe(cfg, db, id, mode, p, digest);
    return Ok(db');
  }

  /** `update` on a validated payload: save, replace the tags and rows, overwrite the present fields. */
  method ReplaceRecipe(cfg: Config, db: Database, id: RecipeId, mode: Mode, p: Payload, digest: string)
    returns (db': Database)
    requires cfg.WellFormed()
    requires id in db.recipes
    requires Acceptable(cfg, db, mode, p)
    ensures db'.recipes.Keys == db.recipes.Keys
    ensures forall k :: k in db.recipes && k != id ==> db'.recipes[k] == db.recipes[k]
    ensures db'.recipes[id].author == db.recipes[id].author
    ensures db'.recipes[id].tags == Elems(p.tags.value)
    ensures db'.recipes[id].name == Overwrite(p.name, db.recipes[id].name)
    ensures db'.recipes[id].text == Overwrite(p.text, db.recipes[id].text)
    ensures db'.recipes[id].image == Overwrite(p.image, db.recipes[id].image)
    ensures db'.recipes[id].cookingTime == Overwrite(p.cookingTime, db.recipes[id].cookingTime)
    ensures db.recipes[id].shortLink != "" ==> db'.recipes[id].shortLink == db.recipes[id].shortLink
    ensures db.recipes[id].shortLink == "" ==> db'.recipes[id].shortLink !in StoredLinks(db.recipes)
    ensures RowsOf(db'.recipeIngredients, id) == RowsFor(id, p.ingredients.value)
    ensures forall k :: k != id ==> RowsOf(db'.recipeIngredients, k) == RowsOf(db.recipeIngredients, k)
    ensures db' == db.(recipes := db'.recipes, recipeIngredients := db'.recipeIngredients)
    ensures Valid(cfg, db) ==> Valid(cfg, db')
  {
    var saved := SaveRecipe(cfg, db.recipes, db.recipes[id], digest);
    var recipe := saved.(
      tags := Elems(p.tags.value),
      name := Overwrite(p.name, saved.name),
      text := Overwrite(p.text, saved.text),
      image := Overwrite(p.image, saved.image),
      cookingTime := Overwrite(p.cookingTime, saved.cookingTime));
    var rows := RowsFor(id, p.ingredients.value);
    var kept := Without(db.recipeIngredients, id);
    db' := db.(recipes := db.recipes[id := recipe], recipeIngredients := kept + rows);
    forall k ensures RowsOf(db'.recipeIngredients, k) == if k == id then rows else RowsOf(db.recipeIngredients, k) {
      RowsOfAppend(kept, rows, k);
      RowsOfWithout(db.recipeIngredients, id, k);
      RowsOfRowsFor(id, p.ingredients.value, k);
    }
    if Valid(cfg, db) {
      UpdateKeepsValid(cfg, db, id, mode, p, recipe);
    }
  }

  lemma UpdateKeepsValid(cfg: Config, db: Database, id: RecipeId, mode: Mode, p: Payload, recipe: Recipe)
    requires Valid(cfg, db) && id in db.recipes
    requires Acceptable(cfg, db, mode, p)
    requires recipe.author == db.recipes[id].author && recipe.tags == Elems(p.tags.value)
    requires recipe.cookingTime == Overwrite(p.cookingTime, db.recipes[id].cookingTime)
    requires recipe.shortLink == db.recipes[id].shortLink || recipe.shortLink !in StoredLinks(db.recipes)
    ensures Valid(cfg, db.(recipes := db.recipes[id := recipe],
                           recipeIngredients := Without(db.recipeIngredients, id) + RowsFor(id, p.ingredients.value)))
  {
    var rows := Without(db.recipeIngredients, id) + RowsFor(id, p.ingredients.value);
    assert RecipeValid(cfg, db, db.recipes[id]);
    assert recipe.tags <= db.tags;
    forall k | k in db.recipes && k != id ensures db.recipes[k].shortLink != recipe.shortLink {
      assert db.recipes[k].shortLink in StoredLinks(db.recipes);
    }
    UpdateKeepsRowsValid(cfg, db, id, p.ingredients.value, recipe);
    StoreKeepsValid(cfg, db, id, recipe, rows);
  }

  lemma UpdateKeepsRowsValid(cfg: Config, db: Database, id: RecipeId, es: seq<Entry>, recipe: Recipe)
    requires RecipeIngredientsValid(cfg, db)
    requires id in db.recipes
    requires IngredientsOk(cfg, db, es)
    ensures RecipeIngredientsValid(cfg, db.(recipes := db.recipes[id := recipe],
                                           recipeIngredients := Without(db.recipeIngredients, id) + RowsFor(id, es)))
  {
    var rows := RowsFor(id, es);
    var kept := Without(db.recipeIngredients, id);
    var db' := db.(recipes := db.recipes[id := recipe], recipeIngredients := kept + rows);
    KeysUniqueWithout(db.recipeIngredients, id);
    RowsForKeysUnique(id, es);
    assert forall i :: 0 <= i < |kept| ==> kept[i].recipe != id by {
      forall i | 0 <= i < |kept| ensures kept[i].recipe != id {
        assert kept[i] in kept;
      }
    }
    KeysUniqueAppend(kept, rows, id);
    forall i | 0 <= i < |db'.recipeIngredients| ensures RowValid(cfg, db', db'.recipeIngredients[i]) {
      if i < |kept| {
        assert db'.recipeIngredients[i] == kept[i];
        assert kept[i] in db.recipeIngredients;
        var j :| 0 <= j < |db.recipeIngredients| && db.recipeIngredients[j] == kept[i];
        assert RowValid(cfg, db, db.recipeIngredients[j]);
      } else {
        assert db'.recipeIngredients[i] == rows[i - |kept|];
      }
    }
  }
}
