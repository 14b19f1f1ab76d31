/** The shopping-list download. The ingredient rows of the recipes in the
    requester's cart are joined with their ingredients, grouped by
    (name, measurement unit) and summed. Each group becomes one line
    `name (unit) - total\n`. The database gives no order for the groups;
    here they come in order of first appearance in the table. */
module ShoppingList {
  import opened Common
  import opened Schema
  import opened Text
  import opened Rows

  /** The grouping key: `ingredient__name`, `ingredient__measurement_unit`. */
  type Key = (string, string)

  /** A key with an amount: a joined row before grouping, a total after. */
  datatype Group = Group(key: Key, total: int)

  datatype DownloadError = NotAuthenticated

  function Keys(gs: seq<Group>): (ks: seq<Key>)
    ensures |ks| == |gs|
    ensures forall i :: 0 <= i < |gs| ==> ks[i] == gs[i].key
  {
    if gs == [] then [] else [gs[0].key] + Keys(gs[1..])
  }

  /** The total stored under `k`, 0 when there is no such group. */
  function Lookup(gs: seq<Group>, k: Key): int {
    if gs == [] then 0
    else if gs[0].key == k then gs[0].total
    else Lookup(gs[1..], k)
  }

  /** The sum of the amounts of the items with key `k`. */
  function SumFor(items: seq<Group>, k: Key): int {
    if items == [] then 0
    else SumFor(items[..|items| - 1], k) + (if items[|items| - 1].key == k then items[|items| - 1].total else 0)
  }

  // ---------------------------------------------------------------------
  // Grouping
  // ---------------------------------------------------------------------

  /** Add one item to its group, opening a new group at the end for a new key. */
  function AddTo(gs: seq<Group>, item: Group): (r: seq<Group>)
    ensures forall k :: k in Keys(r) <==> k in Keys(gs) || k == item.key
    ensures forall k :: Lookup(r, k) == Lookup(gs, k) + (if k == item.key then item.total else 0)
  {
    if gs == [] then [item]
    else if gs[0].key == item.key then
      var r := [Group(item.key, gs[0].total + item.total)] + gs[1..];
      assert r[1..] == gs[1..];
      r
    else
      var rest := AddTo(gs[1..], item);
      var r := [gs[0]] + rest;
      assert r[0] == gs[0] && r[1..] == rest;
      assert Keys(r) == [gs[0].key] + Keys(rest);
      assert Keys(gs) == [gs[0].key] + Keys(gs[1..]);
      r
  }

  lemma {:induction false} AddToKeepsKeysDistinct(gs: seq<Group>, item: Group)
    requires NoDup(Keys(gs))
    ensures NoDup(Keys(AddTo(gs, item)))
  {
    if gs != [] {
      var r := AddTo(gs, item);
      NoDupTail(Keys(gs));
      assert Keys(gs)[1..] == Keys(gs[1..]);
      if gs[0].key == item.key {
        assert Keys(r) == [item.key] + Keys(gs[1..]);
      } else {
        AddToKeepsKeysDistinct(gs[1..], item);
        assert Keys(r) == [gs[0].key] + Keys(AddTo(gs[1..], item));
      }
      ConsNoDup(Keys(r)[0], Keys(r)[1..]);
      assert Keys(r) == [Keys(r)[0]] + Keys(r)[1..];
    }
  }

  /** `.values(name, unit).annotate(Sum('amount'))` as a left fold over the joined rows. */
  function Aggregate(items: seq<Group>): (gs: seq<Group>)
    // one group per distinct key, and only for keys that occur
    ensures NoDup(Keys(gs))
    ensures forall k :: k in Keys(gs) <==> k in Keys(items)
    // each group holds the sum over its key
    ensures forall k :: Lookup(gs, k) == SumFor(items, k)
  {
    if items == [] then []
    else
      var init := items[..|items| - 1];
      assert Keys(items) == Keys(init) + [items[|items| - 1].key];
      AddToKeepsKeysDistinct(Aggregate(init), items[|items| - 1]);
      AddTo(Aggregate(init), items[|items| - 1])
  }

  /** In a group list with distinct keys, looking up a group's key finds that group. */
  lemma {:induction false} LookupAt(gs: seq<Group>, i: nat)
    requires NoDup(Keys(gs)) && i < |gs|
    ensures Lookup(gs, gs[i].key) == gs[i].total
  {
    if i > 0 {
      assert Keys(gs)[0] != Keys(gs)[i];
      assert NoDup(Keys(gs[1..])) by {
        forall a, b | 0 <= a < b < |gs| - 1 ensures Keys(gs[1..])[a] != Keys(gs[1..])[b] {
          assert Keys(gs)[a + 1] != Keys(gs)[b + 1];
        }
      }
      LookupAt(gs[1..], i - 1);
    }
  }

  // ---------------------------------------------------------------------
  // The joined rows
  // ---------------------------------------------------------------------

  /** How often a recipe occurs in the requester's cart: the join multiplicity of `recipe__cart_owners__user`. */
  function CartWeight(db: Database, user: UserId, recipe: RecipeId): nat {
    Count(db.carts, (user, recipe))
  }

  /** A row joined with its ingredient: the grouping key and the summed amount. */
  function Joined(db: Database, user: UserId, row: RecipeIngredient): Option<Group> {
    if row.ingredient in db.ingredients && CartWeight(db, user, row.recipe) > 0 then
      var ing := db.ingredients[row.ingredient];
      Some(Group((ing.name, ing.measurementUnit), row.amount * CartWeight(db, user, row.recipe)))
    else None
  }

  /** The joined rows of the cart, in table order. */
  function CartItems(db: Database, user: UserId, rows: seq<RecipeIngredient>): (items: seq<Group>)
    ensures |items| <= |rows|
  {
    if rows == [] then []
    else
      var j := Joined(db, user, rows[|rows| - 1]);
      CartItems(db, user, rows[..|rows| - 1]) + (if j.Some? then [j.value] else [])
  }

  /** The groups of the requester's shopping list. */
  function ShoppingGroups(db: Database, user: UserId): seq<Group> {
    Aggregate(CartItems(db, user, db.recipeIngredients))
  }

  /** One line of the file. */
  function Line(g: Group): (line: string)
    ensures |line| >= 1 && line[|line| - 1] == '\n'
  {
    g.key.0 + " (" + g.key.1 + ") - " + IntToString(g.total) + "\n"
  }

  /** The file: the lines one after another. */
  function Render(gs: seq<Group>): (content: string)
    ensures content == "" <==> gs == []
  {
    if gs == [] then "" else Render(gs[..|gs| - 1]) + Line(gs[|gs| - 1])
  }

  /** `download_shopping_cart`: anonymous requests get 401. */
  function DownloadShoppingCart(db: Database, req: Requester): (r: Result<string, DownloadError>)
    ensures r.Err? <==> req.Anonymous?
  {
    if req.Anonymous? then Err(NotAuthenticated) else Ok(Render(ShoppingGroups(db, req.id)))
  }

  // ---------------------------------------------------------------------
  // What the list contains, stated on the table directly
  // ---------------------------------------------------------------------

  /** Reference total: over all rows of the table, the amount of each row with key `k`
      times the number of cart rows of its recipe. */
  function CartTotal(db: Database, user: UserId, rows: seq<RecipeIngredient>, k: Key): int {
    if rows == [] then 0
    else
      var row := rows[|rows| - 1];
      CartTotal(db, user, rows[..|rows| - 1], k) +
        (if row.ingredient in db.ingredients
            && (db.ingredients[row.ingredient].name, db.ingredients[row.ingredient].measurementUnit) == k
         then row.amount * CartWeight(db, user, row.recipe)
         else 0)
  }

  /** A row contributes to `k`: its ingredient has key `k` and its recipe is in the cart. */
  ghost predicate Contributes(db: Database, user: UserId, row: RecipeIngredient, k: Key) {
    && row.ingredient in db.ingredients
    && (db.ingredients[row.ingredient].name, db.ingredients[row.ingredient].measurementUnit) == k
    && (user, row.recipe) in db.carts
  }

  lemma {:induction false} ItemsSum(db: Database, user: UserId, rows: seq<RecipeIngredient>, k: Key)
    ensures SumFor(CartItems(db, user, rows), k) == CartTotal(db, user, rows, k)
  {
    if rows != [] {
      var init := rows[..|rows| - 1];
      ItemsSum(db, user, init, k);
      var j := Joined(db, user, rows[|rows| - 1]);
      var items := CartItems(db, user, rows);
      if j.Some? {
        assert items[..|items| - 1] == CartItems(db, user, init);
        assert items[|items| - 1] == j.value;
      } else {
        assert items == CartItems(db, user, init);
      }
    }
  }

  lemma {:induction false} ItemsKeys(db: Database, user: UserId, rows: seq<RecipeIngredient>, k: Key)
    ensures k in Keys(CartItems(db, user, rows)) <==> exists i :: 0 <= i < |rows| && Contributes(db, user, rows[i], k)
  {
    if rows != [] {
      var init := rows[..|rows| - 1];
      var row := rows[|rows| - 1];
      ItemsKeys(db, user, init, k);
      var j := Joined(db, user, row);
      var items := CartItems(db, user, rows);
      assert Keys(items) == Keys(CartItems(db, user, init)) + (if j.Some? then [j.value.key] else []) by {
        KeysAppend(CartItems(db, user, init), if j.Some? then [j.value] else []);
      }
      if exists i :: 0 <= i < |rows| && Contributes(db, user, rows[i], k) {
        var i :| 0 <= i < |rows| && Contributes(db, user, rows[i], k);
        if i < |init| {
          assert init[i] == rows[i];
        } else {
          assert Count(db.carts, (user, row.recipe)) > 0;
        }
      }
      if k in Keys(CartItems(db, user, init)) {
        var i :| 0 <= i < |init| && Contributes(db, user, init[i], k);
        assert rows[i] == init[i];
      }
    }
  }

  lemma {:induction false} KeysAppend(a: seq<Group>, b: seq<Group>)
    ensures Keys(a + b) == Keys(a) + Keys(b)
  {
  }

  /** Each line's total is the reference total for its key. */
  lemma GroupTotals(db: Database, user: UserId, i: nat)
    requires i < |ShoppingGroups(db, user)|
    ensures ShoppingGroups(db, user)[i].total ==
      CartTotal(db, user, db.recipeIngredients, ShoppingGroups(db, user)[i].key)
  {
    var gs := ShoppingGroups(db, user);
    LookupAt(gs, i);
    ItemsSum(db, user, db.recipeIngredients, gs[i].key);
  }

  /** There is a line for `k` exactly when some row of a recipe in the cart has key `k`. */
  lemma GroupKeys(db: Database, user: UserId, k: Key)
    ensures k in Keys(ShoppingGroups(db, user)) <==>
      exists i :: 0 <= i < |db.recipeIngredients| && Contributes(db, user, db.recipeIngredients[i], k)
  {
    ItemsKeys(db, user, db.recipeIngredients, k);
  }

  /** One line per distinct key: the number of lines is the number of distinct keys. */
  lemma OneLinePerKey(db: Database, user: UserId)
    ensures NoDup(Keys(ShoppingGroups(db, user)))
    ensures |ShoppingGroups(db, user)| == |Elems(Keys(CartItems(db, user, db.recipeIngredients)))|
  {
    var gs := ShoppingGroups(db, user);
    var items := CartItems(db, user, db.recipeIngredients);
    CardElemsIffNoDup(Keys(gs));
    assert Elems(Keys(gs)) == Elems(Keys(items));
  }

  /** A requester with nothing in the cart downloads an empty file. */
  lemma EmptyCartEmptyFile(db: Database, user: UserId)
    requires forall i :: 0 <= i < |db.carts| ==> db.carts[i].0 != user
    ensures DownloadShoppingCart(db, Authenticated(user)) == Ok("")
  {
    var items := CartItems(db, user, db.recipeIngredients);
    if items != [] {
      ItemsKeys(db, user, db.recipeIngredients, items[0].key);
      assert false;
    }
  }

  /** The rows of recipes outside the cart contribute nothing: dropping them leaves the file unchanged. */
  lemma {:induction false} OtherRecipesIgnored(db: Database, user: UserId, rows: seq<RecipeIngredient>)
    ensures CartItems(db, user, rows) == CartItems(db, user, InCart(db, user, rows))
  {
    if rows != [] {
      var init := rows[..|rows| - 1];
      var row := rows[|rows| - 1];
      OtherRecipesIgnored(db, user, init);
      var kept := InCart(db, user, rows);
      if CartWeight(db, user, row.recipe) > 0 {
        assert kept[..|kept| - 1] == InCart(db, user, init);
        assert kept[|kept| - 1] == row;
      } else {
        assert kept == InCart(db, user, init);
      }
    }
  }

  /** The rows whose recipe is in the requester's cart. */
  function InCart(db: Database, user: UserId, rows: seq<RecipeIngredient>): (r: seq<RecipeIngredient>)
    ensures forall x :: x in r <==> x in rows && (user, x.recipe) in db.carts
  {
    if rows == [] then []
    else
      var row := rows[|rows| - 1];
      InCart(db, user, rows[..|rows| - 1]) + (if CartWeight(db, user, row.recipe) > 0 then [row] else [])
  }

  /** With the cart's pairs unique, a cart row joins once: each row adds its own amount. */
  lemma UniqueCartJoinsOnce(db: Database, user: UserId, recipe: RecipeId)
    requires NoDup(db.carts)
    ensures CartWeight(db, user, recipe) == if (user, recipe) in db.carts then 1 else 0
  {
    CountNoDup(db.carts, (user, recipe));
  }
}
