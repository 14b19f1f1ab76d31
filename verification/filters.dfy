/** The recipe list's `is_favorited` and `is_in_shopping_cart` filters. With a
    true value and a logged-in user, a filter joins the recipe queryset with
    the relation table and keeps the rows for this user. The join yields a
    recipe once per matching relation row, and the table's unique pair makes
    that once. Otherwise the queryset is returned unchanged. A queryset is
    modelled as the sequence of recipe ids it yields. */
module Filters {
  import opened Common
  import opened Schema

  /** `n` copies of `x`. */
  function Repeat<T>(x: T, n: nat): (r: seq<T>)
    ensures |r| == n && forall i :: 0 <= i < n ==> r[i] == x
  {
    if n == 0 then [] else [x] + Repeat(x, n - 1)
  }

  /** `queryset.filter(<relation>__user=user)`: each recipe once per row (user, recipe) of the table. */
  function Join(qs: seq<RecipeId>, table: seq<(UserId, RecipeId)>, user: UserId): (r: seq<RecipeId>)
    ensures forall x :: x in r <==> x in qs && (user, x) in table
  {
    if qs == [] then []
    else
      var rest := Join(qs[1..], table, user);
      assert forall x :: x in qs <==> x == qs[0] || x in qs[1..];
      Repeat(qs[0], Count(table, (user, qs[0]))) + rest
  }

  /** The shared body of both filter methods. */
  function RelationFilter(qs: seq<RecipeId>, table: seq<(UserId, RecipeId)>, req: Requester, value: bool)
    : (r: seq<RecipeId>)
    ensures !value || req.Anonymous? ==> r == qs
    ensures Elems(r) <= Elems(qs)
  {
    if value && req.Authenticated? then Join(qs, table, req.id) else qs
  }

  /** `filter_is_favorited`. */
  function FilterIsFavorited(db: Database, qs: seq<RecipeId>, req: Requester, value: bool): (r: seq<RecipeId>)
    ensures !value || req.Anonymous? ==> r == qs
    ensures value && req.Authenticated? ==> forall x :: x in r <==> x in qs && (req.id, x) in db.favorites
  {
    RelationFilter(qs, db.favorites, req, value)
  }

  /** `filter_is_in_shopping_cart`. */
  function FilterIsInShoppingCart(db: Database, qs: seq<RecipeId>, req: Requester, value: bool): (r: seq<RecipeId>)
    ensures !value || req.Anonymous? ==> r == qs
    ensures value && req.Authenticated? ==> forall x :: x in r <==> x in qs && (req.id, x) in db.carts
  {
    RelationFilter(qs, db.carts, req, value)
  }

  /** On a table without repeated pairs the join is the plain filter "the user has
      this recipe in the table", in queryset order. */
  lemma {:induction false} JoinOfUniqueTable(qs: seq<RecipeId>, table: seq<(UserId, RecipeId)>, user: UserId)
    requires NoDup(table)
    ensures Join(qs, table, user) == Filter(qs, x => (user, x) in table)
  {
    if qs != [] {
      JoinOfUniqueTable(qs[1..], table, user);
      CountNoDup(table, (user, qs[0]));
    }
  }

  /** On a valid database both filters keep an ordered selection of the queryset:
      nothing is added, repeated or reordered. */
  lemma FiltersAreSubsequences(cfg: Config, db: Database, qs: seq<RecipeId>, req: Requester, value: bool)
    requires Valid(cfg, db)
    ensures IsSubsequence(FilterIsFavorited(db, qs, req, value), qs)
    ensures IsSubsequence(FilterIsInShoppingCart(db, qs, req, value), qs)
  {
    SubsequenceOfItself(qs);
    if value && req.Authenticated? {
      JoinOfUniqueTable(qs, db.favorites, req.id);
      FilterIsSubsequence(qs, x => (req.id, x) in db.favorites);
      JoinOfUniqueTable(qs, db.carts, req.id);
      FilterIsSubsequence(qs, x => (req.id, x) in db.carts);
    }
  }

  lemma {:induction false} SubsequenceOfItself<T>(s: seq<T>)
    ensures IsSubsequence(s, s)
  {
    if s != [] {
      SubsequenceOfItself(s[1..]);
    }
  }

  /** Without the unique constraint the join repeats a recipe: two equal rows in
      the table make a one-recipe queryset come back twice. */
  lemma DuplicateRowsRepeat(user: UserId, x: RecipeId)
    ensures Join([x], [(user, x), (user, x)], user) == [x, x]
  {
    var t := [(user, x), (user, x)];
    assert t[..1] == [(user, x)];
    assert [(user, x)][..0] == [];
    assert Count(t, (user, x)) == 2;
  }
}
