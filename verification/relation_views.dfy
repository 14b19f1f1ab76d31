/** The endpoints that add and remove one pair of a relation table:
    subscribe / unsubscribe (`users/<pk>/subscribe/`), add to / remove from
    the shopping cart (`recipes/<pk>/shopping_cart/`) and favorite / unfavorite
    (`recipes/<pk>/favorite/`). Each either changes exactly one pair and
    answers 201 or 204, or answers an error status and changes nothing.
    Response bodies are left out; a reply is its status and reason. A
    successful subscribe stores the pair and then fails while rendering the
    new author's profile, so it answers 500 with the pair kept. */
module RelationViews {
  import opened Common
  import opened Schema
  import opened Rows

  datatype Rejection =
    | NotAuthenticated     // the permission class refuses an anonymous request
    | NotFound             // get_object_or_404 found no such user or recipe
    | AlreadySubscribed
    | SelfSubscription
    | NotSubscribed
    | AlreadyInCart
    | NotInCart
    | AlreadyFavorited
    | NotFavorited
    | RecordExists         // the relation serializers' "record already exists"

  datatype Reply =
    | Created
    | NoContent
    | ServerError   // the write is stored, then building the response body raises
    | Rejected(reason: Rejection)

  function StatusCode(r: Reply): (code: nat)
    ensures code in {201, 204, 400, 401, 404, 500}
    ensures code == 201 <==> r == Created
    ensures code == 204 <==> r == NoContent
    ensures code == 500 <==> r == ServerError
  {
    match r
    case Created => 201
    case NoContent => 204
    case ServerError => 500
    case Rejected(NotAuthenticated) => 401
    case Rejected(NotFound) => 404
    case Rejected(_) => 400
  }

  datatype Outcome = Outcome(db: Database, reply: Reply)

  // ---------------------------------------------------------------------
  // Subscriptions
  // ---------------------------------------------------------------------

  /** POST users/<pk>/subscribe/. After the insert the view renders the author
      with the api profile serializer, whose `get_is_subscribed` reads
      `request.user.user_subscribers`. The user model has no such accessor (the
      subscription's related names are `follower` and `subscribed_to`), so the
      request fails with 500, and the pair stays stored, outside any transaction.
      The view never reaches its 201. */
  function Subscribe(db: Database, req: Requester, pk: UserId): (o: Outcome)
    ensures o.reply != Created
    ensures o.reply == ServerError <==>
      req.Authenticated? && pk in db.users && pk != req.id && (req.id, pk) !in db.subscriptions
    ensures o.reply != ServerError ==> o.db == db
    ensures o.reply == ServerError ==>
      o.db == db.(subscriptions := db.subscriptions + [(req.id, pk)])
    // an existing pair is reported before self-subscription is looked at
    ensures req.Authenticated? && pk in db.users && (req.id, pk) in db.subscriptions ==>
      o.reply == Rejected(AlreadySubscribed)
    ensures req.Authenticated? && pk in db.users && (req.id, pk) !in db.subscriptions && pk == req.id ==>
      o.reply == Rejected(SelfSubscription)
    ensures req.Anonymous? ==> o.reply == Rejected(NotAuthenticated)
    ensures req.Authenticated? && pk !in db.users ==> o.reply == Rejected(NotFound)
  {
    if req.Anonymous? then Outcome(db, Rejected(NotAuthenticated))
    else if pk !in db.users then Outcome(db, Rejected(NotFound))
    else if (req.id, pk) in db.subscriptions then Outcome(db, Rejected(AlreadySubscribed))
    else if pk == req.id then Outcome(db, Rejected(SelfSubscription))
    else Outcome(db.(subscriptions := db.subscriptions + [(req.id, pk)]), ServerError)
  }

  /** DELETE users/<pk>/subscribe/ */
  function Unsubscribe(db: Database, req: Requester, pk: UserId): (o: Outcome)
    ensures o.reply == NoContent <==>
      req.Authenticated? && pk in db.users && (req.id, pk) in db.subscriptions
    ensures o.reply != NoContent ==> o.db == db
    ensures o.reply == NoContent ==>
      o.db == db.(subscriptions := RemoveFirst(db.subscriptions, (req.id, pk)))
    ensures req.Authenticated? && pk in db.users && (req.id, pk) !in db.subscriptions ==>
      o.reply == Rejected(NotSubscribed)
  {
    if req.Anonymous? then Outcome(db, Rejected(NotAuthenticated))
    else if pk !in db.users then Outcome(db, Rejected(NotFound))
    else if (req.id, pk) !in db.subscriptions then Outcome(db, Rejected(NotSubscribed))
    else Outcome(db.(subscriptions := RemoveFirst(db.subscriptions, (req.id, pk))), NoContent)
  }

  // ---------------------------------------------------------------------
  // Shopping cart
  // ---------------------------------------------------------------------

  /** POST recipes/<pk>/shopping_cart/ */
  function AddToCart(db: Database, req: Requester, pk: RecipeId): (o: Outcome)
    ensures o.reply == Created <==>
      req.Authenticated? && pk in db.recipes && (req.id, pk) !in db.carts
    ensures o.reply != Created ==> o.db == db
    ensures o.reply == Created ==> o.db == db.(carts := db.carts + [(req.id, pk)])
    ensures req.Authenticated? && pk in db.recipes && (req.id, pk) in db.carts ==>
      o.reply == Rejected(AlreadyInCart)
  {
    if req.Anonymous? then Outcome(db, Rejected(NotAuthenticated))
    else if pk !in db.recipes then Outcome(db, Rejected(NotFound))
    else if (req.id, pk) in db.carts then Outcome(db, Rejected(AlreadyInCart))
    else Outcome(db.(carts := db.carts + [(req.id, pk)]), Created)
  }

  /** DELETE recipes/<pk>/shopping_cart/ */
  function RemoveFromCart(db: Database, req: Requester, pk: RecipeId): (o: Outcome)
    ensures o.reply == NoContent <==>
      req.Authenticated? && pk in db.recipes && (req.id, pk) in db.carts
    ensures o.reply != NoContent ==> o.db == db
    ensures o.reply == NoContent ==> o.db == db.(carts := RemoveFirst(db.carts, (req.id, pk)))
    ensures req.Authenticated? && pk in db.recipes && (req.id, pk) !in db.carts ==>
      o.reply == Rejected(NotInCart)
  {
    if req.Anonymous? then Outcome(db, Rejected(NotAuthenticated))
    else if pk !in db.recipes then Outcome(db, Rejected(NotFound))
    else if (req.id, pk) !in db.carts then Outcome(db, Rejected(NotInCart))
    else Outcome(db.(carts := RemoveFirst(db.carts, (req.id, pk))), NoContent)
  }

  // ---------------------------------------------------------------------
  // Favorites
  // ---------------------------------------------------------------------

  /** POST or DELETE recipes/<pk>/favorite/; DELETE removes the whole matching queryset. */
  function Favorite(db: Database, req: Requester, pk: RecipeId, verb: HttpMethod): (o: Outcome)
    requires verb == Post || verb == Delete
    ensures verb == Post ==>
      (o.reply == Created <==> req.Authenticated? && pk in db.recipes && (req.id, pk) !in db.favorites)
    ensures verb == Delete ==>
      (o.reply == NoContent <==> req.Authenticated? && pk in db.recipes && (req.id, pk) in db.favorites)
    ensures o.reply.Rejected? ==> o.db == db
    ensures o.reply == Created ==> verb == Post && o.db == db.(favorites := db.favorites + [(req.id, pk)])
    ensures o.reply == NoContent ==> verb == Delete && o.db == db.(favorites := RemoveAll(db.favorites, (req.id, pk)))
    ensures req.Authenticated? && pk in db.recipes && verb == Post && (req.id, pk) in db.favorites ==>
      o.reply == Rejected(AlreadyFavorited)
    ensures req.Authenticated? && pk in db.recipes && verb == Delete && (req.id, pk) !in db.favorites ==>
      o.reply == Rejected(NotFavorited)
  {
    if req.Anonymous? then Outcome(db, Rejected(NotAuthenticated))
    else if pk !in db.recipes then Outcome(db, Rejected(NotFound))
    else
      var present := (req.id, pk) in db.favorites;
      if verb == Post then
        if present then Outcome(db, Rejected(AlreadyFavorited))
        else Outcome(db.(favorites := db.favorites + [(req.id, pk)]), Created)
      else
        if !present then Outcome(db, Rejected(NotFavorited))
        else Outcome(db.(favorites := RemoveAll(db.favorites, (req.id, pk))), NoContent)
  }

  /** `BaseCreateRelationSerializer.validate`: a pair already in the table is refused. */
  function ValidateNewRelation(table: seq<(UserId, RecipeId)>, user: UserId, recipe: RecipeId)
    : (r: Result<(UserId, RecipeId), Rejection>)
    ensures r.Ok? <==> (user, recipe) !in table
    ensures r.Ok? ==> r.value == (user, recipe)
    ensures r.Err? ==> r.error == RecordExists
  {
    if (user, recipe) in table then Err(RecordExists) else Ok((user, recipe))
  }

  /** The create serializers' `validate` refuses exactly the pairs the cart and
      favorite views turn away as duplicates, on a recipe that exists. */
  lemma ValidateAgreesWithViews(db: Database, u: UserId, pk: RecipeId)
    requires pk in db.recipes
    ensures ValidateNewRelation(db.carts, u, pk).Err? <==>
      AddToCart(db, Authenticated(u), pk).reply == Rejected(AlreadyInCart)
    ensures ValidateNewRelation(db.favorites, u, pk).Err? <==>
      Favorite(db, Authenticated(u), pk, Post).reply == Rejected(AlreadyFavorited)
    ensures ValidateNewRelation(db.carts, u, pk).Ok? ==>
      AddToCart(db, Authenticated(u), pk).db.carts == db.carts + [ValidateNewRelation(db.carts, u, pk).value]
    ensures ValidateNewRelation(db.favorites, u, pk).Ok? ==>
      Favorite(db, Authenticated(u), pk, Post).db.favorites ==
        db.favorites + [ValidateNewRelation(db.favorites, u, pk).value]
  {
  }

  /** Saving a validated pair of a stored user and recipe keeps the table valid. */
  lemma ValidatedInsertKeepsValid(db: Database, table: seq<(UserId, RecipeId)>, u: UserId, pk: RecipeId)
    requires UserRecipeTableValid(db, table)
    requires u in db.users && pk in db.recipes
    requires ValidateNewRelation(table, u, pk).Ok?
    ensures UserRecipeTableValid(db, table + [ValidateNewRelation(table, u, pk).value])
  {
    InsertKeepsTableValid(db, table, (u, pk));
  }

  // ---------------------------------------------------------------------
  // The constraints survive every request
  // ---------------------------------------------------------------------

  /** A successful insert into a (user, recipe) table keeps it valid. */
  lemma InsertKeepsTableValid(db: Database, t: seq<(UserId, RecipeId)>, p: (UserId, RecipeId))
    requires UserRecipeTableValid(db, t)
    requires p !in t && p.0 in db.users && p.1 in db.recipes
    ensures UserRecipeTableValid(db, t + [p])
  {
    AppendNoDup(t, p);
    var u := t + [p];
    forall i | 0 <= i < |u| ensures u[i].0 in db.users && u[i].1 in db.recipes {
      if i < |t| {
        assert u[i] == t[i];
      }
    }
  }

  /** A deletion from a (user, recipe) table keeps it valid. */
  lemma RemoveKeepsTableValid(db: Database, t: seq<(UserId, RecipeId)>, p: (UserId, RecipeId))
    requires UserRecipeTableValid(db, t)
    ensures UserRecipeTableValid(db, RemoveAll(t, p))
    ensures UserRecipeTableValid(db, RemoveFirst(t, p))
  {
    RemoveAllNoDup(t, p);
    RemoveFirstIsRemoveAll(t, p);
    var u := RemoveAll(t, p);
    forall i | 0 <= i < |u| ensures u[i].0 in db.users && u[i].1 in db.recipes {
      assert u[i] in t;
    }
  }

  lemma SubscribeKeepsValid(cfg: Config, db: Database, req: Requester, pk: UserId)
    requires Valid(cfg, db) && RequesterKnown(db, req)
    ensures Valid(cfg, Subscribe(db, req, pk).db)
    ensures Subscribe(db, req, pk).reply == ServerError ==>
      Elems(Subscribe(db, req, pk).db.subscriptions) == Elems(db.subscriptions) + {(req.id, pk)}
  {
    var o := Subscribe(db, req, pk);
    if o.reply == ServerError {
      var t := db.subscriptions;
      var p := (req.id, pk);
      AppendNoDup(t, p);
      var u := t + [p];
      forall i | 0 <= i < |u| ensures u[i].0 in db.users && u[i].1 in db.users && u[i].0 != u[i].1 {
        if i < |t| {
          assert u[i] == t[i];
        }
      }
      AppendElems(t, p);
    }
  }

  lemma UnsubscribeKeepsValid(cfg: Config, db: Database, req: Requester, pk: UserId)
    requires Valid(cfg, db) && RequesterKnown(db, req)
    ensures Valid(cfg, Unsubscribe(db, req, pk).db)
    ensures Unsubscribe(db, req, pk).reply == NoContent ==>
      && Elems(Unsubscribe(db, req, pk).db.subscriptions) == Elems(db.subscriptions) - {(req.id, pk)}
      && |Unsubscribe(db, req, pk).db.subscriptions| == |db.subscriptions| - 1
  {
    var o := Unsubscribe(db, req, pk);
    if o.reply == NoContent {
      var t := db.subscriptions;
      var p := (req.id, pk);
      RemoveAllNoDup(t, p);
      RemoveFirstIsRemoveAll(t, p);
      RemoveAllElems(t, p);
      var u := RemoveAll(t, p);
      forall i | 0 <= i < |u| ensures u[i].0 in db.users && u[i].1 in db.users && u[i].0 != u[i].1 {
        assert u[i] in t;
      }
    }
  }

  lemma CartRequestsKeepValid(cfg: Config, db: Database, req: Requester, pk: RecipeId)
    requires Valid(cfg, db) && RequesterKnown(db, req)
    ensures Valid(cfg, AddToCart(db, req, pk).db)
    ensures Valid(cfg, RemoveFromCart(db, req, pk).db)
    ensures RemoveFromCart(db, req, pk).reply == NoContent ==>
      Elems(RemoveFromCart(db, req, pk).db.carts) == Elems(db.carts) - {(req.id, pk)}
  {
    if AddToCart(db, req, pk).reply == Created {
      InsertKeepsTableValid(db, db.carts, (req.id, pk));
    }
    if RemoveFromCart(db, req, pk).reply == NoContent {
      RemoveKeepsTableValid(db, db.carts, (req.id, pk));
      RemoveFirstIsRemoveAll(db.carts, (req.id, pk));
      RemoveAllElems(db.carts, (req.id, pk));
    }
  }

  lemma FavoriteKeepsValid(cfg: Config, db: Database, req: Requester, pk: RecipeId, verb: HttpMethod)
    requires verb == Post || verb == Delete
    requires Valid(cfg, db) && RequesterKnown(db, req)
    ensures Valid(cfg, Favorite(db, req, pk, verb).db)
  {
    var o := Favorite(db, req, pk, verb);
    if o.reply == Created {
      InsertKeepsTableValid(db, db.favorites, (req.id, pk));
    } else if o.reply == NoContent {
      RemoveKeepsTableValid(db, db.favorites, (req.id, pk));
    }
  }

  // ---------------------------------------------------------------------
  // Round trips
  // ---------------------------------------------------------------------

  /** A subscribe that stores the pair, then an unsubscribe, restores the database exactly. */
  lemma SubscribeUnsubscribe(db: Database, req: Requester, pk: UserId)
    requires Subscribe(db, req, pk).reply == ServerError
    ensures Unsubscribe(Subscribe(db, req, pk).db, req, pk) == Outcome(db, NoContent)
  {
    InsertThenRemove(db.subscriptions, (req.id, pk));
  }

  /** Once the pair is stored, whatever the first reply was, a second subscribe is refused. */
  lemma SubscribeTwice(db: Database, req: Requester, pk: UserId)
    requires Subscribe(db, req, pk).reply == ServerError
    ensures Subscribe(Subscribe(db, req, pk).db, req, pk) ==
      Outcome(Subscribe(db, req, pk).db, Rejected(AlreadySubscribed))
  {
  }

  lemma CartAddRemove(db: Database, req: Requester, pk: RecipeId)
    requires AddToCart(db, req, pk).reply == Created
    ensures RemoveFromCart(AddToCart(db, req, pk).db, req, pk) == Outcome(db, NoContent)
    ensures AddToCart(AddToCart(db, req, pk).db, req, pk).reply == Rejected(AlreadyInCart)
  {
    InsertThenRemove(db.carts, (req.id, pk));
  }

  lemma FavoriteAddRemove(db: Database, req: Requester, pk: RecipeId)
    requires Favorite(db, req, pk, Post).reply == Created
    ensures Favorite(Favorite(db, req, pk, Post).db, req, pk, Delete) == Outcome(db, NoContent)
    ensures Favorite(Favorite(db, req, pk, Post).db, req, pk, Post).reply == Rejected(AlreadyFavorited)
  {
    InsertThenRemove(db.favorites, (req.id, pk));
  }
}
