/** Users and the user profile read side: registering a user under the
    model's uniqueness and username rules, `is_subscribed`, the
    `recipes_limit` truncation of an author's recipe list, and
    `recipes_count`. */
module Users {
  import opened Common
  import opened Schema
  import opened Text
  import Usernames
  import RelationViews
  import Rows

  // ---------------------------------------------------------------------
  // Registration
  // ---------------------------------------------------------------------

  /** The errors a new user can draw. A field whose value is empty after trimming
      reports only that it is blank; otherwise it reports all of its failing
      validators. `CannotCreateUser` is the registration's refusal when the
      database's unique email constraint rejects the normalized address. */
  datatype UserError = UsernameBlank | InvalidUsername | UsernameTaken | EmailBlank | EmailTaken | CannotCreateUser

  predicate UsernameTakenIn(db: Database, username: string) {
    exists u :: u in db.users && db.users[u].username == username
  }

  predicate EmailTakenIn(db: Database, email: string) {
    exists u :: u in db.users && db.users[u].email == email
  }

  /** The errors of the trimmed username: blank, or the validator and the unique constraint. */
  function UsernameErrors(db: Database, username: string): (r: set<UserError>)
    ensures UsernameBlank in r <==> username == ""
    ensures InvalidUsername in r <==> username != "" && Usernames.ValidateUsername(username).Err?
    ensures UsernameTaken in r <==> username != "" && UsernameTakenIn(db, username)
    ensures EmailBlank !in r && EmailTaken !in r && CannotCreateUser !in r
    ensures r == {} <==> username != "" && Usernames.ValidateUsername(username).Ok? && !UsernameTakenIn(db, username)
  {
    if username == "" then {UsernameBlank}
    else
      (if Usernames.ValidateUsername(username).Err? then {InvalidUsername} else {}) +
      (if UsernameTakenIn(db, username) then {UsernameTaken} else {})
  }

  /** The errors of the trimmed email: blank, or the unique constraint. */
  function EmailErrors(db: Database, email: string): (r: set<UserError>)
    ensures EmailBlank in r <==> email == ""
    ensures EmailTaken in r <==> email != "" && EmailTakenIn(db, email)
    ensures UsernameBlank !in r && InvalidUsername !in r && UsernameTaken !in r && CannotCreateUser !in r
    ensures r == {} <==> email != "" && !EmailTakenIn(db, email)
  {
    if email == "" then {EmailBlank}
    else if EmailTakenIn(db, email) then {EmailTaken} else {}
  }

  /** `BaseUserManager.normalize_email`: the domain, the text after the last '@',
      is lowercased; an address without '@' is kept as it is. */
  function NormalizeEmail(e: string): (r: string)
    ensures |r| == |e|
    ensures '@' !in e ==> r == e
  {
    if '@' !in e || e[|e| - 1] == '@' then e
    else NormalizeEmail(e[..|e| - 1]) + [LowerChar(e[|e| - 1])]
  }

  /** `email_name, domain_part = email.rsplit('@', 1)`, then `email_name + '@' + domain_part.lower()`. */
  lemma {:induction false} NormalizeSplit(name: string, domain: string)
    requires '@' !in domain
    ensures NormalizeEmail(name + "@" + domain) == name + "@" + Lower(domain)
    decreases |domain|
  {
    var e := name + "@" + domain;
    if domain == [] {
      assert e[|e| - 1] == '@';
    } else {
      var d := domain[..|domain| - 1];
      var c := domain[|domain| - 1];
      assert domain == d + [c];
      assert e == (name + "@" + d) + [c];
      assert '@' !in d by {
        forall i | 0 <= i < |d| ensures d[i] != '@' {
          assert d[i] == domain[i];
        }
      }
      assert (name + "@" + d)[|name|] == '@';
      NormalizeLast(name + "@" + d, c);
      NormalizeSplit(name, d);
      LowerLast(d, c);
    }
  }

  /** One more domain character is lowered and appended. */
  lemma NormalizeLast(p: string, c: char)
    requires '@' in p && c != '@'
    ensures NormalizeEmail(p + [c]) == NormalizeEmail(p) + [LowerChar(c)]
  {
    var e := p + [c];
    assert e[..|e| - 1] == p && e[|e| - 1] == c;
    assert '@' in e by {
      var i :| 0 <= i < |p| && p[i] == '@';
      assert e[i] == '@';
    }
  }

  lemma LowerLast(d: string, c: char)
    ensures Lower(d + [c]) == Lower(d) + [LowerChar(c)]
  {
    assert (d + [c])[|d|] == c;
    forall i | 0 <= i < |d| ensures Lower(d + [c])[i] == Lower(d)[i] {
      assert (d + [c])[i] == d[i];
    }
  }

  /** A normalized address is normalized already, so storing it is stable. */
  lemma {:induction false} NormalizeIdempotent(e: string)
    ensures NormalizeEmail(NormalizeEmail(e)) == NormalizeEmail(e)
    decreases |e|
  {
    if '@' !in e || e[|e| - 1] == '@' {
    } else {
      var p := e[..|e| - 1];
      var c := LowerChar(e[|e| - 1]);
      var r := NormalizeEmail(p) + [c];
      assert '@' in p by {
        var i :| 0 <= i < |e| && e[i] == '@';
        assert i < |e| - 1 && p[i] == '@';
      }
      NormalizeKeepsAt(p);
      assert '@' in r by {
        var i :| 0 <= i < |NormalizeEmail(p)| && NormalizeEmail(p)[i] == '@';
        assert r[i] == '@';
      }
      assert c != '@';
      assert r[..|r| - 1] == NormalizeEmail(p) && r[|r| - 1] == c;
      NormalizeIdempotent(p);
      assert LowerChar(c) == c;
    }
  }

  /** Normalizing keeps an '@'. */
  lemma {:induction false} NormalizeKeepsAt(e: string)
    requires '@' in e
    ensures '@' in NormalizeEmail(e)
    decreases |e|
  {
    if e[|e| - 1] != '@' {
      var p := e[..|e| - 1];
      assert '@' in p by {
        var i :| 0 <= i < |e| && e[i] == '@';
        assert i < |e| - 1 && p[i] == '@';
      }
      NormalizeKeepsAt(p);
      var i :| 0 <= i < |NormalizeEmail(p)| && NormalizeEmail(p)[i] == '@';
      assert NormalizeEmail(e)[i] == '@';
    }
  }

  /** Creating a `User` through the registration serializer. Both fields are trimmed
      and must not be blank. Then the username validator and both unique
      validators check the trimmed values. `create_user` stores the username and
      the normalized email. The unique email constraint refuses a normalized
      address that is already stored, and the registration reports this as
      `CannotCreateUser`. */
  function RegisterUser(db: Database, id: UserId, username: string, email: string): (r: Result<Database, set<UserError>>)
    requires id !in db.users
    ensures r.Ok? <==>
      && Strip(username) != "" && Usernames.ValidateUsername(Strip(username)).Ok?
      && !UsernameTakenIn(db, Strip(username))
      && Strip(email) != "" && !EmailTakenIn(db, Strip(email))
      && !EmailTakenIn(db, NormalizeEmail(Strip(email)))
    ensures r.Err? ==>
      && (UsernameBlank in r.error <==> Strip(username) == "")
      && (InvalidUsername in r.error <==> Strip(username) != "" && Usernames.ValidateUsername(Strip(username)).Err?)
      && (UsernameTaken in r.error <==> Strip(username) != "" && UsernameTakenIn(db, Strip(username)))
      && (EmailBlank in r.error <==> Strip(email) == "")
      && (EmailTaken in r.error <==> Strip(email) != "" && EmailTakenIn(db, Strip(email)))
    ensures r.Err? ==> (CannotCreateUser in r.error <==>
      && Strip(username) != "" && Usernames.ValidateUsername(Strip(username)).Ok?
      && !UsernameTakenIn(db, Strip(username))
      && Strip(email) != "" && !EmailTakenIn(db, Strip(email))
      && EmailTakenIn(db, NormalizeEmail(Strip(email))))
    ensures r.Err? && CannotCreateUser in r.error ==> r.error == {CannotCreateUser}
    ensures r.Ok? ==> r.value == db.(users := db.users[id := User(Strip(username), NormalizeEmail(Strip(email)))])
  {
    var name := Strip(username);
    var mail := Strip(email);
    var errors := UsernameErrors(db, name) + EmailErrors(db, mail);
    assert errors == {} <==> UsernameErrors(db, name) == {} && EmailErrors(db, mail) == {};
    if errors != {} then Err(errors)
    else if EmailTakenIn(db, NormalizeEmail(mail)) then Err({CannotCreateUser})
    else Ok(db.(users := db.users[id := User(name, NormalizeEmail(mail))]))
  }

  /** A registered user keeps every constraint, in particular unique usernames and emails. */
  lemma RegisterKeepsValid(cfg: Config, db: Database, id: UserId, username: string, email: string)
    requires Valid(cfg, db) && id !in db.users
    requires RegisterUser(db, id, username, email).Ok?
    ensures Valid(cfg, RegisterUser(db, id, username, email).value)
  {
    var user := User(Strip(username), NormalizeEmail(Strip(email)));
    assert RegisterUser(db, id, username, email).value == db.(users := db.users[id := user]);
    AddUserKeepsValid(cfg, db, id, user);
  }

  /** Storing a fresh user whose username and email are free and whose username passes the validator keeps the database valid. */
  lemma AddUserKeepsValid(cfg: Config, db: Database, id: UserId, user: User)
    requires Valid(cfg, db) && id !in db.users
    requires !UsernameTakenIn(db, user.username) && !EmailTakenIn(db, user.email)
    requires Usernames.ValidateUsername(user.username).Ok?
    ensures Valid(cfg, db.(users := db.users[id := user]))
  {
    AddUserKeepsUsersValid(db, id, user);
    MoreUsersKeepValid(cfg, db, db.(users := db.users[id := user]));
  }

  /** The user table's own constraints: unique usernames, unique emails, valid usernames. */
  lemma AddUserKeepsUsersValid(db: Database, id: UserId, user: User)
    requires UsersValid(db) && id !in db.users
    requires !UsernameTakenIn(db, user.username) && !EmailTakenIn(db, user.email)
    requires Usernames.ValidateUsername(user.username).Ok?
    ensures UsersValid(db.(users := db.users[id := user]))
  {
    var db' := db.(users := db.users[id := user]);
    forall a, b | a in db'.users && b in db'.users && a != b
      ensures db'.users[a].username != db'.users[b].username && db'.users[a].email != db'.users[b].email
    {
      if a == id {
        assert db'.users[b] == db.users[b];
      } else if b == id {
        assert db'.users[a] == db.users[a];
      } else {
        assert db'.users[a] == db.users[a] && db'.users[b] == db.users[b];
      }
    }
    forall a | a in db'.users ensures Usernames.ValidateUsername(db'.users[a].username).Ok? {
      if a != id {
        assert db'.users[a] == db.users[a];
      }
    }
  }

  /** The tables that only refer to users stay valid when users are added and nothing else changes. */
  lemma MoreUsersKeepValid(cfg: Config, db: Database, db': Database)
    requires Valid(cfg, db) && UsersValid(db')
    requires db.users.Keys <= db'.users.Keys
    requires db' == db.(users := db'.users)
    ensures Valid(cfg, db')
  {
    assert UserRecipeTableValid(db', db'.favorites) && UserRecipeTableValid(db', db'.carts);
    assert RecipesValid(cfg, db') by {
      forall k | k in db'.recipes ensures RecipeValid(cfg, db', db'.recipes[k]) {
        assert RecipeValid(cfg, db, db.recipes[k]);
      }
    }
    assert RecipeIngredientsValid(cfg, db') by {
      forall i | 0 <= i < |db'.recipeIngredients| ensures RowValid(cfg, db', db'.recipeIngredients[i]) {
        assert RowValid(cfg, db, db.recipeIngredients[i]);
      }
    }
  }

  /** A second registration with the same username, or the same email, is refused.
      The email draws `EmailTaken` when it is stored exactly as typed, that is
      when its domain is lower-case already. */
  lemma DuplicateRegistrationRefused(db: Database, id: UserId, id2: UserId, username: string, email: string,
                                    username2: string, email2: string)
    requires id !in db.users
    requires RegisterUser(db, id, username, email).Ok?
    requires id2 != id && id2 !in db.users
    ensures var r := RegisterUser(RegisterUser(db, id, username, email).value, id2, username, email2);
      r.Err? && UsernameTaken in r.error
    ensures var r := RegisterUser(RegisterUser(db, id, username, email).value, id2, username2, email);
      r.Err? && (NormalizeEmail(Strip(email)) == Strip(email) ==> EmailTaken in r.error)
  {
    var db' := RegisterUser(db, id, username, email).value;
    assert db'.users[id].username == Strip(username);
    assert UsernameTakenIn(db', Strip(username));
    assert EmailTakenIn(db', NormalizeEmail(Strip(email)));
  }

  /** Two addresses that differ only in the case of the domain are one address to
      the database: after the first registers, the second is refused. When it
      passes the serializer, because it is not stored as typed, the database's
      constraint refuses it as `CannotCreateUser`. */
  lemma DomainCaseVariantRefused(db: Database, id: UserId, id2: UserId, username: string, email: string,
                                 username2: string, email2: string)
    requires id !in db.users
    requires RegisterUser(db, id, username, email).Ok?
    requires id2 != id && id2 !in db.users
    requires NormalizeEmail(Strip(email2)) == NormalizeEmail(Strip(email))
    ensures var r := RegisterUser(RegisterUser(db, id, username, email).value, id2, username2, email2);
      && r.Err?
      && (UsernameErrors(RegisterUser(db, id, username, email).value, Strip(username2)) == {} &&
          Strip(email2) != "" && !EmailTakenIn(RegisterUser(db, id, username, email).value, Strip(email2)) ==>
          r.error == {CannotCreateUser})
  {
    var db' := RegisterUser(db, id, username, email).value;
    assert db'.users[id].email == NormalizeEmail(Strip(email2));
  }

  /** An empty or white-space-only email is refused as blank, and is not also
      reported as taken. */
  lemma BlankEmailRefused(db: Database, id: UserId, username: string, email: string)
    requires id !in db.users
    requires forall i :: 0 <= i < |email| ==> IsSpace(email[i])
    ensures RegisterUser(db, id, username, email).Err?
    ensures EmailBlank in RegisterUser(db, id, username, email).error
    ensures EmailTaken !in RegisterUser(db, id, username, email).error
  {
    AllSpaceStrips(email);
  }

  // ---------------------------------------------------------------------
  // Profile fields
  // ---------------------------------------------------------------------

  /** `get_is_subscribed`: false for anonymous requests, else whether the pair is stored. */
  function IsSubscribed(db: Database, req: Requester, obj: UserId): (b: bool)
    ensures b <==> req.Authenticated? && (req.id, obj) in db.subscriptions
  {
    match req
    case Anonymous => false
    case Authenticated(u) => (u, obj) in db.subscriptions
  }

  /** A subscribe that stores the pair, answered with 500 as it is, makes the profile show `is_subscribed`. */
  lemma SubscribedAfterSubscribe(db: Database, u: UserId, pk: UserId)
    requires RelationViews.Subscribe(db, Authenticated(u), pk).reply == RelationViews.ServerError
    ensures !IsSubscribed(db, Authenticated(u), pk)
    ensures IsSubscribed(RelationViews.Subscribe(db, Authenticated(u), pk).db, Authenticated(u), pk)
  {
  }

  /** On a unique subscription table, a successful unsubscribe clears `is_subscribed`. */
  lemma NotSubscribedAfterUnsubscribe(db: Database, u: UserId, pk: UserId)
    requires NoDup(db.subscriptions)
    requires RelationViews.Unsubscribe(db, Authenticated(u), pk).reply == RelationViews.NoContent
    ensures IsSubscribed(db, Authenticated(u), pk)
    ensures !IsSubscribed(RelationViews.Unsubscribe(db, Authenticated(u), pk).db, Authenticated(u), pk)
  {
    Rows.RemoveFirstIsRemoveAll(db.subscriptions, (u, pk));
  }

  /** `get_recipes`: a truthy `recipes_limit` that `int` accepts cuts the list to its
      first n entries. A missing or empty value, a value `int` refuses, and a
      negative value (the queryset refuses negative slices with ValueError, which
      is caught) leave the list whole. */
  function LimitRecipes<T>(recipes: seq<T>, limit: Option<string>): (r: seq<T>)
    ensures |r| <= |recipes| && r == recipes[..|r|]
  {
    if limit.None? || limit.value == "" then recipes
    else match ParseInt(limit.value)
      case None => recipes
      case Some(n) => if n < 0 then recipes else recipes[..if n <= |recipes| then n else |recipes|]
  }

  /** An absent or empty limit is falsy and gives every recipe. */
  lemma NoLimitGivesAll<T>(recipes: seq<T>, limit: Option<string>)
    requires limit.None? || limit.value == ""
    ensures LimitRecipes(recipes, limit) == recipes
  {
  }

  /** A limit `int` refuses gives every recipe. */
  lemma RefusedLimitGivesAll<T>(recipes: seq<T>, limit: string)
    requires ParseInt(limit).None?
    ensures LimitRecipes(recipes, Some(limit)) == recipes
  {
  }

  /** The decimal form of n gives the first n recipes (all of them when there are fewer). */
  lemma DecimalLimit<T>(recipes: seq<T>, n: nat)
    ensures LimitRecipes(recipes, Some(NatToString(n))) == recipes[..if n <= |recipes| then n else |recipes|]
  {
    ParseIntOfIntToString(n);
  }

  /** "0" is truthy as a string and gives no recipes. */
  lemma ZeroLimitGivesNone<T>(recipes: seq<T>)
    ensures LimitRecipes(recipes, Some("0")) == []
  {
    DecimalLimit(recipes, 0);
  }

  /** A negative decimal limit gives every recipe. */
  lemma NegativeLimitGivesAll<T>(recipes: seq<T>, n: nat)
    requires n >= 1
    ensures LimitRecipes(recipes, Some(IntToString(-(n as int)))) == recipes
  {
    ParseIntOfIntToString(-(n as int));
  }

  /** A limit followed by white space, one of the separators `\x1c` to `\x1f` say,
      still cuts the list. */
  lemma TrailingSpaceLimit<T>(recipes: seq<T>, n: nat, c: char)
    requires IsSpace(c)
    ensures LimitRecipes(recipes, Some(NatToString(n) + [c])) == recipes[..if n <= |recipes| then n else |recipes|]
  {
    NatToStringRoundTrip(n);
    TrailingSpaceIgnored(NatToString(n), c);
  }

  /** A limit that is not a number at all (no digit) gives every recipe. */
  lemma NonNumericLimitGivesAll<T>(recipes: seq<T>, limit: string)
    requires forall i :: 0 <= i < |limit| ==> !IsDigit(limit[i])
    ensures LimitRecipes(recipes, Some(limit)) == recipes
  {
    ParseIntNeedsDigit(limit);
  }

  /** The ids of an author's recipes. */
  function RecipesBy(db: Database, author: UserId): set<RecipeId> {
    set id | id in db.recipes && db.recipes[id].author == author
  }

  /** `get_recipes_count`: the author's recipe count, whatever the limit. */
  function RecipesCount(db: Database, author: UserId): nat {
    |RecipesBy(db, author)|
  }

  /** Listing the author's recipes once each, the limited list never holds more than the count,
      and with no effective limit it holds exactly the count. */
  lemma LimitWithinCount(db: Database, author: UserId, recipes: seq<RecipeId>, limit: Option<string>)
    requires NoDup(recipes) && Elems(recipes) == RecipesBy(db, author)
    ensures |LimitRecipes(recipes, limit)| <= RecipesCount(db, author)
    ensures LimitRecipes(recipes, limit) == recipes ==> |LimitRecipes(recipes, limit)| == RecipesCount(db, author)
  {
    CardElemsIffNoDup(recipes);
  }
}
