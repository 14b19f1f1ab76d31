/** `OwnerOrReadOnly`, and the order in which the framework applies the
    recipe endpoints' permission classes around the object lookup.
    `IsAuthenticatedOrReadOnly` and `OwnerOrReadOnly` are checked first. A
    refusal there is a 401 for an anonymous request and a 403 otherwise.
    Then a missing object is a 404. Then `has_object_permission` refuses with
    403. */
module Permissions {
  import opened Common

  /** The view action, as far as the permission looks at it. */
  datatype Action = MeAction | OtherAction

  /** `OwnerOrReadOnly.has_permission`. The anonymous user is a truthy object, so
      for `me` the check comes down to `is_authenticated`. */
  function HasPermission(req: Requester, m: HttpMethod, action: Action): (b: bool)
    ensures req.Authenticated? ==> b
    ensures req.Anonymous? ==> (b <==> action.OtherAction? && m.IsSafe())
  {
    if action.MeAction? then req.Authenticated?
    else m.IsSafe() || req.Authenticated?
  }

  /** `OwnerOrReadOnly.has_object_permission` for an object written by `author`. */
  function HasObjectPermission(req: Requester, m: HttpMethod, author: UserId): (b: bool)
    ensures m.IsSafe() ==> b
    ensures !m.IsSafe() ==> (b <==> req == Authenticated(author))
  {
    m.IsSafe() || (req.Authenticated? && req.id == author)
  }

  /** The framework's `IsAuthenticatedOrReadOnly`. */
  function AuthenticatedOrReadOnly(req: Requester, m: HttpMethod): bool {
    m.IsSafe() || req.Authenticated?
  }

  /** How a request to a recipe endpoint can be refused before validation. */
  datatype Denial = Unauthenticated | Missing | Denied

  /** The checks of a recipe list action, which has no object. */
  function ListGate(req: Requester, m: HttpMethod): (r: Option<Denial>)
    ensures r.None? <==> m.IsSafe() || req.Authenticated?
    ensures r.Some? ==> r.value == Unauthenticated
  {
    if AuthenticatedOrReadOnly(req, m) && HasPermission(req, m, OtherAction) then None
    else if req.Anonymous? then Some(Unauthenticated) else Some(Denied)
  }

  /** The checks of a recipe detail action on the recipe whose author is `author`,
      `None` when no such recipe exists. */
  function DetailGate(req: Requester, m: HttpMethod, author: Option<UserId>): (r: Option<Denial>)
    ensures r.None? <==> author.Some? && (m.IsSafe() || req == Authenticated(author.value))
    ensures r == Some(Unauthenticated) <==> req.Anonymous? && !m.IsSafe()
    ensures r == Some(Missing) <==> author.None? && (m.IsSafe() || req.Authenticated?)
    ensures r == Some(Denied) <==>
      req.Authenticated? && !m.IsSafe() && author.Some? && author.value != req.id
  {
    if !(AuthenticatedOrReadOnly(req, m) && HasPermission(req, m, OtherAction)) then
      if req.Anonymous? then Some(Unauthenticated) else Some(Denied)
    else if author.None? then Some(Missing)
    else if !HasObjectPermission(req, m, author.value) then
      if req.Anonymous? then Some(Unauthenticated) else Some(Denied)
    else None
  }

  /** The view-level checks of the user endpoints that keep the view's classes,
      `IsAuthenticated` and then `OwnerOrReadOnly`: `retrieve` and `me`. Registration
      and the user list replace the pair with their own permissions and are not
      modelled here. */
  function UserGate(req: Requester, m: HttpMethod, action: Action): (r: Option<Denial>)
    ensures r.None? <==> req.Authenticated?
    ensures r.Some? ==> r.value == Unauthenticated
  {
    if req.Anonymous? then Some(Unauthenticated)
    else if !HasPermission(req, m, action) then Some(Denied)
    else None
  }

  /** `OwnerOrReadOnly` on its own lets an anonymous reader see another action but
      not `me`; in front of it `IsAuthenticated` refuses both with 401. */
  lemma MeRefusesAnonymous(m: HttpMethod)
    requires m.IsSafe()
    ensures !HasPermission(Anonymous, m, MeAction)
    ensures HasPermission(Anonymous, m, OtherAction)
    ensures UserGate(Anonymous, m, MeAction) == Some(Unauthenticated)
    ensures UserGate(Anonymous, m, OtherAction) == Some(Unauthenticated)
  {
  }

  /** Only the author may change a recipe: every unsafe request let through
      by the detail checks comes from the author. */
  lemma OnlyAuthorWrites(req: Requester, m: HttpMethod, author: UserId)
    requires !m.IsSafe()
    requires DetailGate(req, m, Some(author)).None?
    ensures req == Authenticated(author)
  {
  }

  /** Reading needs nothing: every safe request to an existing recipe passes. */
  lemma ReadsAlwaysPass(req: Requester, m: HttpMethod, author: UserId)
    requires m.IsSafe()
    ensures DetailGate(req, m, Some(author)).None?
    ensures ListGate(req, m).None?
  {
  }
}
