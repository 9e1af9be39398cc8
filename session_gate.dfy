/**
 * The route guard: on mount it checks the stored token with the backend
 * once, then renders its children or redirects. Its state cell is pending
 * (`None`) until that check settles.
 */
module SessionGate {
  import opened Wrappers
  import opened Browser

  const VerifyUrl: string := "http://localhost:8000/verify-token"

  /** What the guard renders. `from` is the location a redirect to the login
      page passes along in its navigation state. */
  datatype View = Loading | Redirect(to: string, from: Option<string>) | Children

  /** The render decision over the state cell and the `isProtected` prop. */
  function Render(isAuthenticated: Option<bool>, isProtected: bool, location: string): (v: View)
    ensures v == Loading <==> isAuthenticated.None?
    ensures v == Children <==> isAuthenticated == Some(isProtected)
    ensures v.Redirect? ==>
              if isProtected then v == Redirect("/", Some(location))
              else v == Redirect("/home", None)
  {
    match isAuthenticated
    case None => Loading
    case Some(authenticated) =>
      if isProtected && !authenticated then Redirect("/", Some(location))
      else if !isProtected && authenticated then Redirect("/home", None)
      else Children
  }

  /** Once the check has settled, a protected page shows its children exactly
      to an authenticated visitor and the login page exactly to an anonymous
      one; everyone else is sent to the other page. */
  lemma SettledRenderRoutes(authenticated: bool, isProtected: bool, location: string)
    ensures Render(Some(authenticated), isProtected, location) ==
              if authenticated == isProtected then Children
              else if isProtected then Redirect("/", Some(location))
              else Redirect("/home", None)
  {
  }

  /** How the verification request ends: a response with its `ok` flag, or
      a rejected fetch. */
  datatype VerifyOutcome = Responded(ok: bool) | Threw

  /** The verified session a stored token and an outcome lead to. */
  function Settle(token: Option<string>, outcome: VerifyOutcome): (authenticated: bool)
    ensures authenticated <==> Truthy(token) && outcome == Responded(true)
  {
    if !Truthy(token) then false
    else match outcome
      case Responded(ok) => ok
      case Threw => false
  }

  /** One mounted ProtectedRoute. */
  class ProtectedRoute {
    const isProtected: bool
    var isAuthenticated: Option<bool>

    /** Mounting starts in the pending state. */
    constructor (isProtected: bool)
      ensures this.isProtected == isProtected && isAuthenticated == None
    {
      this.isProtected := isProtected;
      isAuthenticated := None;
    }

    /** The mount effect `verifyToken`. It runs once, while the state is
        pending, and always settles it. Without a truthy stored token no
        request is sent; otherwise the token goes as a bearer header, and any
        outcome but an ok response removes it. */
    method VerifyToken(storage: LocalStorage, outcome: VerifyOutcome) returns (request: Option<Request>)
      requires isAuthenticated.None?
      modifies this, storage
      ensures isAuthenticated == Some(Settle(old(storage.GetItem(TokenKey)), outcome))
      ensures !Truthy(old(storage.GetItem(TokenKey))) ==>
                request == None && storage.items == old(storage.items)
      ensures Truthy(old(storage.GetItem(TokenKey))) ==>
                && request == Some(Request(VerifyUrl, "GET",
                     [Header("Authorization", "Bearer " + old(storage.GetItem(TokenKey)).value)]))
                && storage.items ==
                     if outcome == Responded(true) then old(storage.items)
                     else old(storage.items) - {TokenKey}
    {
      var token := storage.GetItem(TokenKey);
      if !Truthy(token) {
        isAuthenticated := Some(false);
        return None;
      }
      request := Some(Request(VerifyUrl, "GET", [Header("Authorization", "Bearer " + token.value)]));
      if outcome == Responded(true) {
        isAuthenticated := Some(true);
      } else {
        storage.RemoveItem(TokenKey);
        isAuthenticated := Some(false);
      }
    }

    /** What this guard renders now. */
    function Rendered(location: string): View
      reads this
    {
      Render(isAuthenticated, isProtected, location)
    }
  }

  /** From mount to the settled render: never Loading after the check, and
      the stored token survives exactly when the guard authenticated. */
  method MountAndRender(isProtected: bool, storage: LocalStorage, outcome: VerifyOutcome,
                        location: string)
    returns (v: View)
    modifies storage
    ensures v != Loading
    ensures v == Render(Some(Settle(old(storage.GetItem(TokenKey)), outcome)), isProtected, location)
    ensures Settle(old(storage.GetItem(TokenKey)), outcome) ==> storage.items == old(storage.items)
  {
    var route := new ProtectedRoute(isProtected);
    var _ := route.VerifyToken(storage, outcome);
    v := route.Rendered(location);
  }
}
