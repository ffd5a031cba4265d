/**
 * The front-end session store: whether the session has been checked yet,
 * whether a call is in flight, whether the user is signed in and as whom,
 * and the last error text; updated by the outcome of the session, login
 * and logout calls. Each action is one atomic step given its response.
 */
module AuthStore {
  import opened Common
  import opened Fetch

  datatype AuthUser = AuthUser(id: int, username: string)

  /** The payload of the session and login endpoints. */
  datatype SessionPayload = SessionPayload(authenticated: bool, user: Option<AuthUser>)

  /** This store's `request`: as the patient store's, except that the thrown
      `Error` also carries the HTTP status of a non-ok response. */
  function Request<T>(response: Response<T>): (o: Outcome<T>)
    ensures o.Value? <==> response.Ok?
    ensures response.Ok? ==> o.value == response.payload
    ensures response.Failed? ==>
      o.thrown == ErrorObject(FailureMessage(response.body), Some(response.body), Some(response.status))
    ensures response.NetworkError? ==> o.thrown == ErrorObject(response.message, None, None)
  {
    match response
    case Ok(payload) => Value(payload)
    case Failed(status, body) => Threw(ErrorObject(FailureMessage(body), Some(body), Some(status)))
    case NetworkError(message) => Threw(ErrorObject(message, None, None))
  }

  class Store {
    var initialized: bool
    var loading: bool
    var isAuthenticated: bool
    var user: Option<AuthUser>
    var error: string

    constructor ()
      ensures !initialized && !loading && !isAuthenticated && user == None && error == ""
    {
      initialized := false;
      loading := false;
      isAuthenticated := false;
      user := None;
      error := "";
    }

    method SetError(err: Thrown)
      modifies this`error
      ensures error == ErrorText(err)
    {
      match err {
        case Falsy => error := "";
        case ErrorObject(message, _, _) => error := message;
        case Other(text) => error := text;
      }
    }

    method ApplySession(payload: SessionPayload)
      modifies this`isAuthenticated, this`user
      ensures isAuthenticated == payload.authenticated && user == payload.user
    {
      isAuthenticated := payload.authenticated;
      user := payload.user;
    }

    method ClearSession()
      modifies this`isAuthenticated, this`user
      ensures !isAuthenticated && user == None
    {
      isAuthenticated := false;
      user := None;
    }

    /** Ask the server for the current session. Whatever the answer, the
        store counts as initialized afterwards. */
    method FetchSession(response: Response<SessionPayload>) returns (r: Option<SessionPayload>)
      modifies this
      ensures initialized && !loading
      ensures response.Ok? ==>
        && isAuthenticated == response.payload.authenticated && user == response.payload.user
        && r == Some(response.payload) && error == ""
      ensures !response.Ok? ==>
        && !isAuthenticated && user == None
        && r == None && error == ErrorText(Request(response).thrown)
      ensures response.Failed? ==> error != ""
    {
      loading := true;
      SetError(Falsy);
      match Request(response) {
        case Value(payload) =>
          ApplySession(payload);
          r := Some(payload);
        case Threw(err) =>
          ClearSession();
          SetError(err);
          r := None;
      }
      initialized := true;
      loading := false;
    }

    /** Sign in. A failed attempt signs the user out and leaves
        `initialized` as it was. */
    method Login(response: Response<SessionPayload>) returns (ok: bool)
      modifies this
      ensures !loading
      ensures ok <==> response.Ok?
      ensures response.Ok? ==>
        && isAuthenticated == response.payload.authenticated && user == response.payload.user
        && initialized && error == ""
      ensures !response.Ok? ==>
        && !isAuthenticated && user == None
        && initialized == old(initialized) && error == ErrorText(Request(response).thrown)
      ensures response.Failed? ==> error != ""
    {
      loading := true;
      SetError(Falsy);
      match Request(response) {
        case Value(payload) =>
          ApplySession(payload);
          initialized := true;
          ok := true;
        case Threw(err) =>
          ClearSession();
          SetError(err);
          ok := false;
      }
      loading := false;
    }

    /** Sign out. Unlike a failed login, a failed logout leaves the session
        as it was. */
    method Logout<T>(response: Response<T>) returns (ok: bool)
      modifies this
      ensures !loading
      ensures ok <==> response.Ok?
      ensures response.Ok? ==> !isAuthenticated && user == None && initialized && error == ""
      ensures !response.Ok? ==>
        && isAuthenticated == old(isAuthenticated) && user == old(user)
        && initialized == old(initialized) && error == ErrorText(Request(response).thrown)
      ensures response.Failed? ==> error != ""
    {
      loading := true;
      SetError(Falsy);
      match Request(response) {
        case Value(_) =>
          ClearSession();
          initialized := true;
          ok := true;
        case Threw(err) =>
          SetError(err);
          ok := false;
      }
      loading := false;
    }
  }

  /** A signed-in user whose logout fails is still signed in as the same
      user, while a failed login always leaves nobody signed in. */
  method FailureHandlingDiffers(user: AuthUser, status: int, body: ErrorBody)
    returns (afterFailedLogout: Option<AuthUser>, afterFailedLogin: Option<AuthUser>)
    ensures afterFailedLogout == Some(user)
    ensures afterFailedLogin == None
  {
    var store := new Store();
    var signedIn := store.Login(Ok(SessionPayload(true, Some(user))));
    var signedOut := store.Logout<()>(Failed(status, body));
    afterFailedLogout := store.user;
    var again := store.Login(Failed(status, body));
    afterFailedLogin := store.user;
  }
}
