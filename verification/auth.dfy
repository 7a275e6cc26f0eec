/** The mock authentication context (src/context/AuthContext.tsx): one `user` field,
    changed by login, logout and register, and the `useAuth` guard. The promises the
    source wraps results in are taken as settled at once. */
module Auth {
  import opened Wrappers

  datatype User = User(id: string, name: string, email: string)

  /** The only id the mock ever issues. */
  const MockUserId := "1"
  const MockUserName := "John Doe"

  class AuthProvider {
    var user: Option<User>

    /** Whoever is signed in came through login or register: the mock id, and a
        non-empty name and email. */
    ghost predicate Valid()
      reads this
    {
      user.Some? ==> user.value.id == MockUserId && user.value.name != "" && user.value.email != ""
    }

    /** The provider starts signed out. */
    constructor ()
      ensures Valid() && user.None?
    {
      user := None;
    }

    /** `!!user`. */
    function IsAuthenticated(): (b: bool)
      reads this
      ensures b <==> user.Some?
      ensures Valid() && b ==> user.value.id == MockUserId
    {
      user.Some?
    }

    /** Succeeds exactly when email and password are non-empty and then signs in the
        mock user under the given email; a failed attempt leaves the session as it was. */
    method Login(email: string, password: string) returns (ok: bool)
      requires Valid()
      modifies this
      ensures Valid()
      ensures ok <==> email != "" && password != ""
      ensures ok ==> user == Some(User(MockUserId, MockUserName, email))
      ensures !ok ==> user == old(user)
    {
      if email != "" && password != "" {
        user := Some(User(MockUserId, MockUserName, email));
        return true;
      }
      return false;
    }

    /** Signs out. */
    method Logout()
      requires Valid()
      modifies this
      ensures Valid() && user.None? && !IsAuthenticated()
    {
      user := None;
    }

    /** Succeeds exactly when name, email and password are non-empty and then signs in
        a user with the mock id and the given name and email; a failed attempt leaves
        the session as it was. */
    method Register(name: string, email: string, password: string) returns (ok: bool)
      requires Valid()
      modifies this
      ensures Valid()
      ensures ok <==> name != "" && email != "" && password != ""
      ensures ok ==> user == Some(User(MockUserId, name, email))
      ensures !ok ==> user == old(user)
    {
      if name != "" && email != "" && password != "" {
        user := Some(User(MockUserId, name, email));
        return true;
      }
      return false;
    }
  }

  const OutsideProvider := "useAuth must be used within an AuthProvider"

  /** `useAuth`: the context when a provider encloses the caller, the error it throws
      otherwise. */
  function UseAuth(context: Option<AuthProvider>): (r: Result<AuthProvider>)
    ensures r.Failure? <==> context.None?
    ensures r.Failure? ==> r.error == OutsideProvider
    ensures r.Success? ==> r.value == context.value
  {
    match context
    case None => Failure(OutsideProvider)
    case Some(provider) => Success(provider)
  }

  /** A session: log in, fail to log in with an empty password, log out. The failed
      attempt keeps the first user signed in. */
  method LoginSession(email: string) returns (afterLogin: bool, afterFailure: bool, afterLogout: bool)
    requires email != ""
    ensures afterLogin && afterFailure && !afterLogout
  {
    var auth := new AuthProvider();
    var ok := auth.Login(email, "secret");
    afterLogin := auth.IsAuthenticated();
    ok := auth.Login(email, "");
    afterFailure := auth.IsAuthenticated() && auth.user.value.email == email;
    auth.Logout();
    afterLogout := auth.IsAuthenticated();
  }
}
