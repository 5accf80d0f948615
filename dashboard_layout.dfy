/**
 * The frame around every dashboard page: the authentication check run on
 * mount, logout, and which navigation link is highlighted.
 */
module DashboardLayout {
  import opened Common
  import opened Storage

  const LoginPath: string := "/auth/login"
  const HomePath: string := "/"

  /** A stored user counts as logged in only when its `isLoggedIn` property is truthy. */
  predicate LoggedIn(items: map<string, StoredValue>)
    requires WellTyped(items)
    ensures LoggedIn(items) ==> UserKey in items && "isLoggedIn" in items[UserKey].fields
  {
    match StoredUser(items)
    case None => false
    case Some(user) => Truthy(Property(user, "isLoggedIn"))
  }

  /**
   * The user objects the API client stores after login and registration:
   * id, email and username, and no `isLoggedIn`.
   */
  function ApiClientUser(id: int, email: string, username: string): map<string, Json>
  {
    map["id" := JNum(id), "email" := JStr(email), "username" := JStr(username)]
  }

  /** Those objects do not pass the gate. */
  lemma ApiClientUserIsLoggedOut(items: map<string, StoredValue>, id: int, email: string, username: string)
    requires WellTyped(items)
    ensures !LoggedIn(items[UserKey := UserObject(ApiClientUser(id, email, username))])
  {
    assert "isLoggedIn" !in ApiClientUser(id, email, username);
  }

  /** Only `isLoggedIn` decides: true, 1 or a non-empty string admit; false, 0, "" and null do not. */
  lemma GateFollowsTruthiness(items: map<string, StoredValue>, user: map<string, Json>)
    requires WellTyped(items)
    ensures LoggedIn(items[UserKey := UserObject(user["isLoggedIn" := JBool(true)])])
    ensures LoggedIn(items[UserKey := UserObject(user["isLoggedIn" := JStr("yes")])])
    ensures !LoggedIn(items[UserKey := UserObject(user["isLoggedIn" := JNum(0)])])
    ensures !LoggedIn(items[UserKey := UserObject(user["isLoggedIn" := JStr("")])])
    ensures !LoggedIn(items[UserKey := UserObject(user["isLoggedIn" := JNull])])
  {
  }

  /** isLinkActive: exact equality of paths. */
  predicate IsLinkActive(pathname: string, path: string)
    ensures |pathname| != |path| ==> !IsLinkActive(pathname, path)
    ensures pathname == path ==> IsLinkActive(pathname, path)
  {
    pathname == path
  }

  /** A page below a link's path does not highlight the link. */
  lemma SubPathIsNotActive(path: string, rest: string)
    requires rest != []
    ensures !IsLinkActive(path + rest, path)
  {
    assert |path + rest| > |path|;
  }

  class LayoutView {
    var isLoggedIn: bool
    var isMobileMenuOpen: bool

    constructor ()
      ensures !isLoggedIn && !isMobileMenuOpen
    {
      isLoggedIn, isMobileMenuOpen := false, false;
    }

    /** Nothing is rendered until checkAuth has admitted the user. */
    predicate Renders()
      reads this
    {
      isLoggedIn
    }

    /**
     * The authentication effect: the login page when no user is stored or
     * the stored one is not logged in; otherwise the view is admitted. The
     * store is only read.
     */
    method CheckAuth(store: LocalStorage) returns (redirect: Option<string>)
      requires store.Valid()
      modifies this
      ensures redirect.None? <==> LoggedIn(store.items)
      ensures redirect.Some? ==> redirect.value == LoginPath && isLoggedIn == old(isLoggedIn)
      ensures redirect.None? ==> isLoggedIn
      ensures isMobileMenuOpen == old(isMobileMenuOpen)
    {
      if UserKey !in store.items {
        return Some(LoginPath);
      }
      var userData := store.items[UserKey].fields;
      if !Truthy(Property(userData, "isLoggedIn")) {
        return Some(LoginPath);
      }
      isLoggedIn := true;
      return None;
    }

    /** handleLogout: only the `user` key goes; the access token stays. */
    method HandleLogout(store: LocalStorage) returns (navigateTo: string)
      requires store.Valid()
      modifies store
      ensures store.Valid() && navigateTo == HomePath
      ensures store.items == old(store.items) - {UserKey}
      ensures AccessTokenKey in old(store.items) ==>
                AccessTokenKey in store.items && store.items[AccessTokenKey] == old(store.items[AccessTokenKey])
    {
      store.RemoveItem(UserKey);
      return HomePath;
    }
  }

  /**
   * A fresh view over a store with no user: checkAuth redirects to the login
   * page and nothing is rendered.
   */
  method FreshViewWithoutUser(store: LocalStorage) returns (redirect: Option<string>, rendered: bool)
    requires store.Valid() && UserKey !in store.items
    ensures redirect == Some(LoginPath) && !rendered
  {
    var view := new LayoutView();
    redirect := view.CheckAuth(store);
    rendered := view.Renders();
  }
}
