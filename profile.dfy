/**
 * The profile page: its two forms and their schemas, filling the profile
 * form from the stored user, and the two (simulated) submissions.
 */
module ProfilePage {
  import opened Common
  import opened Storage
  import DashboardLayout

  datatype ProfileFormValues = ProfileFormValues(name: string, email: string)

  datatype PasswordFormValues = PasswordFormValues(currentPassword: string, newPassword: string,
                                                   confirmPassword: string)

  const EmptyPasswordForm: PasswordFormValues := PasswordFormValues("", "", "")

  /**
   * profileSchema: a name of at least two characters and an address the
   * email validator (a parameter here) accepts.
   */
  function ValidateProfile(v: ProfileFormValues, isEmail: string -> bool): (issues: seq<Issue>)
    ensures issues == [] <==> |v.name| >= 2 && isEmail(v.email)
    ensures |v.name| < 2 ==> issues[0] == Issue("name", "Name must be at least 2 characters")
  {
    MinLength("name", v.name, 2, "Name must be at least 2 characters")
      + (if isEmail(v.email) then [] else [Issue("email", "Invalid email address")])
  }

  /**
   * passwordSchema: the three length checks, then the refinement that the new
   * and confirmed passwords agree, reported at `confirmPassword`. Length
   * failures do not stop the refinement from running.
   */
  function ValidatePassword(v: PasswordFormValues): (issues: seq<Issue>)
    ensures issues == [] <==>
              |v.currentPassword| >= 1 && |v.newPassword| >= 8 && |v.confirmPassword| >= 8 &&
              v.newPassword == v.confirmPassword
    ensures v.newPassword != v.confirmPassword <==>
              issues != [] && issues[|issues| - 1] == Issue("confirmPassword", "Passwords don't match")
  {
    var lengths := MinLength("currentPassword", v.currentPassword, 1, "Current password is required")
      + MinLength("newPassword", v.newPassword, 8, "New password must be at least 8 characters")
      + MinLength("confirmPassword", v.confirmPassword, 8, "Confirm password must be at least 8 characters");
    lengths + (if v.newPassword == v.confirmPassword then [] else [Issue("confirmPassword", "Passwords don't match")])
  }

  /** Equal passwords of eight characters pass only with some current password. */
  lemma PasswordExamples()
    ensures ValidatePassword(PasswordFormValues("x", "abcdefgh", "abcdefgh")) == []
    ensures ValidatePassword(PasswordFormValues("", "abcdefgh", "abcdefgh")) ==
              [Issue("currentPassword", "Current password is required")]
    ensures ValidatePassword(PasswordFormValues("x", "abc", "abd")) ==
              [ Issue("newPassword", "New password must be at least 8 characters"),
                Issue("confirmPassword", "Confirm password must be at least 8 characters"),
                Issue("confirmPassword", "Passwords don't match") ]
  {
  }

  /** `value || ""` for a form field: a stored string, or "" for a missing or falsy property. */
  function FieldOrEmpty(v: Option<Json>): (s: string)
    ensures v.Some? && v.value.JStr? ==> s == v.value.s
    ensures !Truthy(v) ==> s == ""
  {
    match v
    case Some(JStr(s)) => s
    case _ => ""
  }

  /** The stored user after a profile submit: `name` and `email` replaced, every other property kept. */
  function MergeProfile(user: map<string, Json>, values: ProfileFormValues): (r: map<string, Json>)
    ensures r.Keys == user.Keys + {"name", "email"}
    ensures r["name"] == JStr(values.name) && r["email"] == JStr(values.email)
    ensures forall k :: k in user && k != "name" && k != "email" ==> r[k] == user[k]
  {
    user["name" := JStr(values.name)]["email" := JStr(values.email)]
  }

  /** A profile submit keeps the user logged in (or logged out) as before. */
  lemma ProfileSubmitKeepsLogin(items: map<string, StoredValue>, values: ProfileFormValues)
    requires WellTyped(items) && UserKey in items
    ensures WellTyped(items[UserKey := UserObject(MergeProfile(items[UserKey].fields, values))])
    ensures DashboardLayout.LoggedIn(items[UserKey := UserObject(MergeProfile(items[UserKey].fields, values))])
            == DashboardLayout.LoggedIn(items)
  {
    var user := items[UserKey].fields;
    assert Property(MergeProfile(user, values), "isLoggedIn") == Property(user, "isLoggedIn");
  }

  class ProfileView {
    var userData: map<string, Json>
    var isLoading: bool
    var isUpdatingProfile: bool
    var isUpdatingPassword: bool
    var profileForm: ProfileFormValues
    var passwordForm: PasswordFormValues

    constructor ()
      ensures userData == map[] && isLoading && !isUpdatingProfile && !isUpdatingPassword
      ensures profileForm == ProfileFormValues("", "") && passwordForm == EmptyPasswordForm
    {
      userData, isLoading, isUpdatingProfile, isUpdatingPassword := map[], true, false, false;
      profileForm, passwordForm := ProfileFormValues("", ""), EmptyPasswordForm;
    }

    /** fetchUserData: a stored user fills the state and the profile form; loading ends either way. */
    method FetchUserData(store: LocalStorage)
      requires store.Valid()
      modifies this
      ensures !isLoading
      ensures UserKey in store.items ==>
                && userData == store.items[UserKey].fields
                && profileForm == ProfileFormValues(FieldOrEmpty(Property(userData, "name")),
                                                    FieldOrEmpty(Property(userData, "email")))
      ensures UserKey !in store.items ==> userData == old(userData) && profileForm == old(profileForm)
      ensures passwordForm == old(passwordForm) && isUpdatingProfile == old(isUpdatingProfile)
      ensures isUpdatingPassword == old(isUpdatingPassword)
    {
      isLoading := true;
      if UserKey in store.items {
        var parsedUser := store.items[UserKey].fields;
        userData := parsedUser;
        profileForm := ProfileFormValues(FieldOrEmpty(Property(parsedUser, "name")),
                                         FieldOrEmpty(Property(parsedUser, "email")));
      }
      isLoading := false;
    }

    /** onProfileSubmit and onPasswordSubmit first raise their flag and start a timer. */
    method StartProfileSubmit()
      modifies this
      ensures isUpdatingProfile && isUpdatingPassword == old(isUpdatingPassword)
      ensures userData == old(userData) && profileForm == old(profileForm) && passwordForm == old(passwordForm)
      ensures isLoading == old(isLoading)
    {
      isUpdatingProfile := true;
    }

    method StartPasswordSubmit()
      modifies this
      ensures isUpdatingPassword && isUpdatingProfile == old(isUpdatingProfile)
      ensures userData == old(userData) && profileForm == old(profileForm) && passwordForm == old(passwordForm)
      ensures isLoading == old(isLoading)
    {
      isUpdatingPassword := true;
    }

    /**
     * The timer callback of onProfileSubmit: with a stored user, its name and
     * email are replaced in the store and in the state; without one nothing
     * is written.
     */
    method FinishProfileSubmit(values: ProfileFormValues, store: LocalStorage)
      requires store.Valid()
      modifies this, store
      ensures store.Valid() && !isUpdatingProfile
      ensures UserKey in old(store.items) ==>
                && userData == MergeProfile(old(store.items)[UserKey].fields, values)
                && store.items == old(store.items)[UserKey := UserObject(userData)]
      ensures UserKey !in old(store.items) ==> store.items == old(store.items) && userData == old(userData)
      ensures profileForm == old(profileForm) && passwordForm == old(passwordForm)
      ensures isLoading == old(isLoading) && isUpdatingPassword == old(isUpdatingPassword)
    {
      if UserKey in store.items {
        var parsedUser := store.items[UserKey].fields;
        var updatedUser := MergeProfile(parsedUser, values);
        store.SetItem(UserKey, UserObject(updatedUser));
        userData := updatedUser;
      }
      isUpdatingProfile := false;
    }

    /** The timer callback of onPasswordSubmit: no store is involved; the form is cleared. */
    method FinishPasswordSubmit()
      modifies this
      ensures !isUpdatingPassword && passwordForm == EmptyPasswordForm
      ensures userData == old(userData) && profileForm == old(profileForm)
      ensures isUpdatingProfile == old(isUpdatingProfile) && isLoading == old(isLoading)
    {
      isUpdatingPassword := false;
      passwordForm := EmptyPasswordForm;
    }
  }
}
