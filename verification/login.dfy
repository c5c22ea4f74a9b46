/** Signing in (`Login.jsx`): where a signed-in Google user is sent and what
    is written about them, which sign-in flow is tried, and the message a
    failed sign-in shows. */
module Login {
  import opened Results
  import opened Backend

  const DASHBOARD: string := "/dashboard"
  const COMPLETE_PROFILE: string := "/complete-profile"
  const LOGIN_ERROR: string := "Unable to complete login process. Please try again."

  const NETWORK_CODE: string := "auth/network-request-failed"
  const CANCELLED_CODE: string := "auth/cancelled-popup-request"
  const DISABLED_CODE: string := "auth/user-disabled"
  const NETWORK_MESSAGE: string := "Network error. Please check your internet connection."
  const CANCELLED_MESSAGE: string := "Sign-in process was cancelled. Please try again."
  const DISABLED_MESSAGE: string := "This account has been disabled. Please contact support."
  const DEFAULT_MESSAGE: string := "Unable to sign in with Google. Please try again."

  /** Windows wider than this many pixels try the popup first. */
  const POPUP_MIN_WIDTH: int := 768

  /** The account Google sign-in returns. */
  datatype GoogleUser = GoogleUser(uid: Uid, email: Option<string>, displayName: Option<string>, photoURL: Option<string>)

  datatype LoginView = LoginView(loading: bool, error: Option<string>)

  /** The environment of one `handleUserLogin`: whether `getDoc` and the
      `setDoc` (when one is made) go through, whether the clean-up `signOut`
      does, and `serverTimestamp()`. */
  datatype LoginOracle = LoginOracle(read: Outcome, write: Outcome, signOut: Outcome, serverTime: int)

  datatype LoginResult = LoginResult(view: LoginView, users: map<Uid, UserDoc>, navigateTo: Option<string>, signedOut: bool)

  /** Whether the stored user document says the phone was verified. */
  predicate PhoneVerified(doc: UserDoc) {
    Truthy(Field(doc, "phoneVerified"))
  }

  /** The document written for a first-time user. */
  function NewUserDoc(user: GoogleUser, now: int): (doc: UserDoc)
    ensures "phoneVerified" in doc && doc["phoneVerified"] == Flag(false) && !PhoneVerified(doc)
    ensures "uid" in doc && doc["uid"] == Str(user.uid)
  {
    map["uid" := Str(user.uid),
        "email" := OptionOf(user.email),
        "displayName" := OptionOf(user.displayName),
        "photoURL" := OptionOf(user.photoURL),
        "createdAt" := Time(now),
        "lastLogin" := Time(now),
        "phoneVerified" := Flag(false)]
  }

  function OptionOf(v: Option<string>): Value {
    if v.Some? then Str(v.value) else Null
  }

  /** `handleUserLogin(user)`. A verified user gets `lastLogin` merged in and
      goes to the dashboard; a known but unverified one goes to profile
      completion untouched; an unknown one gets a fresh document and goes to
      profile completion. Any failed call shows the login error and signs
      out instead. `loading` ends false on every path. */
  function HandleUserLogin(v: LoginView, user: GoogleUser, o: LoginOracle, users: map<Uid, UserDoc>): (r: LoginResult)
    ensures !r.view.loading
    ensures r.navigateTo.None? <==> o.read.Fail? || (o.write.Fail? && (user.uid !in users || PhoneVerified(users[user.uid])))
    ensures r.navigateTo.None? ==> r.users == users && r.view.error == Some(LOGIN_ERROR) && r.signedOut == o.signOut.Pass?
    ensures r.navigateTo.Some? ==> r.view.error == v.error && !r.signedOut
    ensures r.navigateTo == Some(DASHBOARD) <==> o.read.Pass? && user.uid in users && PhoneVerified(users[user.uid]) && o.write.Pass?
    ensures r.navigateTo == Some(DASHBOARD) ==>
      && user.uid in r.users && "lastLogin" in r.users[user.uid]
      && r.users[user.uid]["lastLogin"] == Time(o.serverTime)
      && (forall f :: f in users[user.uid] && f != "lastLogin" ==> f in r.users[user.uid] && r.users[user.uid][f] == users[user.uid][f])
    ensures o.read.Pass? && user.uid in users && !PhoneVerified(users[user.uid]) ==>
      r.navigateTo == Some(COMPLETE_PROFILE) && r.users == users
    ensures o.read.Pass? && user.uid !in users && o.write.Pass? ==>
      r.navigateTo == Some(COMPLETE_PROFILE) && r.users == users[user.uid := NewUserDoc(user, o.serverTime)]
    ensures forall u :: u != user.uid ==> (u in r.users <==> u in users) && (u in users ==> r.users[u] == users[u])
  {
    var failed := LoginResult(LoginView(false, Some(LOGIN_ERROR)), users, None, o.signOut.Pass?);
    var done := v.(loading := false);
    if o.read.Fail? then failed
    else if user.uid in users then
      var doc := users[user.uid];
      if PhoneVerified(doc) then
        if o.write.Fail? then failed
        else
          var fields := map["lastLogin" := Time(o.serverTime)];
          assert "lastLogin" in fields;
          LoginResult(done, users[user.uid := SetDoc(Some(doc), fields, true)], Some(DASHBOARD), false)
      else LoginResult(done, users, Some(COMPLETE_PROFILE), false)
    else if o.write.Fail? then failed
    else LoginResult(done, users[user.uid := NewUserDoc(user, o.serverTime)], Some(COMPLETE_PROFILE), false)
  }

  /** A first sign-in leads, on every later sign-in, to profile completion
      without another write, until the phone is verified. */
  lemma SecondLoginCompletesProfile(v: LoginView, user: GoogleUser, o: LoginOracle, users: map<Uid, UserDoc>,
                                    v2: LoginView, o2: LoginOracle)
    requires o.read.Pass? && o.write.Pass? && user.uid !in users && o2.read.Pass?
    ensures var first := HandleUserLogin(v, user, o, users);
      var second := HandleUserLogin(v2, user, o2, first.users);
      && first.navigateTo == Some(COMPLETE_PROFILE)
      && second.navigateTo == Some(COMPLETE_PROFILE)
      && second.users == first.users
  {
  }

  /** `error.code` to the message shown for a failed sign-in. */
  function SignInErrorMessage(code: string): (m: string)
    ensures code == NETWORK_CODE <==> m == NETWORK_MESSAGE
    ensures code == CANCELLED_CODE <==> m == CANCELLED_MESSAGE
    ensures code == DISABLED_CODE <==> m == DISABLED_MESSAGE
    ensures code !in {NETWORK_CODE, CANCELLED_CODE, DISABLED_CODE} <==> m == DEFAULT_MESSAGE
  {
    if code == NETWORK_CODE then NETWORK_MESSAGE
    else if code == CANCELLED_CODE then CANCELLED_MESSAGE
    else if code == DISABLED_CODE then DISABLED_MESSAGE
    else DEFAULT_MESSAGE
  }

  /** The outcome of one sign-in attempt: signed in, or the error's code. */
  datatype AuthOutcome = SignedIn | AuthError(code: string)

  datatype Flow = Popup | Redirect

  datatype SignInResult = SignInResult(tried: seq<Flow>, view: LoginView)

  /** `handleGoogleSignIn`: on a window wider than 768 pixels the popup is
      tried, and any popup failure falls back to a redirect; otherwise the
      redirect is used directly. Only a failing redirect reaches the error
      message, mapped from its code; `loading` ends false. */
  function HandleGoogleSignIn(v: LoginView, width: int, popup: AuthOutcome, redirect: AuthOutcome): (r: SignInResult)
    ensures !r.view.loading
    ensures width > POPUP_MIN_WIDTH ==> |r.tried| >= 1 && r.tried[0] == Popup
    ensures Popup in r.tried <==> width > POPUP_MIN_WIDTH
    ensures Redirect in r.tried <==> width <= POPUP_MIN_WIDTH || popup.AuthError?
    ensures |r.tried| >= 1 && r.tried[|r.tried| - 1] == Redirect ==> r.view.error == (if redirect.AuthError? then Some(SignInErrorMessage(redirect.code)) else None)
    ensures r.view.error.Some? ==> Redirect in r.tried && redirect.AuthError?
  {
    var fail := if redirect.AuthError? then Some(SignInErrorMessage(redirect.code)) else None;
    if width > POPUP_MIN_WIDTH then
      if popup.SignedIn? then SignInResult([Popup], LoginView(false, None))
      else SignInResult([Popup, Redirect], LoginView(false, fail))
    else SignInResult([Redirect], LoginView(false, fail))
  }

  /** A popup's own error code is never shown: whatever went wrong in the
      popup, the message comes from the redirect that replaces it. */
  lemma PopupCodeNeverShown(v: LoginView, width: int, c1: string, c2: string, redirect: AuthOutcome)
    ensures HandleGoogleSignIn(v, width, AuthError(c1), redirect) == HandleGoogleSignIn(v, width, AuthError(c2), redirect)
  {
  }
}
