/** Profile completion (`CompleteProfile.jsx`): a three-step form. Step 1
    takes the display name (and optionally a picture) and writes the user
    document; step 2 takes the phone number and sends an SMS code; step 3
    takes the six code digits, counts down five minutes, and marks the phone
    verified. As written, sending the code always throws, so the handlers of
    steps 2 and 3 are given both as written and as meant. */
module Profile {
  import opened Results
  import opened Backend
  import opened Text

  const NAME_ERROR: string := "Please enter your name"
  const SAVE_ERROR: string := "Failed to save profile data. Please try again."
  const PHONE_ERROR: string := "Please enter a valid phone number"
  const SEND_ERROR: string := "Failed to send verification code. Please try again."
  const CODE_LENGTH_ERROR: string := "Please enter the full 6-digit code"
  const CODE_ERROR: string := "Invalid verification code. Please try again."
  const RESEND_ERROR: string := "Failed to resend verification code. Please try again."
  const DASHBOARD: string := "/dashboard"
  /** Seconds a sent code stays valid on the countdown. */
  const CODE_SECONDS: nat := 300
  /** A phone number shorter than this is rejected. */
  const MIN_PHONE_LENGTH: nat := 8
  const CODE_DIGITS: nat := 6

  /** The signed-in account as Firebase Auth reports it. */
  datatype AuthUser = AuthUser(uid: Uid, email: Option<string>, photoURL: Option<string>)

  datatype Form = Form(displayName: string, photoURL: string, phoneNumber: string, countryCode: string)

  /** The component's state. `codeSent` stands for the confirmation result
      kept after an SMS was sent. */
  datatype ProfileState = ProfileState(
    step: nat,
    form: Form,
    code: seq<string>,
    error: string,
    timer: nat,
    resendDisabled: bool,
    codeSent: bool)

  /** The first render: step 1, the name and photo taken from the account,
      country code 1, six empty code slots, a full countdown, resend off. */
  function Init(displayName: Option<string>, photoURL: Option<string>): (st: ProfileState)
    ensures st.step == 1 && st.timer == CODE_SECONDS && st.resendDisabled && !st.codeSent && st.error == ""
    ensures |st.code| == CODE_DIGITS && forall k :: 0 <= k < |st.code| ==> st.code[k] == ""
    ensures st.form.phoneNumber == "" && st.form.countryCode == "1"
    ensures st.form.displayName == (if displayName.Some? then displayName.value else "")
    ensures st.form.photoURL == (if photoURL.Some? then photoURL.value else "")
  {
    var name := if displayName.Some? then displayName.value else "";
    var photo := if photoURL.Some? then photoURL.value else "";
    ProfileState(1, Form(name, photo, "", "1"), ["", "", "", "", "", ""], "", CODE_SECONDS, true, false)
  }

  /** `a || b` for a string field and an optional account field. */
  function OrElse(a: string, b: Option<string>): Value {
    if a != "" then Str(a) else if b.Some? then Str(b.value) else Null
  }

  function OptionalStr(v: Option<string>): Value {
    if v.Some? then Str(v.value) else Null
  }

  /** The document step 1 writes, as the code builds it: the photo comes from
      the form as it was when the button was pressed. */
  function ProfileDocAsWritten(st: ProfileState, user: AuthUser, now: int): (doc: UserDoc)
    ensures doc.Keys == {"uid", "displayName", "photoURL", "email", "createdAt", "phoneVerified"}
    ensures doc["phoneVerified"] == Flag(false) && doc["displayName"] == Str(st.form.displayName)
    ensures doc["photoURL"] == OrElse(st.form.photoURL, user.photoURL)
  {
    map["uid" := Str(user.uid),
        "displayName" := Str(st.form.displayName),
        "photoURL" := OrElse(st.form.photoURL, user.photoURL),
        "email" := OptionalStr(user.email),
        "createdAt" := Time(now),
        "phoneVerified" := Flag(false)]
  }

  /** The account after `updateProfile` resolved. The SDK sets the new
      photo on `auth.currentUser`, which is the very object the component
      holds as `user`, so reads of `user.photoURL` later in the same press
      see the uploaded picture; without a picture the photo is untouched. */
  function UpdatedAccount(user: AuthUser, url: Option<string>): (u: AuthUser)
    ensures u.uid == user.uid && u.email == user.email
    ensures u.photoURL == if url.Some? then url else user.photoURL
  {
    if url.Some? then user.(photoURL := url) else user
  }

  /** The document step 1 is meant to write: a picture uploaded in this step
      is the one recorded. */
  function ProfileDoc(st: ProfileState, user: AuthUser, upload: Option<string>, now: int): (doc: UserDoc)
    ensures doc.Keys == {"uid", "displayName", "photoURL", "email", "createdAt", "phoneVerified"}
    ensures doc["phoneVerified"] == Flag(false) && doc["displayName"] == Str(st.form.displayName)
    ensures upload.Some? ==> doc["photoURL"] == Str(upload.value)
    ensures upload.None? ==> doc == ProfileDocAsWritten(st, user, now)
  {
    var doc := ProfileDocAsWritten(st, user, now);
    if upload.Some? then doc["photoURL" := Str(upload.value)] else doc
  }

  /** The environment of one "Next" press, call by call: for a picture chosen
      in step 1, the download URL Storage gives after `uploadBytes`, or the
      error of either call; the outcome of `updateProfile`; the outcome of
      the user document's `setDoc`; whether the SMS goes out; and the clock. */
  datatype NextOracle = NextOracle(photo: Option<Result<string>>, profileUpdated: Outcome, docWritten: Outcome, sent: Outcome, now: int)

  /** What `updateProfile` sets on the Auth account: the name, and the
      photo when a picture was uploaded (otherwise the photo is left alone). */
  datatype ProfileUpdate = ProfileUpdate(displayName: string, photoURL: Option<string>)

  /** What a press changes outside the component: the `users` collection,
      the number an SMS was sent to, if any, and the Auth profile update
      that went through, if any. */
  datatype NextResult = NextResult(state: ProfileState, users: map<Uid, UserDoc>, dialled: Option<string>, profile: Option<ProfileUpdate>)

  /** The picture's upload or its download URL was rejected. */
  predicate PhotoFailed(o: NextOracle) {
    o.photo.Some? && o.photo.value.Err?
  }

  /** The download URL a press obtained, if a picture was chosen and both
      Storage calls went through. */
  function PhotoUrl(o: NextOracle): (url: Option<string>)
    ensures url.Some? <==> o.photo.Some? && o.photo.value.Ok?
    ensures url.Some? ==> o.photo == Some(Ok(url.value))
  {
    if o.photo.Some? && o.photo.value.Ok? then Some(o.photo.value.value) else None
  }

  /** `'+' + countryCode + phoneNumber.replace(/\D/g, '')`. */
  function DialledNumber(form: Form): (n: string)
    ensures |n| > 0 && n[0] == '+'
  {
    "+" + form.countryCode + StripNonDigits(form.phoneNumber)
  }

  /** The remote part of step 1, once the name passed: the picture (if
      chosen) is uploaded and its URL put in the form at once, the Auth
      profile is updated, and the user document written; only then does the
      form move to step 2. A failure after the URL was obtained keeps it in
      the form. `correctedPhoto` picks which document is written. */
  function SaveRemote(st: ProfileState, user: AuthUser, o: NextOracle, users: map<Uid, UserDoc>, correctedPhoto: bool): (r: NextResult)
    requires st.step == 1
    ensures r.state.step == 2 <==> !PhotoFailed(o) && o.profileUpdated.Pass? && o.docWritten.Pass?
    ensures r.state == st.(step := r.state.step, form := r.state.form, error := r.state.error)
    ensures r.state.form == if PhotoUrl(o).Some? then st.form.(photoURL := PhotoUrl(o).value) else st.form
    ensures r.state.step != 2 ==> r.state.step == 1 && r.users == users && r.state.error == SAVE_ERROR
    ensures r.profile.Some? <==> !PhotoFailed(o) && o.profileUpdated.Pass?
    ensures r.profile.Some? ==> r.profile.value == ProfileUpdate(st.form.displayName, PhotoUrl(o))
    ensures r.state.step == 2 ==>
      && r.users == users[user.uid := if correctedPhoto then ProfileDoc(st, user, PhotoUrl(o), o.now) else ProfileDocAsWritten(st, UpdatedAccount(user, PhotoUrl(o)), o.now)]
    ensures r.state.step == 2 ==>
      && user.uid in r.users && "phoneVerified" in r.users[user.uid] && r.users[user.uid]["phoneVerified"] == Flag(false)
      && (forall u :: u in r.users && u != user.uid ==> u in users && r.users[u] == users[u])
    ensures r.dialled.None?
  {
    if PhotoFailed(o) then NextResult(st.(error := SAVE_ERROR), users, None, None)
    else
      var url := PhotoUrl(o);
      var form := if url.Some? then st.form.(photoURL := url.value) else st.form;
      if o.profileUpdated.Fail? then NextResult(st.(form := form, error := SAVE_ERROR), users, None, None)
      else
        var update := ProfileUpdate(st.form.displayName, url);
        if o.docWritten.Fail? then NextResult(st.(form := form, error := SAVE_ERROR), users, None, Some(update))
        else
          var doc := if correctedPhoto then ProfileDoc(st, user, url, o.now) else ProfileDocAsWritten(st, UpdatedAccount(user, PhotoUrl(o)), o.now);
          NextResult(st.(step := 2, form := form), users[user.uid := doc], None, Some(update))
  }

  /** Step 1 of `handleNextStep`: a blank name is refused; otherwise the
      remote calls run in order, and the form moves to step 2 only when all
      of them succeed. */
  function SaveProfile(st: ProfileState, user: AuthUser, o: NextOracle, users: map<Uid, UserDoc>, correctedPhoto: bool): (r: NextResult)
    requires st.step == 1
    ensures IsBlank(st.form.displayName) ==> r == NextResult(st.(error := NAME_ERROR), users, None, None)
    ensures r.state.step == 2 <==>
      !IsBlank(st.form.displayName) && !PhotoFailed(o) && o.profileUpdated.Pass? && o.docWritten.Pass?
    ensures r.state == st.(step := r.state.step, form := r.state.form, error := r.state.error)
    ensures !IsBlank(st.form.displayName) && PhotoUrl(o).Some? ==> r.state.form == st.form.(photoURL := PhotoUrl(o).value)
    ensures IsBlank(st.form.displayName) || PhotoUrl(o).None? ==> r.state.form == st.form
    ensures r.state.step != 2 ==> r.state.step == 1 && r.users == users && r.state.error != ""
    ensures r.state.step != 2 && !IsBlank(st.form.displayName) ==> r.state.error == SAVE_ERROR
    ensures r.profile.Some? <==> !IsBlank(st.form.displayName) && !PhotoFailed(o) && o.profileUpdated.Pass?
    ensures r.profile.Some? ==> r.profile.value == ProfileUpdate(st.form.displayName, PhotoUrl(o))
    ensures r.state.step == 2 ==>
      && user.uid in r.users && "phoneVerified" in r.users[user.uid] && r.users[user.uid]["phoneVerified"] == Flag(false)
      && (forall u :: u in r.users && u != user.uid ==> u in users && r.users[u] == users[u])
    ensures r.state.step == 2 ==>
      && user.uid in r.users
      && r.users[user.uid] == (if correctedPhoto then ProfileDoc(st, user, PhotoUrl(o), o.now) else ProfileDocAsWritten(st, UpdatedAccount(user, PhotoUrl(o)), o.now))
    ensures r.dialled.None?
  {
    if Trim(st.form.displayName) == "" then NextResult(st.(error := NAME_ERROR), users, None, None)
    else
      var r := SaveRemote(st, user, o, users, correctedPhoto);
      assert r.state.step == 2 ==> user.uid in r.users;
      r
  }

  /** Step 2 of `handleNextStep` as the code runs it. The shared `auth` is
      the Auth instance of the modular SDK (`getAuth(app)` in
      `firebase/config.js`), which has no `RecaptchaVerifier` member:
      `new auth.RecaptchaVerifier(...)` throws a `TypeError` before a number
      is built or dialled, so a long enough number always meets the send
      error. */
  function SendCodeAsWritten(st: ProfileState, users: map<Uid, UserDoc>): (r: NextResult)
    requires st.step == 2
    ensures r.state.step == 2 && r.state == st.(error := r.state.error) && r.users == users
    ensures r.dialled.None? && r.profile.None?
    ensures r.state.error == if |st.form.phoneNumber| < MIN_PHONE_LENGTH then PHONE_ERROR else SEND_ERROR
  {
    if |st.form.phoneNumber| < MIN_PHONE_LENGTH then NextResult(st.(error := PHONE_ERROR), users, None, None)
    else NextResult(st.(error := SEND_ERROR), users, None, None)
  }

  /** Step 2 of `handleNextStep` as it is meant to work, with the verifier
      built as `new RecaptchaVerifier(auth, ...)` and the code sent with
      `signInWithPhoneNumber(auth, ...)`: a number shorter than 8 characters
      is refused; otherwise an SMS goes to the dialled number and, once
      sent, the form moves to step 3 with a fresh countdown. */
  function SendCode(st: ProfileState, o: NextOracle, users: map<Uid, UserDoc>): (r: NextResult)
    requires st.step == 2
    ensures |st.form.phoneNumber| < MIN_PHONE_LENGTH ==> r == NextResult(st.(error := PHONE_ERROR), users, None, None)
    ensures |st.form.phoneNumber| >= MIN_PHONE_LENGTH ==> r.dialled == Some(DialledNumber(st.form))
    ensures r.state.step == 3 <==> |st.form.phoneNumber| >= MIN_PHONE_LENGTH && o.sent.Pass?
    ensures r.state.step == 3 ==> r.state == st.(step := 3, timer := CODE_SECONDS, resendDisabled := true, codeSent := true)
    ensures r.state.step != 3 ==> r.state == st.(error := r.state.error) && r.state.error != ""
    ensures r.users == users && r.profile.None?
  {
    if |st.form.phoneNumber| < MIN_PHONE_LENGTH then NextResult(st.(error := PHONE_ERROR), users, None, None)
    else
      var n := DialledNumber(st.form);
      if o.sent.Fail? then NextResult(st.(error := SEND_ERROR), users, Some(n), None)
      else NextResult(st.(step := 3, timer := CODE_SECONDS, resendDisabled := true, codeSent := true), users, Some(n), None)
  }

  /** `handleNextStep` as written: step 1 writes the document built from
      the form as it was, and step 2 always fails. Both `if`s test the step
      the press started in, so one press moves at most one step; in step 3
      it does nothing. A failure shows its message and stays; success clears
      no earlier error. */
  function NextStep(st: ProfileState, user: AuthUser, o: NextOracle, users: map<Uid, UserDoc>): (r: NextResult)
    ensures r.state.step == st.step || (st.step == 1 && r.state.step == 2)
    ensures r.state.step == st.step ==> r.state == st.(form := r.state.form, error := r.state.error) && r.users == users
    ensures st.step in {1, 2} && r.state.step == st.step ==> r.state.error != ""
    ensures st.step == 2 ==> r.state.form == st.form
    ensures r.dialled.None? && r.state.codeSent == st.codeSent
    ensures st.step != 1 && st.step != 2 ==> r == NextResult(st, users, None, None)
  {
    if st.step == 1 then SaveProfile(st, user, o, users, false)
    else if st.step == 2 then SendCodeAsWritten(st, users)
    else NextResult(st, users, None, None)
  }

  /** `handleNextStep` with both corrections: step 1 records the uploaded
      picture, and step 2 sends the code. */
  function NextStepCorrected(st: ProfileState, user: AuthUser, o: NextOracle, users: map<Uid, UserDoc>): (r: NextResult)
    ensures r.state.step == st.step || (st.step in {1, 2} && r.state.step == st.step + 1)
    ensures r.state.step == st.step ==> r.state == st.(form := r.state.form, error := r.state.error) && r.users == users
    ensures st.step in {1, 2} && r.state.step == st.step ==> r.state.error != ""
    ensures r.dialled.Some? ==> st.step == 2 && r.dialled.value == DialledNumber(st.form)
    ensures st.step != 1 && st.step != 2 ==> r == NextResult(st, users, None, None)
  {
    if st.step == 1 then SaveProfile(st, user, o, users, true)
    else if st.step == 2 then SendCode(st, o, users)
    else NextResult(st, users, None, None)
  }

  /** Step 1 as written stores the account's photo (or the one prefilled
      from it) even when a different picture was uploaded in this step,
      while the Auth profile gets the new one. */
  lemma UploadedPhotoLost(st: ProfileState, user: AuthUser, o: NextOracle, users: map<Uid, UserDoc>)
    requires st.step == 1 && !IsBlank(st.form.displayName) && o.profileUpdated.Pass? && o.docWritten.Pass?
    requires PhotoUrl(o).Some? && PhotoUrl(o).value != st.form.photoURL && st.form.photoURL != ""
    ensures var r := SaveProfile(st, user, o, users, false);
      && r.state.step == 2
      && r.profile == Some(ProfileUpdate(st.form.displayName, PhotoUrl(o)))
      && r.users[user.uid]["photoURL"] == Str(st.form.photoURL)
      && r.users[user.uid]["photoURL"] != Str(PhotoUrl(o).value)
  {
    var r := SaveProfile(st, user, o, users, false);
    assert r.users[user.uid] == ProfileDocAsWritten(st, UpdatedAccount(user, PhotoUrl(o)), o.now);
  }

  /** With no photo in the form (an account without one), step 1 as
      written does store the uploaded picture: the form is empty, so the
      document falls back to the account, whose photo `updateProfile` has
      just set. */
  lemma UploadWithoutPrefillStored(st: ProfileState, user: AuthUser, o: NextOracle, users: map<Uid, UserDoc>)
    requires st.step == 1 && !IsBlank(st.form.displayName) && o.profileUpdated.Pass? && o.docWritten.Pass?
    requires PhotoUrl(o).Some? && st.form.photoURL == ""
    ensures var r := SaveProfile(st, user, o, users, false);
      && r.state.step == 2
      && r.users[user.uid]["photoURL"] == Str(PhotoUrl(o).value)
  {
    var r := SaveProfile(st, user, o, users, false);
    assert r.users[user.uid] == ProfileDocAsWritten(st, UpdatedAccount(user, PhotoUrl(o)), o.now);
  }

  /** The corrected step 1 records the uploaded picture in the document,
      the form and the Auth profile alike. */
  lemma UploadedPhotoKept(st: ProfileState, user: AuthUser, o: NextOracle, users: map<Uid, UserDoc>)
    requires st.step == 1 && !IsBlank(st.form.displayName) && o.profileUpdated.Pass? && o.docWritten.Pass?
    requires PhotoUrl(o).Some?
    ensures var r := SaveProfile(st, user, o, users, true);
      && r.state.step == 2
      && r.users[user.uid]["photoURL"] == Str(PhotoUrl(o).value)
      && r.state.form.photoURL == PhotoUrl(o).value
      && r.profile.value.photoURL == PhotoUrl(o)
  {
  }

  /** A press that obtained the picture's URL and then failed at
      `updateProfile` or `setDoc` has already put that URL in the form, so
      the next successful press as written stores it in the document. */
  lemma RetryStoresEarlierUpload(st: ProfileState, user: AuthUser, o1: NextOracle, o2: NextOracle, users: map<Uid, UserDoc>)
    requires st.step == 1 && !IsBlank(st.form.displayName)
    requires PhotoUrl(o1).Some? && PhotoUrl(o1).value != "" && (o1.profileUpdated.Fail? || o1.docWritten.Fail?)
    requires !PhotoFailed(o2) && o2.profileUpdated.Pass? && o2.docWritten.Pass?
    ensures var r1 := SaveProfile(st, user, o1, users, false);
      && r1.state.step == 1 && r1.state.error == SAVE_ERROR && r1.users == users
      && r1.state.form.photoURL == PhotoUrl(o1).value
      && var r2 := SaveProfile(r1.state, user, o2, r1.users, false);
      && r2.state.step == 2
      && r2.users[user.uid]["photoURL"] == Str(PhotoUrl(o1).value)
  {
    var r1 := SaveProfile(st, user, o1, users, false);
    assert r1.state.form == st.form.(photoURL := PhotoUrl(o1).value);
    var r2 := SaveProfile(r1.state, user, o2, r1.users, false);
    assert r2.users[user.uid] == ProfileDocAsWritten(r1.state, UpdatedAccount(user, PhotoUrl(o2)), o2.now);
  }

  /** The back buttons of steps 2 and 3. */
  function Back(st: ProfileState): (r: ProfileState)
    ensures st.step in {2, 3} ==> r == st.(step := st.step - 1)
    ensures st.step !in {2, 3} ==> r == st
  {
    if st.step == 2 || st.step == 3 then st.(step := st.step - 1) else st
  }

  /** `handleVerificationCodeChange(index, value)`: a non-empty value with a
      non-digit is ignored; otherwise only slot `index` takes the value. */
  function CodeChange(st: ProfileState, index: nat, value: string): (r: ProfileState)
    requires index < |st.code|
    ensures |r.code| == |st.code|
    ensures r == st.(code := r.code)
    ensures value != "" && !IsDigits(value) ==> r == st
    ensures value == "" || IsDigits(value) ==>
      r.code[index] == value && forall k :: 0 <= k < |st.code| && k != index ==> r.code[k] == st.code[k]
  {
    if value != "" && !IsDigits(value) then st else st.(code := st.code[index := value])
  }

  /** `verificationCode.join('')`. */
  function Join(code: seq<string>): (s: string)
    decreases |code|
  {
    if |code| == 0 then "" else code[0] + Join(code[1..])
  }

  lemma {:induction false} JoinLength(code: seq<string>)
    ensures |Join(code)| == SumLengths(code)
    decreases |code|
  {
    if |code| > 0 {
      JoinLength(code[1..]);
    }
  }

  function SumLengths(code: seq<string>): nat
    decreases |code|
  {
    if |code| == 0 then 0 else |code[0]| + SumLengths(code[1..])
  }

  /** Six slots of one digit each always join to a full code. */
  lemma {:induction false} SingleDigitsJoinToFull(code: seq<string>)
    requires forall k :: 0 <= k < |code| ==> |code[k]| == 1
    ensures |Join(code)| == |code|
    decreases |code|
  {
    if |code| > 0 {
      SingleDigitsJoinToFull(code[1..]);
    }
  }

  /** The environment of one "Verify" press: whether the code is accepted, and
      whether the user document update goes through. */
  datatype VerifyOracle = VerifyOracle(confirmed: Outcome, saved: Outcome)

  datatype VerifyResult = VerifyResult(state: ProfileState, users: map<Uid, UserDoc>, navigateTo: Option<string>)

  /** `handleVerifyCode`: a joined code of any length but 6 is refused before
      anything is sent; an accepted code merges `phoneNumber` and
      `phoneVerified: true` into the user document and leaves for the
      dashboard. */
  function VerifyCode(st: ProfileState, uid: Uid, o: VerifyOracle, users: map<Uid, UserDoc>): (r: VerifyResult)
    ensures |Join(st.code)| != CODE_DIGITS ==> r == VerifyResult(st.(error := CODE_LENGTH_ERROR), users, None)
    ensures r.navigateTo.Some? <==> |Join(st.code)| == CODE_DIGITS && o.confirmed.Pass? && o.saved.Pass?
    ensures r.navigateTo.Some? ==>
      && r.navigateTo == Some(DASHBOARD)
      && uid in r.users && "phoneVerified" in r.users[uid] && "phoneNumber" in r.users[uid]
      && r.users[uid]["phoneVerified"] == Flag(true)
      && r.users[uid]["phoneNumber"] == Str(st.form.phoneNumber)
      && (uid in users ==> forall f :: f in users[uid] && f !in {"phoneVerified", "phoneNumber"} ==>
            f in r.users[uid] && r.users[uid][f] == users[uid][f])
      && (forall u :: u in r.users && u != uid ==> u in users && r.users[u] == users[u])
    ensures r.navigateTo.None? && |Join(st.code)| == CODE_DIGITS ==>
      r == VerifyResult(st.(error := CODE_ERROR), users, None)
  {
    if |Join(st.code)| != CODE_DIGITS then VerifyResult(st.(error := CODE_LENGTH_ERROR), users, None)
    else if o.confirmed.Fail? || o.saved.Fail? then VerifyResult(st.(error := CODE_ERROR), users, None)
    else
      var current := if uid in users then Some(users[uid]) else None;
      var fields := map["phoneNumber" := Str(st.form.phoneNumber), "phoneVerified" := Flag(true)];
      assert "phoneNumber" in fields && "phoneVerified" in fields;
      VerifyResult(st, users[uid := SetDoc(current, fields, true)], Some(DASHBOARD))
  }

  /** `handleResendCode` as written: `new auth.RecaptchaVerifier(...)`
      throws on the modular SDK's Auth instance, so every press shows the
      resend error and changes nothing else. */
  function ResendCodeAsWritten(st: ProfileState): (r: ProfileState)
    ensures r == st.(error := r.error) && r.error == RESEND_ERROR
  {
    st.(error := RESEND_ERROR)
  }

  /** `handleResendCode` as meant, with the SDK's functions called on
      `auth`: the same number again; success restarts the countdown, turns
      resend off and clears the error. */
  function ResendCode(st: ProfileState, sent: Outcome): (r: (ProfileState, string))
    ensures r.1 == DialledNumber(st.form)
    ensures sent.Pass? ==> r.0 == st.(timer := CODE_SECONDS, resendDisabled := true, error := "", codeSent := true)
    ensures sent.Fail? ==> r.0 == st.(error := RESEND_ERROR)
  {
    var n := DialledNumber(st.form);
    if sent.Pass? then (st.(timer := CODE_SECONDS, resendDisabled := true, error := "", codeSent := true), n)
    else (st.(error := RESEND_ERROR), n)
  }

  /** Send and resend dial the same number for the same form. */
  lemma SendAndResendAgree(st: ProfileState, user: AuthUser, o: NextOracle, users: map<Uid, UserDoc>, sent: Outcome)
    requires st.step == 2 && |st.form.phoneNumber| >= MIN_PHONE_LENGTH
    ensures NextStepCorrected(st, user, o, users).dialled == Some(ResendCode(st, sent).1)
  {
  }

  /** The dialled number is '+', the country code, then the phone's digits in
      order: formatting an already clean number again changes nothing. */
  lemma DialledDigits(form: Form)
    requires forall i :: 0 <= i < |form.countryCode| ==> IsDigit(form.countryCode[i])
    ensures var n := DialledNumber(form);
      && (forall i :: 1 <= i < |n| ==> IsDigit(n[i]))
      && n[1..] == form.countryCode + StripNonDigits(form.phoneNumber)
      && DialledNumber(form.(phoneNumber := StripNonDigits(form.phoneNumber))) == n
  {
    StripNonDigitsKeepsDigits(StripNonDigits(form.phoneNumber));
    var n := DialledNumber(form);
    assert n == "+" + (form.countryCode + StripNonDigits(form.phoneNumber));
  }

  /** One second of the interval: in step 3 a running countdown drops by one,
      and resend turns on as it reaches zero. */
  function Tick(st: ProfileState): (r: ProfileState)
    ensures st.step == 3 && st.timer > 0 ==> r.timer == st.timer - 1
    ensures !(st.step == 3 && st.timer > 0) ==> r == st
    ensures r == st.(timer := r.timer, resendDisabled := r.resendDisabled)
    ensures r.resendDisabled != st.resendDisabled ==> r.timer == 0 && st.timer == 1 && !r.resendDisabled
  {
    if st.step == 3 && st.timer > 0 then
      var t := st.timer - 1;
      st.(timer := t, resendDisabled := if t == 0 then false else st.resendDisabled)
    else st
  }

  function Ticks(st: ProfileState, n: nat): ProfileState
    decreases n
  {
    if n == 0 then st else Ticks(Tick(st), n - 1)
  }

  /** After a code is sent, `n` seconds in step 3 leave `300 - n` on the
      clock (never less than 0), and resend turns on exactly when it hits 0. */
  lemma {:induction false} CountdownRuns(st: ProfileState, n: nat)
    requires st.step == 3 && st.resendDisabled && st.timer > 0
    ensures Ticks(st, n).timer == if n <= st.timer then st.timer - n else 0
    ensures Ticks(st, n).resendDisabled <==> n < st.timer
    ensures Ticks(st, n).step == 3
    decreases n
  {
    if n > 0 {
      if st.timer == 1 {
        ZeroTimerStays(Tick(st), n - 1);
      } else {
        CountdownRuns(Tick(st), n - 1);
      }
    }
  }

  /** At zero the clock stops. */
  lemma {:induction false} ZeroTimerStays(st: ProfileState, n: nat)
    requires st.timer == 0
    ensures Ticks(st, n) == st
    decreases n
  {
    if n > 0 {
      ZeroTimerStays(Tick(st), n - 1);
    }
  }

  /** `Math.floor(t / 60) + ':' + (t % 60).toString().padStart(2, '0')`. */
  function Countdown(t: nat): string {
    NatToString(t / 60) + ":" + PadStart2(NatToString(t % 60))
  }

  /** The display reads back: the digits before ':' give the minutes, and
      the two digits after it give the seconds. */
  lemma CountdownReadsBack(t: nat)
    ensures var c := Countdown(t);
      var k := |NatToString(t / 60)|;
      && |c| == k + 3 && c[k] == ':'
      && (forall i :: 0 <= i < |c| && i != k ==> IsDigit(c[i]))
      && DigitsValue(c[..k]) == t / 60
      && DigitsValue(c[k + 1..]) == t % 60
  {
    var m := NatToString(t / 60);
    var s := NatToString(t % 60);
    var p := PadStart2(s);
    var c := Countdown(t);
    var k := |m|;
    assert |s| <= 2 by {
      if t % 60 >= 10 {
        assert |NatToString(t % 60 / 10)| == 1;
      }
    }
    assert |p| == 2;
    assert c[..k] == m;
    assert c[k + 1..] == p;
    if |s| == 1 {
      assert p == "0" + s;
      assert p[..1] == "0";
      assert DigitsValue(p) == DigitsValue("0") * 10 + DigitValue(s[0]);
      assert DigitsValue(s) == DigitsValue(s[..0]) * 10 + DigitValue(s[0]);
    }
  }

  /** What the user can do on the page: the "Next" button (with the
      environment's answers), the back buttons, a second of the countdown,
      typing in a code slot, the name and phone inputs, and the verify and
      resend buttons. */
  datatype Press =
    | NextPress(o: NextOracle)
    | BackPress
    | Second
    | CodeInput(index: nat, value: string)
    | NameInput(name: string)
    | PhoneInput(phone: string, dialCode: string)
    | VerifyPress(vo: VerifyOracle)
    | ResendPress(sent: Outcome)

  /** The page and what it has done outside itself: the signed-in account
      as the page holds it, the `users` collection, the numbers dialled so
      far, and where it navigated to. */
  datatype Session = Session(st: ProfileState, account: AuthUser, users: map<Uid, UserDoc>, dialled: seq<string>, left: Option<string>)

  /** "Next" in step 1 or 2. A resolved `updateProfile` changes the account
      the page holds, as it changes `auth.currentUser`. */
  function PressNext(s: Session, o: NextOracle, corrected: bool): (t: Session)
    requires s.st.step == 1 || s.st.step == 2
    ensures t.account.uid == s.account.uid && t.left.None?
    ensures |s.dialled| <= |t.dialled| && t.dialled[..|s.dialled|] == s.dialled
  {
    var r := if corrected then NextStepCorrected(s.st, s.account, o, s.users) else NextStep(s.st, s.account, o, s.users);
    var account := if r.profile.Some? then UpdatedAccount(s.account, r.profile.value.photoURL) else s.account;
    Session(r.state, account, r.users, s.dialled + (if r.dialled.Some? then [r.dialled.value] else []), None)
  }

  /** One press, on the controls the current step renders: "Next" in steps 1
      and 2, the name input in step 1, the phone input in step 2, the code
      slots and "Verify" in step 3, and "Resend" in step 3 while enabled; a
      control that is not on screen (or disabled) does nothing. The back
      buttons and the countdown act through `Back` and `Tick`. `corrected`
      picks the corrected handlers. Once the page has navigated away
      nothing happens. */
  function Apply(s: Session, p: Press, corrected: bool): (t: Session)
    ensures s.left.Some? ==> t == s
    ensures t.account.uid == s.account.uid
    ensures |s.dialled| <= |t.dialled| && t.dialled[..|s.dialled|] == s.dialled
    ensures p.NextPress? && s.st.step != 1 && s.st.step != 2 ==> t == s
    ensures p.NameInput? && s.st.step != 1 ==> t == s
    ensures p.PhoneInput? && s.st.step != 2 ==> t == s
    ensures (p.CodeInput? || p.VerifyPress?) && s.st.step != 3 ==> t == s
    ensures p.ResendPress? && (s.st.step != 3 || s.st.resendDisabled) ==> t == s
    ensures t.left.Some? && s.left.None? ==> p.VerifyPress? && s.st.step == 3
  {
    if s.left.Some? then s
    else match p
      case NextPress(o) =>
        if s.st.step == 1 || s.st.step == 2 then PressNext(s, o, corrected) else s
      case BackPress => s.(st := Back(s.st))
      case Second => s.(st := Tick(s.st))
      case CodeInput(i, v) =>
        if s.st.step == 3 && i < |s.st.code| then s.(st := CodeChange(s.st, i, v)) else s
      case NameInput(n) =>
        if s.st.step == 1 then s.(st := s.st.(form := s.st.form.(displayName := n))) else s
      case PhoneInput(ph, cc) =>
        if s.st.step == 2 then s.(st := s.st.(form := s.st.form.(phoneNumber := ph, countryCode := cc))) else s
      case VerifyPress(vo) =>
        if s.st.step == 3 then
          var r := VerifyCode(s.st, s.account.uid, vo, s.users);
          Session(r.state, s.account, r.users, s.dialled, r.navigateTo)
        else s
      case ResendPress(sent) =>
        if s.st.step == 3 && !s.st.resendDisabled then
          if corrected then
            var r := ResendCode(s.st, sent);
            Session(r.0, s.account, s.users, s.dialled + [r.1], None)
          else s.(st := ResendCodeAsWritten(s.st))
        else s
  }

  /** A sequence of presses, in order: the account stays the same user, the
      numbers dialled only accumulate, and nothing happens after leaving. */
  function Run(s: Session, ps: seq<Press>, corrected: bool): (t: Session)
    ensures s.left.Some? ==> t == s
    ensures t.account.uid == s.account.uid
    ensures |s.dialled| <= |t.dialled| && t.dialled[..|s.dialled|] == s.dialled
    decreases |ps|
  {
    if |ps| == 0 then s
    else
      var next := Apply(s, ps[0], corrected);
      var t := Run(next, ps[1..], corrected);
      assert t.dialled[..|s.dialled|] == t.dialled[..|next.dialled|][..|s.dialled|];
      t
  }

  /** The page has not got past the phone number: step 1 or 2, no code sent,
      no number dialled, still on the page, and the user's document does not
      say the phone is verified. */
  predicate BeforeCode(s: Session) {
    && (s.st.step == 1 || s.st.step == 2)
    && !s.st.codeSent
    && s.dialled == []
    && s.left.None?
    && (s.account.uid in s.users ==> Field(s.users[s.account.uid], "phoneVerified") != Some(Flag(true)))
  }

  /** As written, "Next" does not get past the phone number. */
  lemma NextKeepsBeforeCode(s: Session, o: NextOracle)
    requires BeforeCode(s)
    ensures BeforeCode(Apply(s, NextPress(o), false))
  {
    var r := NextStep(s.st, s.account, o, s.users);
    var t := PressNext(s, o, false);
    assert Apply(s, NextPress(o), false) == t;
    assert t.users == r.users && t.st == r.state && t.dialled == [];
    if s.st.step == 1 && r.state.step == 2 {
      var q := SaveProfile(s.st, s.account, o, s.users, false);
      assert r == q;
      assert Field(q.users[s.account.uid], "phoneVerified") == Some(Flag(false));
    }
  }

  /** As written, no press gets past the phone number. */
  lemma PressKeepsBeforeCode(s: Session, p: Press)
    requires BeforeCode(s)
    ensures BeforeCode(Apply(s, p, false))
  {
    if p.NextPress? {
      NextKeepsBeforeCode(s, p.o);
    }
  }

  /** As written, whatever the user does on the page, from a state before
      the code step the page never reaches step 3, never dials a number,
      never leaves for the dashboard, and never marks the phone verified. */
  lemma {:induction false} RunKeepsBeforeCode(s: Session, ps: seq<Press>)
    requires BeforeCode(s)
    ensures BeforeCode(Run(s, ps, false))
    decreases |ps|
  {
    if |ps| > 0 {
      PressKeepsBeforeCode(s, ps[0]);
      RunKeepsBeforeCode(Apply(s, ps[0], false), ps[1..]);
    }
  }

  /** From the first render, the code step is unreachable as written. */
  lemma CodeStepUnreachable(displayName: Option<string>, photoURL: Option<string>, users: map<Uid, UserDoc>,
                            user: AuthUser, ps: seq<Press>)
    requires user.uid in users ==> Field(users[user.uid], "phoneVerified") != Some(Flag(true))
    ensures var s := Run(Session(Init(displayName, photoURL), user, users, [], None), ps, false);
      && s.st.step != 3
      && s.dialled == []
      && s.left.None?
      && (user.uid in s.users ==> Field(s.users[user.uid], "phoneVerified") != Some(Flag(true)))
  {
    RunKeepsBeforeCode(Session(Init(displayName, photoURL), user, users, [], None), ps);
  }

  lemma ApplyPhoneInput(s: Session, phone: string, dialCode: string, corrected: bool)
    requires s.left.None? && s.st.step == 2
    ensures Apply(s, PhoneInput(phone, dialCode), corrected)
      == s.(st := s.st.(form := s.st.form.(phoneNumber := phone, countryCode := dialCode)))
  {
  }

  /** Corrected, "Next" with a name and succeeding calls moves from step 1
      to step 2 and writes an unverified user document. */
  lemma NextFromStep1Corrected(s: Session, o: NextOracle)
    requires s.left.None? && s.st.step == 1 && !IsBlank(s.st.form.displayName)
    requires !PhotoFailed(o) && o.profileUpdated.Pass? && o.docWritten.Pass?
    ensures var t := Apply(s, NextPress(o), true);
      && t.left.None? && t.st.step == 2 && t.dialled == s.dialled && t.account.uid == s.account.uid
      && s.account.uid in t.users && Field(t.users[s.account.uid], "phoneVerified") == Some(Flag(false))
  {
    var r := SaveProfile(s.st, s.account, o, s.users, true);
    assert NextStepCorrected(s.st, s.account, o, s.users) == r;
    var t := PressNext(s, o, true);
    assert Apply(s, NextPress(o), true) == t;
    assert t.users == r.users && t.st == r.state && t.dialled == s.dialled;
  }

  /** Corrected, "Next" in step 2 with a long enough number and a sent SMS
      dials the form's number and moves to step 3 with a fresh countdown. */
  lemma NextFromStep2Corrected(s: Session, o: NextOracle)
    requires s.left.None? && s.st.step == 2 && |s.st.form.phoneNumber| >= MIN_PHONE_LENGTH && o.sent.Pass?
    ensures Apply(s, NextPress(o), true) ==
      Session(s.st.(step := 3, timer := CODE_SECONDS, resendDisabled := true, codeSent := true),
              s.account, s.users, s.dialled + [DialledNumber(s.st.form)], None)
  {
    var r := SendCode(s.st, o, s.users);
    assert NextStepCorrected(s.st, s.account, o, s.users) == r;
    assert Apply(s, NextPress(o), true) == PressNext(s, o, true);
  }

  lemma RunTwo(s: Session, p: Press, q: Press, corrected: bool)
    ensures Run(s, [p, q], corrected) == Apply(Apply(s, p, corrected), q, corrected)
  {
    var s1 := Apply(s, p, corrected);
    assert [p, q][1..] == [q];
    assert [q][1..] == [];
    assert Run(s1, [q], corrected) == Apply(s1, q, corrected);
  }

  lemma RunThree(s: Session, p: Press, q: Press, w: Press, corrected: bool)
    ensures Run(s, [p, q, w], corrected) == Apply(Apply(Apply(s, p, corrected), q, corrected), w, corrected)
  {
    assert [p, q, w][1..] == [q, w];
    RunTwo(Apply(s, p, corrected), q, w, corrected);
  }

  /** With the corrected handlers, a name, a phone number of 8 characters or
      more and answers that all succeed take the page from its first render
      to the code step in three presses, after exactly one SMS to the
      dialled number. */
  lemma CodeStepReachedCorrected(name: string, photoURL: Option<string>, users: map<Uid, UserDoc>, user: AuthUser,
                                 o: NextOracle, phone: string, dialCode: string)
    requires !IsBlank(name) && |phone| >= MIN_PHONE_LENGTH
    requires !PhotoFailed(o) && o.profileUpdated.Pass? && o.docWritten.Pass? && o.sent.Pass?
    ensures var s := Run(Session(Init(Some(name), photoURL), user, users, [], None),
                         [NextPress(o), PhoneInput(phone, dialCode), NextPress(o)], true);
      && s.st.step == 3 && s.st.codeSent && s.st.timer == CODE_SECONDS
      && s.dialled == [DialledNumber(s.st.form)]
      && s.st.form.phoneNumber == phone && s.st.form.countryCode == dialCode
      && user.uid in s.users && Field(s.users[user.uid], "phoneVerified") == Some(Flag(false))
  {
    var s0 := Session(Init(Some(name), photoURL), user, users, [], None);
    RunThree(s0, NextPress(o), PhoneInput(phone, dialCode), NextPress(o), true);
    var s1 := Apply(s0, NextPress(o), true);
    NextFromStep1Corrected(s0, o);
    var s2 := Apply(s1, PhoneInput(phone, dialCode), true);
    ApplyPhoneInput(s1, phone, dialCode, true);
    NextFromStep2Corrected(s2, o);
  }
}
