/** The account views: sign-up checks, the one-time-password store written by
    `login_access` and consumed by `verify_otp`, the onboarding questionnaire, and the
    `to_list` helper of the answers page.

    The user table is keyed by `college_email` (unique on the model). The random OTP is
    an input (`draw`) in the range `random.randint(100000, 999999)` produces; the email
    carrying it is outside the model. */
module AccountsViews {
  import opened Wrappers
  import opened Text
  import opened AccountsModels
  import opened AccountsForms
  import opened Compatibility

  /** The fields of a user row these views read or write. */
  datatype UserRow = UserRow(username: string, otpVerified: bool, answeredQuestionnaire: bool)

  /** Users by college email. */
  type Users = map<string, UserRow>

  // ---------------------------------------------------------------------------
  // signup_access
  // ---------------------------------------------------------------------------

  /** The posted sign-up fields the checks read. */
  datatype SignupForm = SignupForm(email: Option<string>, username: string, password: string, confirmPassword: string)

  datatype SignupReply =
    | SignupPage                       // not a POST: the form is rendered
    | SignupRejected(message: string)  // redirect back with an error message
    | SignupAttributeError             // no `college_email` field: `None.endswith` raises
    | SignupCreateFailed               // `create_user` raised: a server error
    | AccountCreated

  const UseCollegeEmail := "Use only your college email (@poornima.org)."
  const UsernameAlreadyTaken := "Username already taken."
  const EmailAlreadyRegistered := "Email already registered."
  const PasswordsDoNotMatch := "Passwords do not match."

  predicate UsernameInUse(users: Users, username: string) {
    exists e :: e in users && users[e].username == username
  }

  /** `signup_access`: the domain, then the username (exact), then the email (exact),
      then the two passwords; a user is created only when all four pass and
      `create_user` succeeds. `create_user` raises for an empty username; `createOk`
      says whether the remaining fields (`dob`, `college`, ...) make a row the database
      accepts. A raised exception is a server error and creates nobody. */
  function SignupRequest(users: Users, isPost: bool, form: SignupForm, createOk: bool): (SignupReply, Users) {
    if !isPost then (SignupPage, users)
    else if form.email.None? then (SignupAttributeError, users)
    else if !EndsWith(form.email.value, CollegeDomain) then (SignupRejected(UseCollegeEmail), users)
    else if UsernameInUse(users, form.username) then (SignupRejected(UsernameAlreadyTaken), users)
    else if form.email.value in users then (SignupRejected(EmailAlreadyRegistered), users)
    else if form.password != form.confirmPassword then (SignupRejected(PasswordsDoNotMatch), users)
    else if form.username == "" || !createOk then (SignupCreateFailed, users)
    else (AccountCreated, users[form.email.value := UserRow(form.username, false, false)])
  }

  /** The outcome of a posted sign-up, check by check: each failure names the first
      check that failed and creates nobody; success adds exactly one fresh row. */
  lemma {:induction false} SignupOutcome(users: Users, form: SignupForm, createOk: bool)
    requires form.email.Some?
    ensures var (reply, users') := SignupRequest(users, true, form, createOk);
      && (reply == SignupRejected(UseCollegeEmail) <==> !EndsWith(form.email.value, CollegeDomain))
      && (reply == SignupRejected(UsernameAlreadyTaken) <==>
            EndsWith(form.email.value, CollegeDomain) && UsernameInUse(users, form.username))
      && (reply == SignupRejected(EmailAlreadyRegistered) <==>
            EndsWith(form.email.value, CollegeDomain) && !UsernameInUse(users, form.username)
            && form.email.value in users)
      && (reply == SignupRejected(PasswordsDoNotMatch) <==>
            EndsWith(form.email.value, CollegeDomain) && !UsernameInUse(users, form.username)
            && form.email.value !in users && form.password != form.confirmPassword)
      && (reply == AccountCreated <==>
            EndsWith(form.email.value, CollegeDomain) && !UsernameInUse(users, form.username)
            && form.email.value !in users && form.password == form.confirmPassword
            && form.username != "" && createOk)
      && (reply != AccountCreated ==> users' == users)
      && (reply == AccountCreated ==>
            form.email.value !in users && users'.Keys == users.Keys + {form.email.value}
            && users'[form.email.value] == UserRow(form.username, false, false)
            && forall e :: e in users ==> users'[e] == users[e])
  {
  }

  /** No two users share a username. */
  ghost predicate UsernamesUnique(users: Users) {
    forall e1, e2 :: e1 in users && e2 in users && users[e1].username == users[e2].username ==> e1 == e2
  }

  /** Every registered email carries the college domain. */
  ghost predicate CollegeEmailsOnly(users: Users) {
    forall e :: e in users ==> EndsWith(e, CollegeDomain)
  }

  /** Sign-up keeps usernames unique and emails on the college domain. */
  lemma {:induction false} SignupKeepsUsersValid(users: Users, isPost: bool, form: SignupForm, createOk: bool)
    requires UsernamesUnique(users) && CollegeEmailsOnly(users)
    ensures UsernamesUnique(SignupRequest(users, isPost, form, createOk).1)
    ensures CollegeEmailsOnly(SignupRequest(users, isPost, form, createOk).1)
  {
    if SignupRequest(users, isPost, form, createOk).0 == AccountCreated {
      assert forall e :: e in users ==> users[e].username != form.username;
    }
  }

  /** The usernames and emails of a user table, as the form validators see them. */
  function Usernames(users: Users): (s: set<string>)
    ensures forall e :: e in users ==> users[e].username in s
  {
    set e | e in users :: users[e].username
  }

  /** A submission the form's validators accept passes every check of the view: the
      form compares up to case, so it is at least as strict as the view's exact lookups.
      The account is then created unless `create_user` fails. */
  lemma {:induction false} FormAcceptancePassesView(users: Users, form: SignupForm, createOk: bool)
    requires form.email.Some?
    requires CleanUsername(Usernames(users), form.username).Accepted?
    requires CleanCollegeEmail(users.Keys, form.email.value).Accepted?
    requires PasswordError(Some(form.password), Some(form.confirmPassword)).None?
    requires form.password != "" && form.confirmPassword != ""
    ensures SignupRequest(users, true, form, createOk).0
            == if form.username != "" && createOk then AccountCreated else SignupCreateFailed
  {
    assert forall e :: e in users ==> users[e].username != form.username;
  }

  // ---------------------------------------------------------------------------
  // login_access / verify_otp
  // ---------------------------------------------------------------------------

  /** `random.randint(100000, 999999)`. */
  predicate OtpDraw(draw: int) {
    100000 <= draw <= 999999
  }

  /** `str(draw)`: six decimal digits that read back as the draw. */
  lemma {:induction false} OtpIsSixDigits(draw: int)
    requires OtpDraw(draw)
    ensures |DecimalString(draw)| == 6 && DecimalValue(DecimalString(draw)) == draw
  {
    assert Pow10(5) == 100000 && Pow10(6) == 1000000;
    DecimalLength(draw, 6);
    DecimalRoundTrip(draw);
  }

  datatype LoginReply = LoginPage | OtpSent(email: string) | EmailNotFound

  /** `login_access`: a registered email gets a fresh OTP, replacing any earlier one;
      anything else leaves the store as it was. */
  function LoginRequest(users: Users, store: map<string, string>, isPost: bool, email: Option<string>, draw: int): (LoginReply, map<string, string>)
    requires OtpDraw(draw)
  {
    if !isPost then (LoginPage, store)
    else if email.Some? && email.value in users then (OtpSent(email.value), store[email.value := DecimalString(draw)])
    else (EmailNotFound, store)
  }

  lemma {:induction false} LoginOutcome(users: Users, store: map<string, string>, email: Option<string>, draw: int)
    requires OtpDraw(draw)
    ensures var (reply, store') := LoginRequest(users, store, true, email, draw);
      && (reply.OtpSent? <==> email.Some? && email.value in users)
      && (reply.OtpSent? ==>
            && store'.Keys == store.Keys + {email.value}
            && |store'[email.value]| == 6 && DecimalValue(store'[email.value]) == draw
            && (forall e :: e in store && e != email.value ==> store'[e] == store[e]))
      && (!reply.OtpSent? ==> store' == store)
  {
    OtpIsSixDigits(draw);
  }

  datatype VerifyReply =
    | VerifyRedirect              // not a POST
    | LoggedIn(email: string, toFeed: bool)
    | LookupFailed                // "An unexpected error occurred."
    | InvalidOtp

  /** `otp_store.get(email)`. */
  function Stored(store: map<string, string>, email: Option<string>): Option<string> {
    if email.Some? && email.value in store then Some(store[email.value]) else None
  }

  /** The test `verify_otp` performs: the two optional values are equal. */
  predicate OtpMatchesAsWritten(store: map<string, string>, email: Option<string>, otp: Option<string>) {
    Stored(store, email) == otp
  }

  /** The intended test: an OTP is stored for the email and the submitted one equals it. */
  predicate OtpMatches(store: map<string, string>, email: Option<string>, otp: Option<string>) {
    Stored(store, email).Some? && Stored(store, email) == otp
  }

  /** What follows the test: the user is looked up by email, marked verified and logged
      in, and the OTP is removed; a failed lookup or a failed test changes nothing. */
  function VerifyAfterTest(users: Users, store: map<string, string>, isPost: bool, email: Option<string>, matched: bool): (VerifyReply, Users, map<string, string>) {
    if !isPost then (VerifyRedirect, users, store)
    else if !matched then (InvalidOtp, users, store)
    else if email.Some? && email.value in users then
      var row := users[email.value];
      (LoggedIn(email.value, row.answeredQuestionnaire), users[email.value := row.(otpVerified := true)], store - {email.value})
    else (LookupFailed, users, store)
  }

  /** `verify_otp` as written. */
  function VerifyOtpAsWritten(users: Users, store: map<string, string>, isPost: bool, email: Option<string>, otp: Option<string>): (VerifyReply, Users, map<string, string>) {
    VerifyAfterTest(users, store, isPost, email, OtpMatchesAsWritten(store, email, otp))
  }

  /** `verify_otp` with the intended test; this is the one the store uses. */
  function VerifyOtpRequest(users: Users, store: map<string, string>, isPost: bool, email: Option<string>, otp: Option<string>): (VerifyReply, Users, map<string, string>) {
    VerifyAfterTest(users, store, isPost, email, OtpMatches(store, email, otp))
  }

  /** As written, a registered user with no pending OTP (never requested, or already
      used) is logged in by a post that carries the email and no `otp` field: both
      sides of the comparison are `None`. */
  lemma LoginWithoutOtpAsWritten(users: Users, store: map<string, string>, email: string)
    requires email in users && email !in store
    ensures VerifyOtpAsWritten(users, store, true, Some(email), None).0.LoggedIn?
  {
  }

  /** With the intended test a login needs the stored OTP itself; it then marks the
      user verified and removes the OTP, and any failure leaves everything unchanged. */
  lemma {:induction false} VerifyOtpOutcome(users: Users, store: map<string, string>, email: Option<string>, otp: Option<string>)
    ensures var (reply, users', store') := VerifyOtpRequest(users, store, true, email, otp);
      && (reply.LoggedIn? <==>
            email.Some? && email.value in users && email.value in store && otp == Some(store[email.value]))
      && (reply.LoggedIn? ==>
            reply.email == email.value && reply.toFeed == users[email.value].answeredQuestionnaire
            && users' == users[email.value := users[email.value].(otpVerified := true)]
            && store' == store - {email.value} && email.value !in store')
      && (!reply.LoggedIn? ==> users' == users && store' == store)
  {
  }

  class OtpStore {
    /** `otp_store`: email -> OTP text. */
    var entries: map<string, string>

    constructor ()
      ensures entries == map[]
    {
      entries := map[];
    }

    method LoginAccess(users: Users, isPost: bool, email: Option<string>, draw: int) returns (reply: LoginReply)
      requires OtpDraw(draw)
      modifies this
      ensures (reply, entries) == LoginRequest(users, old(entries), isPost, email, draw)
    {
      reply := LoginPage;
      if isPost {
        if email.Some? && email.value in users {
          entries := entries[email.value := DecimalString(draw)];
          reply := OtpSent(email.value);
        } else {
          reply := EmailNotFound;
        }
      }
    }

    method VerifyOtp(users: UserTable, isPost: bool, email: Option<string>, otp: Option<string>) returns (reply: VerifyReply)
      modifies this, users
      ensures (reply, users.users, entries) == VerifyOtpRequest(old(users.users), old(entries), isPost, email, otp)
    {
      if !isPost {
        return VerifyRedirect;
      }
      if !(Stored(entries, email).Some? && Stored(entries, email) == otp) {
        return InvalidOtp;
      }
      if email.Some? && email.value in users.users {
        var row := users.users[email.value];
        users.MarkVerified(email.value);
        entries := entries - {email.value};
        reply := LoggedIn(email.value, row.answeredQuestionnaire);
      } else {
        reply := LookupFailed;
      }
    }
  }

  class UserTable {
    var users: Users

    constructor (users: Users)
      ensures this.users == users
    {
      this.users := users;
    }

    method SignupAccess(isPost: bool, form: SignupForm, createOk: bool) returns (reply: SignupReply)
      modifies this
      ensures (reply, users) == SignupRequest(old(users), isPost, form, createOk)
    {
      if !isPost {
        return SignupPage;
      }
      if form.email.None? {
        return SignupAttributeError;
      }
      var email := form.email.value;
      if !EndsWith(email, CollegeDomain) {
        return SignupRejected(UseCollegeEmail);
      }
      if UsernameInUse(users, form.username) {
        return SignupRejected(UsernameAlreadyTaken);
      }
      if email in users {
        return SignupRejected(EmailAlreadyRegistered);
      }
      if form.password != form.confirmPassword {
        return SignupRejected(PasswordsDoNotMatch);
      }
      if form.username == "" || !createOk {
        return SignupCreateFailed;
      }
      users := users[email := UserRow(form.username, false, false)];
      reply := AccountCreated;
    }

    /** `user.otp_verified = True; user.save()`. */
    method MarkVerified(email: string)
      requires email in users
      modifies this
      ensures users == old(users)[email := old(users)[email].(otpVerified := true)]
    {
      users := users[email := users[email].(otpVerified := true)];
    }
  }

  /** The OTP is one-time: the OTP sent by a login logs the user in once, and the
      same OTP submitted again is refused. */
  lemma {:induction false} OtpIsSingleUse(users: Users, store: map<string, string>, email: string, draw: int)
    requires OtpDraw(draw) && email in users
    ensures var (_, store1) := LoginRequest(users, store, true, Some(email), draw);
      var (first, users2, store2) := VerifyOtpRequest(users, store1, true, Some(email), Some(DecimalString(draw)));
      && first.LoggedIn? && users2[email].otpVerified
      && VerifyOtpRequest(users2, store2, true, Some(email), Some(DecimalString(draw))).0 == InvalidOtp
  {
    var (_, store1) := LoginRequest(users, store, true, Some(email), draw);
    VerifyOtpOutcome(users, store1, Some(email), Some(DecimalString(draw)));
    var (first, users2, store2) := VerifyOtpRequest(users, store1, true, Some(email), Some(DecimalString(draw)));
    VerifyOtpOutcome(users2, store2, Some(email), Some(DecimalString(draw)));
  }

  // ---------------------------------------------------------------------------
  // questionnaire_view
  // ---------------------------------------------------------------------------

  /** The posted questionnaire fields (`data.get(...)`) and the checked hobbies
      (`data.getlist('hobbies_interests')`). */
  datatype QuestionnaireForm = QuestionnaireForm(
    personality: Option<string>, communicationStyle: Option<string>, year: Option<string>,
    relationshipStatus: Option<string>, lookingFor: Option<string>, hobbies: seq<string>)

  datatype QuestionnaireReply =
    | AlreadyAnswered
    | QuestionnairePage
    | MissingFields(fields: seq<string>)
    | TooManyHobbies
    | QuestionnaireSaved

  /** The names of the required fields that are missing or blank, in the order
      `required_fields` lists them. */
  function MissingRequired(form: QuestionnaireForm): (names: seq<string>)
    ensures |names| <= 5
    ensures names == [] <==>
              Given(form.personality) && Given(form.communicationStyle) && Given(form.year)
              && Given(form.relationshipStatus) && Given(form.lookingFor)
  {
    (if Given(form.personality) then [] else ["personality"])
    + (if Given(form.communicationStyle) then [] else ["communication_style"])
    + (if Given(form.year) then [] else ["year"])
    + (if Given(form.relationshipStatus) then [] else ["relationship_status"])
    + (if Given(form.lookingFor) then [] else ["looking_for"])
  }

  /** The questionnaire tables: the answer rows, the users whose Profile records the
      questionnaire as answered (the flag the view checks), and the users whose User
      row records it (the flag `verify_otp` reads). */
  datatype QuestionnaireState = QuestionnaireState(rows: map<UserId, Questionnaire>, answered: set<UserId>,
                                                   userAnswered: set<UserId>)

  /** `questionnaire_view` for `user`. The blank row made by `get_or_create` is saved
      before the hobby count is checked, so a refused submission can leave it behind. */
  function QuestionnaireRequest(s: QuestionnaireState, user: UserId, isPost: bool, form: QuestionnaireForm): (QuestionnaireReply, QuestionnaireState) {
    if user in s.answered then (AlreadyAnswered, s)
    else if !isPost then (QuestionnairePage, s)
    else if MissingRequired(form) != [] then (MissingFields(MissingRequired(form)), s)
    else
      var rows := if user in s.rows then s.rows else s.rows[user := BlankQuestionnaire()];
      if |form.hobbies| > 5 then (TooManyHobbies, s.(rows := rows))
      else
        var q := Questionnaire(form.personality.value, form.communicationStyle.value, Join(form.hobbies, ','),
                               form.year.value, form.relationshipStatus.value, form.lookingFor.value);
        (QuestionnaireSaved, QuestionnaireState(rows[user := q], s.answered + {user}, s.userAnswered + {user}))
  }

  /** Submitting the questionnaire: it is accepted only once, only with every required
      field and at most five hobbies, and then stores the answers as given, with the
      hobbies joined by ',', and sets both the Profile's and the User's flag; a refused
      submission records no answers and sets neither flag. */
  lemma {:induction false} QuestionnaireOutcome(s: QuestionnaireState, user: UserId, form: QuestionnaireForm)
    ensures var (reply, s') := QuestionnaireRequest(s, user, true, form);
      && (reply == QuestionnaireSaved <==>
            user !in s.answered && MissingRequired(form) == [] && |form.hobbies| <= 5)
      && (reply == QuestionnaireSaved ==>
            s'.answered == s.answered + {user} && s'.userAnswered == s.userAnswered + {user}
            && user in s'.rows
            && s'.rows[user].personality == form.personality.value
            && s'.rows[user].communicationStyle == form.communicationStyle.value
            && s'.rows[user].year == form.year.value
            && s'.rows[user].relationshipStatus == form.relationshipStatus.value
            && s'.rows[user].lookingFor == form.lookingFor.value
            && s'.rows[user].hobbiesInterests == Join(form.hobbies, ','))
      && (reply != QuestionnaireSaved ==> s'.answered == s.answered && s'.userAnswered == s.userAnswered)
      && (reply == TooManyHobbies ==>
            s'.rows.Keys == s.rows.Keys + {user}
            && (user in s.rows ==> s'.rows == s.rows)
            && (user !in s.rows ==> s'.rows[user] == BlankQuestionnaire()))
      && (reply != QuestionnaireSaved && reply != TooManyHobbies ==> s' == s)
      && (forall u :: u != user ==> (u in s'.rows <==> u in s.rows) && (u in s.rows ==> s'.rows[u] == s.rows[u]))
  {
  }

  /** Once saved, the user has a score against anyone else who answered, and the
      hobbies the score compares are exactly the ones chosen (hobby names contain no
      ','). */
  lemma {:induction false} SavedQuestionnaireScores(s: QuestionnaireState, user: UserId, form: QuestionnaireForm, other: UserId)
    requires QuestionnaireRequest(s, user, true, form).0 == QuestionnaireSaved
    requires other in s.rows
    requires form.hobbies != [] && Join(form.hobbies, ',') != ""
    requires forall k :: 0 <= k < |form.hobbies| ==> ',' !in form.hobbies[k]
    ensures var s' := QuestionnaireRequest(s, user, true, form).1;
      && CalculateCompatibility(s'.rows, user, other).Some?
      && HobbySet(s'.rows[user].hobbiesInterests) == set h | h in form.hobbies
  {
    QuestionnaireOutcome(s, user, form);
    HobbySetOfSavedAnswer(form.hobbies);
  }

  class QuestionnaireTables {
    var rows: map<UserId, Questionnaire>
    var answered: set<UserId>
    var userAnswered: set<UserId>

    constructor (s: QuestionnaireState)
      ensures Snapshot() == s
    {
      rows := s.rows;
      answered := s.answered;
      userAnswered := s.userAnswered;
    }

    function Snapshot(): QuestionnaireState
      reads this
    {
      QuestionnaireState(rows, answered, userAnswered)
    }

    method QuestionnaireView(user: UserId, isPost: bool, form: QuestionnaireForm) returns (reply: QuestionnaireReply)
      modifies this
      ensures (reply, Snapshot()) == QuestionnaireRequest(old(Snapshot()), user, isPost, form)
    {
      if user in answered {
        return AlreadyAnswered;
      }
      if !isPost {
        return QuestionnairePage;
      }
      var missing := MissingRequired(form);
      if missing != [] {
        return MissingFields(missing);
      }
      if user !in rows {
        rows := rows[user := BlankQuestionnaire()];
      }
      if |form.hobbies| > 5 {
        return TooManyHobbies;
      }
      rows := rows[user := Questionnaire(form.personality.value, form.communicationStyle.value, Join(form.hobbies, ','),
                                         form.year.value, form.relationshipStatus.value, form.lookingFor.value)];
      answered := answered + {user};
      userAnswered := userAnswered + {user};
      reply := QuestionnaireSaved;
    }
  }

  // ---------------------------------------------------------------------------
  // answers_view: to_list
  // ---------------------------------------------------------------------------

  /** `to_list`: no items for a blank value, otherwise the ','-separated pieces, each
      stripped of surrounding whitespace. */
  function ToList(v: string): (items: seq<string>)
    ensures v == "" <==> items == []
  {
    if v == "" then []
    else
      var pieces := Split(v, ',');
      seq(|pieces|, k requires 0 <= k < |pieces| => Strip(pieces[k]))
  }

  /** Every item is stripped and free of ','; there is one per piece of the split. */
  lemma {:induction false} ToListItems(v: string)
    requires v != ""
    ensures |ToList(v)| == |Split(v, ',')|
    ensures forall k :: 0 <= k < |ToList(v)| ==> ',' !in ToList(v)[k] && Strip(ToList(v)[k]) == ToList(v)[k]
  {
    var pieces := Split(v, ',');
    forall k | 0 <= k < |pieces| ensures ',' !in Strip(pieces[k]) && Strip(Strip(pieces[k])) == Strip(pieces[k]) {
      StrippedPiece(pieces[k]);
    }
  }

  lemma StrippedPiece(p: string)
    requires ',' !in p
    ensures ',' !in Strip(p) && Strip(Strip(p)) == Strip(p)
  {
    StripUnpadded(Strip(p));
    StripKeepsAbsent(p, ',');
  }

  /** `to_list` undoes the ','-join that `questionnaire_view` saves, for hobbies that
      contain no ',' and no surrounding whitespace. The answers page applies it to
      `questionnaire.hobbies`, a field the questionnaire record does not declare, so
      that page fails before `to_list` runs. */
  lemma {:induction false} ToListOfSavedHobbies(hobbies: seq<string>)
    requires hobbies != [] && Join(hobbies, ',') != ""
    requires forall k :: 0 <= k < |hobbies| ==> ',' !in hobbies[k]
    requires forall k :: 0 <= k < |hobbies| ==> hobbies[k] == [] || (!IsWhitespace(hobbies[k][0]) && !IsWhitespace(hobbies[k][|hobbies[k]| - 1]))
    ensures ToList(Join(hobbies, ',')) == hobbies
  {
    SplitJoin(hobbies, ',');
    forall k | 0 <= k < |hobbies| ensures Strip(hobbies[k]) == hobbies[k] {
      StripUnpadded(hobbies[k]);
    }
  }
}
