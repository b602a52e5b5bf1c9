/** The field validators of the sign-up form: the username must be new up to case, the
    college email must carry the college domain and be new up to case, and the two
    passwords, when both are given, must agree. Existing users are passed in as the
    sets of their usernames and of their college emails. */
module AccountsForms {
  import opened Wrappers
  import opened Text

  /** What a `clean_<field>` method produces: the value, or a `ValidationError`. */
  datatype Cleaned = Accepted(value: string) | Rejected(message: string)

  const UsernameTaken := "A user with this username already exists."
  const WrongDomain := "Please use your official @poornima.org college email."
  const EmailTaken := "This email address is already registered."
  const PasswordsDiffer := "Passwords do not match."
  const CollegeDomain := "@poornima.org"

  /** Some member of `existing` equals `s` up to case (`__iexact` lookup). */
  predicate TakenIgnoringCase(existing: set<string>, s: string) {
    exists u :: u in existing && EqualIgnoringCase(u, s)
  }

  /** `clean_username`. */
  function CleanUsername(usernames: set<string>, username: string): (r: Cleaned)
    ensures r.Rejected? <==> TakenIgnoringCase(usernames, username)
    ensures r.Rejected? ==> r.message == UsernameTaken
    ensures r.Accepted? ==> r.value == username && username !in usernames
  {
    if TakenIgnoringCase(usernames, username) then Rejected(UsernameTaken)
    else
      assert username in usernames ==> EqualIgnoringCase(username, username);
      Accepted(username)
  }

  /** `clean_college_email`: the domain (compared exactly) is checked before the
      registry (compared up to case). */
  function CleanCollegeEmail(emails: set<string>, email: string): (r: Cleaned)
    ensures r == Rejected(WrongDomain) <==> !EndsWith(email, CollegeDomain)
    ensures r == Rejected(EmailTaken) <==> EndsWith(email, CollegeDomain) && TakenIgnoringCase(emails, email)
    ensures r.Accepted? ==> r.value == email && email !in emails
  {
    if !EndsWith(email, CollegeDomain) then Rejected(WrongDomain)
    else if TakenIgnoringCase(emails, email) then Rejected(EmailTaken)
    else
      assert email in emails ==> EqualIgnoringCase(email, email);
      Accepted(email)
  }

  /** Python truthiness of an optional form value: present and non-empty. */
  predicate Given(v: Option<string>) {
    v.Some? && v.value != ""
  }

  /** `clean`: the error added to `confirm_password`, if any. */
  function PasswordError(password: Option<string>, confirm: Option<string>): (e: Option<string>)
    ensures e.Some? ==> e.value == PasswordsDiffer
  {
    if Given(password) && Given(confirm) && password.value != confirm.value then Some(PasswordsDiffer) else None
  }

  /** The mismatch error appears exactly when both passwords were given and differ; a
      missing or blank password never produces it. */
  lemma PasswordErrorExactly(password: Option<string>, confirm: Option<string>)
    ensures PasswordError(password, confirm).Some? <==>
              password.Some? && confirm.Some? && password.value != "" && confirm.value != ""
              && password.value != confirm.value
    ensures password == confirm ==> PasswordError(password, confirm).None?
  {
  }

  /** No two usernames (or emails) of the set are equal up to case. */
  ghost predicate DistinctIgnoringCase(s: set<string>) {
    forall a, b :: a in s && b in s && EqualIgnoringCase(a, b) ==> a == b
  }

  /** Registering an accepted username keeps the usernames distinct up to case. */
  lemma {:induction false} AcceptedUsernameKeepsDistinct(usernames: set<string>, username: string)
    requires DistinctIgnoringCase(usernames)
    requires CleanUsername(usernames, username).Accepted?
    ensures DistinctIgnoringCase(usernames + {username})
  {
    assert forall u :: u in usernames ==> !EqualIgnoringCase(u, username);
  }

  /** Registering an accepted email keeps the emails distinct up to case, and the
      accepted email carries the college domain. */
  lemma {:induction false} AcceptedEmailKeepsDistinct(emails: set<string>, email: string)
    requires DistinctIgnoringCase(emails)
    requires CleanCollegeEmail(emails, email).Accepted?
    ensures DistinctIgnoringCase(emails + {email})
    ensures EndsWith(email, CollegeDomain)
  {
    assert forall u :: u in emails ==> !EqualIgnoringCase(u, email);
  }

  /** A submission is refused over case alone: a username differing from a taken one
      only in case is rejected. */
  lemma UsernameCaseVariantRejected(usernames: set<string>, taken: string, username: string)
    requires taken in usernames && Lower(taken) == Lower(username)
    ensures CleanUsername(usernames, username) == Rejected(UsernameTaken)
  {
  }
}
