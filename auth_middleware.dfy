/** The sign-in, sign-up and token checks (middlewares/auth.middleware.js). */
module AuthMiddleware {
  import opened Wrappers
  import opened Js
  import opened Http
  import opened Models
  import opened Util

  /** `validateSigninRequest`: email and password must both be truthy. */
  function ValidateSigninRequest(email: Value, password: Value): (r: Verdict)
    ensures r == Next <==> email !in Falsy && password !in Falsy
    ensures r != Next ==> r == Reject(400, MissingFields)
  {
    if !Truthy(email) || !Truthy(password) then Reject(400, MissingFields) else Next
  }

  /** The sign-up request-body fields, as JSON values. */
  datatype SignupBody = SignupBody(name: Value, email: Value, password: Value, userId: Value)

  predicate AllPresent(body: SignupBody) {
    body.name !in Falsy && body.email !in Falsy && body.password !in Falsy && body.userId !in Falsy
  }

  /** The lookup `User.findOne({ email })` finds a user. Mongoose casts a string, number or
      boolean query value to a string; an object value is looked up by its `String(...)`
      text here, which is not what Mongoose does with it. */
  predicate Registered(users: map<Id, Account>, body: SignupBody) {
    EmailTaken(users, ToString(body.email))
  }

  /** `validateSignupRequest`: presence of the four fields, then the email lookup, then the
      email format, then the password format. */
  function ValidateSignupRequest(users: map<Id, Account>, body: SignupBody): (r: Verdict)
    ensures !AllPresent(body) ==> r == Reject(400, MissingFields)
    ensures AllPresent(body) && Registered(users, body) ==> r == Reject(400, EmailExists)
    ensures AllPresent(body) && !Registered(users, body) && !ValidateEmail(body.email) ==>
      r == Reject(400, InvalidEmail)
    ensures AllPresent(body) && !Registered(users, body) && ValidateEmail(body.email) && !ValidatePassword(body.password) ==>
      r == Reject(400, InvalidPassword)
    ensures r == Next <==>
      (AllPresent(body) && !Registered(users, body) && ValidateEmail(body.email) && ValidatePassword(body.password))
  {
    if !Truthy(body.name) || !Truthy(body.email) || !Truthy(body.password) || !Truthy(body.userId) then
      Reject(400, MissingFields)
    else if Registered(users, body) then Reject(400, EmailExists)
    else if !ValidateEmail(body.email) then Reject(400, InvalidEmail)
    else if !ValidatePassword(body.password) then Reject(400, InvalidPassword)
    else Next
  }

  /** The set of registered emails. */
  function Emails(users: map<Id, Account>): set<string> {
    set u | u in users :: users[u].email
  }

  /** Sign-up checks see the user table only through its set of emails: two tables with the
      same emails give the same verdict, whatever userIds they hold. */
  lemma SignupSeesOnlyEmails(users: map<Id, Account>, others: map<Id, Account>, body: SignupBody)
    requires Emails(users) == Emails(others)
    ensures ValidateSignupRequest(users, body) == ValidateSignupRequest(others, body)
  {
    var e := ToString(body.email);
    assert EmailTaken(users, e) <==> e in Emails(users);
    assert EmailTaken(others, e) <==> e in Emails(others);
  }

  /** The presence checks do not trim: fields made only of spaces get past them. */
  lemma BlankSignupFieldsArePresent(users: map<Id, Account>, n: nat)
    requires n > 0
    ensures var blank := Str(seq(n, _ => ' '));
      ValidateSignupRequest(users, SignupBody(blank, blank, blank, blank)) != Reject(400, MissingFields)
  {
    var blank := Str(seq(n, _ => ' '));
    assert blank.s[0] == ' ';
  }

  /** What `verifyToken` does with the `x-access-token` header before the signature check. */
  datatype TokenCheck = Refused(code: nat, reason: Reason) | CheckSignature(token: string)

  /** `verifyToken` up to the JWT check: a missing or empty header is refused with 401 and
      `next` is not reached. */
  function VerifyToken(header: Option<string>): (r: TokenCheck)
    ensures r.Refused? <==> header.None? || header.value == ""
    ensures r.Refused? ==> r == Refused(401, NoToken)
    ensures r.CheckSignature? ==> r.token == header.value
  {
    match header
    case None => Refused(401, NoToken)
    case Some(t) => if t == "" then Refused(401, NoToken) else CheckSignature(t)
  }
}
