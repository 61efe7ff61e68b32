/** The sign-up and password-reset flows (routes/auth.js): one-time codes issued by mail,
    checked against the stored code and its expiry, and consumed on success.

    Each handler is a method on the users collection, tied to a pure function of the old
    collection that gives the reply and the new collection. The random draw, the clock,
    the bcrypt hash and the mail outcome are parameters. */
module AuthRoutes {

  import opened Wrappers
  import opened JsValues
  import Strings
  import opened UserModel

  /** Ten minutes, in milliseconds. */
  const OTP_TTL := 10 * 60 * 1000

  const ALREADY_EXISTS := "User already exists. Please login."
  const MAIL_FAILED := "Failed to send OTP email. Please try again."
  const SIGNUP_OTP_SENT := "OTP sent successfully to your email."
  const RESET_OTP_SENT := "OTP sent successfully"
  const ACCOUNT_CREATED := "Account created successfully!"
  const OTP_VERIFIED := "OTP verified"
  const PASSWORD_RESET := "Password reset successful"
  const USER_NOT_FOUND := "User not found"
  const SERVER_ERROR := "Server error"

  /** The payload of the signed session token: the user's id and admin flag. */
  datatype Session = Session(id: Id, isAdmin: bool)

  /** A reply: status, `msg`, and the session a token was signed for. */
  datatype Reply = Reply(status: int, msg: string, session: Option<Session>)

  /** The code for a draw of `Math.floor(100000 + Math.random() * 900000)`. */
  function OtpText(draw: nat): string {
    Strings.NatToString(draw)
  }

  /** Every code is six decimal digits. */
  lemma OtpIsSixDigits(draw: nat)
    requires 100000 <= draw <= 999999
    ensures |OtpText(draw)| == 6
    ensures forall k :: 0 <= k < 6 ==> Strings.IsDigit(OtpText(draw)[k])
  {
    Strings.NatToStringLength(draw, 5);
  }

  /** `user.otp !== otp` is false: strict equality, so a cleared code (`null`) matches only
      a request that sends `null`. */
  predicate OtpMatches(stored: Option<string>, given: Json) {
    match stored
    case None => given == Null
    case Some(s) => given == Str(s)
  }

  /** `new Date() > user.otpExpiry`: a cleared expiry compares as 0. */
  predicate OtpExpired(expiry: Option<Time>, now: Time) {
    now > expiry.GetOr(0)
  }

  datatype OtpFailure = NoUser | WrongOtp | Expired

  /** The three checks shared by verify-signup, forgot/verify and forgot/reset, in their
      order: a user with the email, the code, the expiry. */
  function CheckOtp(rows: seq<User>, email: string, otp: Json, now: Time): (r: Result<nat, OtpFailure>)
    ensures r.Ok? ==> r.value < |rows| && rows[r.value].email == email
    ensures r.Ok? <==>
      (FindByEmail(rows, email).Some? &&
       OtpMatches(rows[FindByEmail(rows, email).value].otp, otp) &&
       !OtpExpired(rows[FindByEmail(rows, email).value].otpExpiry, now))
  {
    match FindByEmail(rows, email)
    case None => Err(NoUser)
    case Some(i) =>
      if !OtpMatches(rows[i].otp, otp) then Err(WrongOtp)
      else if OtpExpired(rows[i].otpExpiry, now) then Err(Expired)
      else Ok(i)
  }

  function SignupFailureMsg(f: OtpFailure): string {
    match f
    case NoUser => "No signup request found for this email."
    case WrongOtp => "Invalid OTP. Please try again."
    case Expired => "OTP has expired. Please request a new one."
  }

  function ResetFailureMsg(f: OtpFailure): string {
    match f
    case NoUser => USER_NOT_FOUND
    case WrongOtp => "Invalid OTP"
    case Expired => "OTP has expired"
  }

  /** A code is accepted up to and including its expiry instant. */
  lemma AcceptedAtExpiry(rows: seq<User>, email: string, code: string, expiry: Time)
    requires FindByEmail(rows, email).Some?
    requires rows[FindByEmail(rows, email).value].otp == Some(code)
    requires rows[FindByEmail(rows, email).value].otpExpiry == Some(expiry)
    ensures CheckOtp(rows, email, Str(code), expiry).Ok?
    ensures CheckOtp(rows, email, Str(code), expiry + 1) == Err(Expired)
  {
  }

  /** The reply once the code is stored: 200, or 500 when the mail could not be sent. */
  function MailReply(mailOk: bool, sent: string): Reply {
    if mailOk then Reply(200, sent, None) else Reply(500, MAIL_FAILED, None)
  }

  // ---------------------------------------------------------------------------------
  // Specifications

  /** POST /send-otp. */
  function SendOtpSpec(rows: seq<User>, email: string, draw: nat, now: Time, freshId: Id, mailOk: bool)
    : (Reply, seq<User>)
  {
    var otp, expiry := OtpText(draw), now + OTP_TTL;
    match FindByEmail(rows, email)
    case Some(i) =>
      if rows[i].isVerified then (Reply(400, ALREADY_EXISTS, None), rows)
      else
        var u := rows[i].(otp := Some(otp), otpExpiry := Some(expiry));
        if !SchemaValid(u) then (Reply(500, SERVER_ERROR, None), rows)
        else (MailReply(mailOk, SIGNUP_OTP_SENT), rows[i := u])
    case None =>
      var u := NewUser(freshId, "Pending", email, "pending", Some(otp), Some(expiry), Some(false), None, now);
      if !SchemaValid(u) then (Reply(500, SERVER_ERROR, None), rows)
      else (MailReply(mailOk, SIGNUP_OTP_SENT), rows + [u])
  }

  /** The name `name` casts to, when the schema's string cast accepts it and it is set. */
  function SignupName(name: Json): (r: Option<string>)
    ensures name.Str? ==> r == Some(name.s)
    ensures name.Obj? ==> r == StringId(name)
    ensures name.Arr? || Nullish(name) ==> r.None?
  {
    match CastString(name)
    case Some(Some(n)) => Some(n)
    case _ => None
  }

  /** POST /verify-signup; `hash` is bcrypt. */
  function VerifySignupSpec(rows: seq<User>, email: string, otp: Json, name: Json, password: Json,
                            hash: string -> string, now: Time): (Reply, seq<User>)
  {
    match CheckOtp(rows, email, otp, now)
    case Err(f) => (Reply(400, SignupFailureMsg(f), None), rows)
    case Ok(i) =>
      if !password.Str? || SignupName(name).None? then (Reply(500, SERVER_ERROR, None), rows)
      else
        var u := rows[i].(name := SignupName(name).value, password := Some(hash(password.s)), isVerified := true,
                          otp := None, otpExpiry := None);
        if !SchemaValid(u) then (Reply(500, SERVER_ERROR, None), rows)
        else (Reply(200, ACCOUNT_CREATED, Some(Session(u.id, u.isAdmin))), rows[i := u])
  }

  /** POST /forgot/send-otp. */
  function ForgotSendOtpSpec(rows: seq<User>, email: string, draw: nat, now: Time, mailOk: bool)
    : (Reply, seq<User>)
  {
    match FindByEmail(rows, email)
    case None => (Reply(400, USER_NOT_FOUND, None), rows)
    case Some(i) =>
      var u := rows[i].(otp := Some(OtpText(draw)), otpExpiry := Some(now + OTP_TTL));
      if !SchemaValid(u) then (Reply(500, SERVER_ERROR, None), rows)
      else (MailReply(mailOk, RESET_OTP_SENT), rows[i := u])
  }

  /** POST /forgot/verify: a read, it changes nothing. */
  function ForgotVerify(rows: seq<User>, email: string, otp: Json, now: Time): (r: Reply)
    ensures r.status == 200 <==> CheckOtp(rows, email, otp, now).Ok?
    ensures r.status != 200 ==> r.status == 400 && r.msg == ResetFailureMsg(CheckOtp(rows, email, otp, now).error)
    ensures r.session.None?
  {
    match CheckOtp(rows, email, otp, now)
    case Err(f) => Reply(400, ResetFailureMsg(f), None)
    case Ok(_) => Reply(200, OTP_VERIFIED, None)
  }

  /** POST /forgot/reset. */
  function ForgotResetSpec(rows: seq<User>, email: string, otp: Json, password: Json,
                           hash: string -> string, now: Time): (Reply, seq<User>)
  {
    match CheckOtp(rows, email, otp, now)
    case Err(f) => (Reply(400, ResetFailureMsg(f), None), rows)
    case Ok(i) =>
      if !password.Str? then (Reply(500, SERVER_ERROR, None), rows)
      else
        var u := rows[i].(password := Some(hash(password.s)), otp := None, otpExpiry := None);
        if !SchemaValid(u) then (Reply(500, SERVER_ERROR, None), rows)
        else (Reply(200, PASSWORD_RESET, None), rows[i := u])
  }

  // ---------------------------------------------------------------------------------
  // Properties

  /** send-otp refuses a verified account with 400 and writes nothing. */
  lemma SendOtpRefusesVerified(rows: seq<User>, email: string, draw: nat, now: Time, freshId: Id, mailOk: bool)
    requires FindByEmail(rows, email).Some? && rows[FindByEmail(rows, email).value].isVerified
    ensures SendOtpSpec(rows, email, draw, now, freshId, mailOk) == (Reply(400, ALREADY_EXISTS, None), rows)
  {
  }

  /** send-otp stores a fresh code expiring ten minutes from now: on an unverified
      account only the code and its expiry change; otherwise a `Pending`, unverified user
      is added. The code is stored before the mail goes out, so a failed mail is a 500
      that keeps it. */
  lemma {:induction false} SendOtpStores(rows: seq<User>, email: string, draw: nat, now: Time, freshId: Id,
                                         mailOk: bool)
    ensures var (reply, after) := SendOtpSpec(rows, email, draw, now, freshId, mailOk);
      var otp, expiry := Some(OtpText(draw)), Some(now + OTP_TTL);
      match FindByEmail(rows, email)
      case Some(i) =>
        !rows[i].isVerified && SchemaValid(rows[i]) ==>
          && after == rows[i := rows[i].(otp := otp, otpExpiry := expiry)]
          && (reply.status == 200 <==> mailOk)
      case None =>
        email != "" ==>
          && |after| == |rows| + 1 && after[..|rows|] == rows
          && after[|rows|].email == email && after[|rows|].name == "Pending"
          && !after[|rows|].isVerified && !after[|rows|].isAdmin
          && after[|rows|].otp == otp && after[|rows|].otpExpiry == expiry
          && (reply.status == 200 <==> mailOk)
  {
    var otp := OtpText(draw);
    if FindByEmail(rows, email).None? && email != "" {
      var u := NewUser(freshId, "Pending", email, "pending", Some(otp), Some(now + OTP_TTL), Some(false), None, now);
      assert SchemaValid(u);
      assert (rows + [u])[..|rows|] == rows;
    }
  }

  /** A failed check (no user, wrong code, expired code) is a 400 whose message names the
      first failing check, and leaves every user unchanged; so for verify-signup and for
      reset. */
  lemma OtpFailureWritesNothing(rows: seq<User>, email: string, otp: Json, name: Json, password: Json,
                                hash: string -> string, now: Time)
    requires CheckOtp(rows, email, otp, now).Err?
    ensures var f := CheckOtp(rows, email, otp, now).error;
      && VerifySignupSpec(rows, email, otp, name, password, hash, now) == (Reply(400, SignupFailureMsg(f), None), rows)
      && ForgotResetSpec(rows, email, otp, password, hash, now) == (Reply(400, ResetFailureMsg(f), None), rows)
  {
  }

  /** A successful sign-up verification sets the name and the hashed password, marks the
      account verified, clears the code and its expiry, and signs a session for that
      account; nobody else changes. */
  lemma VerifySignupEffect(rows: seq<User>, email: string, code: string, name: string,
                           password: string, hash: string -> string, now: Time)
    requires VerifySignupSpec(rows, email, Str(code), Str(name), Str(password), hash, now).0.status == 200
    ensures var (reply, after) := VerifySignupSpec(rows, email, Str(code), Str(name), Str(password), hash, now);
      var i := FindByEmail(rows, email).value;
      && CheckOtp(rows, email, Str(code), now) == Ok(i)
      && after == rows[i := rows[i].(name := name, password := Some(hash(password)), isVerified := true,
                                     otp := None, otpExpiry := None)]
      && reply.session == Some(Session(rows[i].id, rows[i].isAdmin))
  {
  }

  /** A successful reset replaces the password and clears the code, so replaying the same
      code fails, whenever it is tried. */
  lemma {:induction false} ResetConsumesOtp(rows: seq<User>, email: string, code: string, password: string,
                                            hash: string -> string, now: Time, later: Time, again: string)
    requires ForgotResetSpec(rows, email, Str(code), Str(password), hash, now).0.status == 200
    ensures var (_, after) := ForgotResetSpec(rows, email, Str(code), Str(password), hash, now);
      var i := FindByEmail(rows, email).value;
      && after == rows[i := rows[i].(password := Some(hash(password)), otp := None, otpExpiry := None)]
      && CheckOtp(after, email, Str(code), later) == Err(WrongOtp)
      && ForgotResetSpec(after, email, Str(code), Str(again), hash, later).0.status == 400
  {
    var i := FindByEmail(rows, email).value;
    var after := ForgotResetSpec(rows, email, Str(code), Str(password), hash, now).1;
    var u := rows[i].(password := Some(hash(password)), otp := None, otpExpiry := None);
    assert after == rows[i := u];
    FindByEmailAfterReplace(rows, email, i, u);
  }

  /** The same code replayed after a successful sign-up fails too. */
  lemma {:induction false} SignupConsumesOtp(rows: seq<User>, email: string, code: string, name: string,
                                             password: string, hash: string -> string, now: Time, later: Time)
    requires VerifySignupSpec(rows, email, Str(code), Str(name), Str(password), hash, now).0.status == 200
    ensures var after := VerifySignupSpec(rows, email, Str(code), Str(name), Str(password), hash, now).1;
      CheckOtp(after, email, Str(code), later) == Err(WrongOtp)
  {
    var i := FindByEmail(rows, email).value;
    var u := rows[i].(name := name, password := Some(hash(password)), isVerified := true,
                      otp := None, otpExpiry := None);
    assert VerifySignupSpec(rows, email, Str(code), Str(name), Str(password), hash, now).1 == rows[i := u];
    FindByEmailAfterReplace(rows, email, i, u);
  }

  /** Replacing the user an email lookup found by one with the same email keeps the lookup
      where it was. */
  lemma {:induction false} FindByEmailAfterReplace(rows: seq<User>, email: string, i: nat, u: User)
    requires FindByEmail(rows, email) == Some(i) && u.email == email
    ensures FindByEmail(rows[i := u], email) == Some(i)
  {
    if i > 0 {
      assert rows[i := u][1..] == rows[1..][i - 1 := u];
      FindByEmailAfterReplace(rows[1..], email, i - 1, u);
    }
  }

  /** forgot/send-otp needs an existing account, verified or not, and overwrites its code
      and expiry. */
  lemma ForgotSendOtpEffect(rows: seq<User>, email: string, draw: nat, now: Time, mailOk: bool)
    ensures var (reply, after) := ForgotSendOtpSpec(rows, email, draw, now, mailOk);
      && (FindByEmail(rows, email).None? ==> reply == Reply(400, USER_NOT_FOUND, None) && after == rows)
      && (FindByEmail(rows, email).Some? && SchemaValid(rows[FindByEmail(rows, email).value]) ==>
            var i := FindByEmail(rows, email).value;
            after == rows[i := rows[i].(otp := Some(OtpText(draw)), otpExpiry := Some(now + OTP_TTL))] &&
            (reply.status == 200 <==> mailOk))
  {
  }

  // ---------------------------------------------------------------------------------
  // The handlers

  /** `user.save()` of a changed user: the schema validators, then the write. */
  method SaveExisting(users: UserCollection, i: nat, u: User) returns (saved: bool)
    requires users.Valid() && i < |users.rows|
    requires u.email == users.rows[i].email && u.id == users.rows[i].id
    modifies users
    ensures users.Valid()
    ensures saved == SchemaValid(u)
    ensures users.rows == if saved then old(users.rows)[i := u] else old(users.rows)
  {
    saved := SchemaValid(u);
    if saved {
      users.Replace(i, u);
    }
  }

  method SendOtp(users: UserCollection, email: string, draw: nat, now: Time, freshId: Id, mailOk: bool)
    returns (reply: Reply)
    requires users.Valid()
    requires forall j :: 0 <= j < |users.rows| ==> users.rows[j].id != freshId
    modifies users
    ensures users.Valid()
    ensures (reply, users.rows) == SendOtpSpec(old(users.rows), email, draw, now, freshId, mailOk)
  {
    var found := FindByEmail(users.rows, email);
    if found.Some? && users.rows[found.value].isVerified {
      return Reply(400, ALREADY_EXISTS, None);
    }
    var otp := OtpText(draw);
    var expiry := now + OTP_TTL;
    if found.Some? {
      var i := found.value;
      var saved := SaveExisting(users, i, users.rows[i].(otp := Some(otp), otpExpiry := Some(expiry)));
      if !saved {
        return Reply(500, SERVER_ERROR, None);
      }
    } else {
      var u := NewUser(freshId, "Pending", email, "pending", Some(otp), Some(expiry), Some(false), None, now);
      if !SchemaValid(u) {
        return Reply(500, SERVER_ERROR, None);
      }
      users.Insert(u);
    }
    reply := MailReply(mailOk, SIGNUP_OTP_SENT);
  }

  method VerifySignup(users: UserCollection, email: string, otp: Json, name: Json, password: Json,
                      hash: string -> string, now: Time) returns (reply: Reply)
    requires users.Valid()
    modifies users
    ensures users.Valid()
    ensures (reply, users.rows) == VerifySignupSpec(old(users.rows), email, otp, name, password, hash, now)
  {
    var check := CheckOtp(users.rows, email, otp, now);
    if check.Err? {
      return Reply(400, SignupFailureMsg(check.error), None);
    }
    var i := check.value;
    var n := SignupName(name);
    if !password.Str? || n.None? {
      return Reply(500, SERVER_ERROR, None);
    }
    var u := users.rows[i].(name := n.value, password := Some(hash(password.s)), isVerified := true,
                            otp := None, otpExpiry := None);
    ghost var rows0 := users.rows;
    assert VerifySignupSpec(rows0, email, otp, name, password, hash, now) ==
      if SchemaValid(u) then (Reply(200, ACCOUNT_CREATED, Some(Session(u.id, u.isAdmin))), rows0[i := u])
      else (Reply(500, SERVER_ERROR, None), rows0);
    var saved := SaveExisting(users, i, u);
    if !saved {
      return Reply(500, SERVER_ERROR, None);
    }
    reply := Reply(200, ACCOUNT_CREATED, Some(Session(u.id, u.isAdmin)));
  }

  method ForgotSendOtp(users: UserCollection, email: string, draw: nat, now: Time, mailOk: bool)
    returns (reply: Reply)
    requires users.Valid()
    modifies users
    ensures users.Valid()
    ensures (reply, users.rows) == ForgotSendOtpSpec(old(users.rows), email, draw, now, mailOk)
  {
    var found := FindByEmail(users.rows, email);
    if found.None? {
      return Reply(400, USER_NOT_FOUND, None);
    }
    var i := found.value;
    var saved := SaveExisting(users, i, users.rows[i].(otp := Some(OtpText(draw)), otpExpiry := Some(now + OTP_TTL)));
    if !saved {
      return Reply(500, SERVER_ERROR, None);
    }
    reply := MailReply(mailOk, RESET_OTP_SENT);
  }

  method ForgotReset(users: UserCollection, email: string, otp: Json, password: Json,
                     hash: string -> string, now: Time) returns (reply: Reply)
    requires users.Valid()
    modifies users
    ensures users.Valid()
    ensures (reply, users.rows) == ForgotResetSpec(old(users.rows), email, otp, password, hash, now)
  {
    var check := CheckOtp(users.rows, email, otp, now);
    if check.Err? {
      return Reply(400, ResetFailureMsg(check.error), None);
    }
    var i := check.value;
    if !password.Str? {
      return Reply(500, SERVER_ERROR, None);
    }
    var saved := SaveExisting(users, i, users.rows[i].(password := Some(hash(password.s)), otp := None, otpExpiry := None));
    if !saved {
      return Reply(500, SERVER_ERROR, None);
    }
    reply := Reply(200, PASSWORD_RESET, None);
  }
}
