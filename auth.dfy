/** The authentication controller over the `users` and `refresh_tokens` tables:
    registration and login checks, the password-reset OTP with its attempt counter,
    password change, and refresh-token rotation with reuse detection. */
module Auth {
  import opened Wrappers
  import Text

  datatype User = User(
    id: int, fullName: string, username: string, email: string, password: string,
    dateOfBirth: Option<string>, gender: Option<string>,
    resetOtp: Option<string>, resetOtpExpires: Option<int>, resetOtpAttempts: int, updatedAt: int)

  /** A user as the controller returns it: every column but `password`, the reset OTP
      columns included. */
  datatype PublicUser = PublicUser(
    id: int, fullName: string, username: string, email: string,
    dateOfBirth: Option<string>, gender: Option<string>,
    resetOtp: Option<string>, resetOtpExpires: Option<int>, resetOtpAttempts: int, updatedAt: int)

  function Public(u: User): PublicUser {
    PublicUser(u.id, u.fullName, u.username, u.email, u.dateOfBirth, u.gender,
               u.resetOtp, u.resetOtpExpires, u.resetOtpAttempts, u.updatedAt)
  }

  /** `value || null` for an optional text field: a missing or empty value is stored as
      null, any other as given. */
  function OrNull(v: Option<string>): (r: Option<string>)
    ensures r.Some? <==> v.Some? && v.value != ""
    ensures r.Some? ==> r == v
  {
    if v.Some? && v.value != "" then v else None
  }

  datatype Token = Token(id: int, userId: int, token: string, expiresAt: int, revoked: bool, replacedBy: Option<string>)

  /** A status code and the message sent with it. */
  datatype Reply = Reply(status: int, message: string)

  const MissingFields := "Vui lòng điền đầy đủ thông tin bắt buộc"
  const BadEmail := "Email không hợp lệ"
  const ShortPassword := "Mật khẩu phải có ít nhất 6 ký tự"
  const EmailTaken := "Email đã được sử dụng"
  const UsernameTaken := "Username đã được sử dụng"
  const BadCredentials := "Email hoặc mật khẩu không đúng"
  const BadOtp := "OTP không đúng hoặc đã hết hạn."
  const TooManyAttempts := "Bạn đã nhập sai OTP quá số lần cho phép. Vui lòng yêu cầu OTP mới."
  const OtpSentIfExists := "Nếu email tồn tại trong hệ thống, mã OTP sẽ được gửi đến email của bạn."

  const MaxAttempts := 5
  const OtpLifetimeMs := 5 * 60 * 1000
  const RefreshLifetimeMs := 7 * 24 * 60 * 60 * 1000

  /** `/^[^\s@]+@[^\s@]+\.[^\s@]+$/`: one `@` with text before it, and a dot after it
      with text on both sides, all without spaces. */
  predicate EmailValid(s: string) {
    exists i, j :: 0 < i && i + 1 < j && j + 1 < |s| && s[i] == '@' && s[j] == '.' &&
      forall k :: 0 <= k < |s| && k != i ==> s[k] != '@' && !Text.IsSpace(s[k])
  }

  lemma EmailExamples()
    ensures EmailValid("a@b.co")
    ensures !EmailValid("a@b") && !EmailValid("a@@b.c") && !EmailValid("@b.c")
  {
    assert "a@b.co"[1] == '@' && "a@b.co"[3] == '.';
    var s := "a@@b.c";
    forall i, j | 0 < i && i + 1 < j && j + 1 < |s| && s[i] == '@' && s[j] == '.'
      ensures exists k :: 0 <= k < |s| && k != i && (s[k] == '@' || Text.IsSpace(s[k]))
    {
      if i == 1 { assert s[2] == '@'; } else { assert s[1] == '@'; }
    }
  }

  datatype RegisterBody = RegisterBody(
    fullName: string, username: string, email: string, password: string,
    dateOfBirth: Option<string>, gender: Option<string>)

  /** The first user whose email or username matches (`recordset[0]`). */
  function FirstConflict(users: seq<User>, email: string, username: string): (r: Option<nat>)
    ensures r.Some? ==> r.value < |users| && (users[r.value].email == email || users[r.value].username == username)
    ensures r.Some? ==> forall k :: 0 <= k < r.value ==> users[k].email != email && users[k].username != username
    ensures r.None? ==> forall k :: 0 <= k < |users| ==> users[k].email != email && users[k].username != username
  {
    if users == [] then None
    else if users[0].email == email || users[0].username == username then Some(0)
    else match FirstConflict(users[1..], email, username)
      case None => None
      case Some(k) => Some(k + 1)
  }

  /** The checks of `register`, in order; `None` lets the insert go ahead. */
  function RegisterCheck(b: RegisterBody, users: seq<User>): (r: Option<Reply>)
    ensures r.Some? ==> r.value.status == 400
    ensures (b.fullName == "" || b.username == "" || b.email == "" || b.password == "") ==> r == Some(Reply(400, MissingFields))
    ensures r.None? ==> b.fullName != "" && b.username != "" && EmailValid(b.email) && Text.Utf16Length(b.password) >= 6
    ensures r.None? ==> forall k :: 0 <= k < |users| ==> users[k].email != b.email && users[k].username != b.username
  {
    if b.fullName == "" || b.username == "" || b.email == "" || b.password == "" then Some(Reply(400, MissingFields))
    else if !EmailValid(b.email) then Some(Reply(400, BadEmail))
    else if Text.Utf16Length(b.password) < 6 then Some(Reply(400, ShortPassword))
    else match FirstConflict(users, b.email, b.username)
      case None => None
      case Some(k) =>
        if users[k].email == b.email then Some(Reply(400, EmailTaken)) else Some(Reply(400, UsernameTaken))
  }

  /** The length rule counts UTF-16 code units: three characters above U+FFFF, such as
      three emoji, are six units and pass it. */
  lemma {:induction false} AstralPasswordLongEnough(b: RegisterBody, users: seq<User>)
    requires b.fullName != "" && b.username != "" && EmailValid(b.email)
    requires |b.password| == 3 && forall i :: 0 <= i < 3 ==> b.password[i] as int > 0xFFFF
    ensures RegisterCheck(b, users) != Some(Reply(400, ShortPassword))
  {
    Text.Utf16LengthAstral(b.password);
  }

  /** A clash on email is reported before a clash on username. */
  lemma EmailClashFirst(b: RegisterBody, users: seq<User>, k: nat)
    requires b.fullName != "" && b.username != "" && EmailValid(b.email) && Text.Utf16Length(b.password) >= 6
    requires k < |users| && users[k].email == b.email && users[k].username == b.username
    requires forall j :: 0 <= j < k ==> users[j].email != b.email && users[j].username != b.username
    ensures RegisterCheck(b, users) == Some(Reply(400, EmailTaken))
  {
    var r := FirstConflict(users, b.email, b.username);
    assert r.Some? && r.value == k;
  }

  /** The first user with that email (`SELECT ... WHERE email = @email`). */
  function ByEmail(users: seq<User>, email: string): (r: Option<nat>)
    ensures r.Some? ==> r.value < |users| && users[r.value].email == email
    ensures r.None? <==> forall k :: 0 <= k < |users| ==> users[k].email != email
  {
    if users == [] then None
    else if users[0].email == email then Some(0)
    else match ByEmail(users[1..], email)
      case None => None
      case Some(k) => Some(k + 1)
  }

  function ById(users: seq<User>, id: int): (r: Option<nat>)
    ensures r.Some? ==> r.value < |users| && users[r.value].id == id
    ensures r.None? <==> forall k :: 0 <= k < |users| ==> users[k].id != id
  {
    if users == [] then None
    else if users[0].id == id then Some(0)
    else match ById(users[1..], id)
      case None => None
      case Some(k) => Some(k + 1)
  }

  /** `login` up to the token: `hash` stands for bcrypt, so a password matches a stored
      hash when it hashes to it. */
  function LoginCheck(users: seq<User>, email: string, password: string, hash: string -> string): (r: Result<nat, Reply>)
    ensures r.Ok? ==> r.value < |users| && users[r.value].email == email && hash(password) == users[r.value].password
    ensures r.Err? && email != "" && password != "" ==> r.error == Reply(401, BadCredentials)
  {
    if email == "" || password == "" then Err(Reply(400, "Vui lòng nhập email và mật khẩu"))
    else match ByEmail(users, email)
      case None => Err(Reply(401, BadCredentials))
      case Some(k) => if hash(password) != users[k].password then Err(Reply(401, BadCredentials)) else Ok(k)
  }

  /** An unknown email and a wrong password cannot be told apart. */
  lemma LoginDoesNotRevealEmails(users: seq<User>, unknown: string, known: string, wrong: string, hash: string -> string)
    requires unknown != "" && known != "" && wrong != "" && ByEmail(users, unknown).None?
    requires ByEmail(users, known).Some? && hash(wrong) != users[ByEmail(users, known).value].password
    ensures LoginCheck(users, unknown, wrong, hash) == LoginCheck(users, known, wrong, hash) == Err(Reply(401, BadCredentials))
  {}

  /** `Math.floor(100000 + Math.random() * 900000)` with `r` the floor of the random
      part. */
  function GenerateOtp(r: nat): (otp: string)
    requires r < 900000
    ensures |otp| == 6 && Text.AllDigits(otp)
    ensures Text.DigitsValue(otp) == 100000 + r
  {
    assert Text.Pow10(5) == 100000 && Text.Pow10(6) == 1000000;
    Text.NatToStringLength(100000 + r, 6);
    Text.NatToStringDigits(100000 + r);
    Text.NatToString(100000 + r)
  }

  datatype OtpVerdict = Exhausted | Rejected | Accepted

  /** Steps 2 and 3 of `resetPasswordWithOtp`: the attempt limit comes first, then the
      code must be present, unexpired and equal. */
  function CheckOtp(u: User, otp: string, now: int): (v: OtpVerdict)
    ensures v == Exhausted <==> u.resetOtpAttempts >= MaxAttempts
    ensures v == Accepted <==> (u.resetOtpAttempts < MaxAttempts && u.resetOtp == Some(otp) && otp != ""
      && u.resetOtpExpires.Some? && u.resetOtpExpires.value > now)
  {
    if u.resetOtpAttempts >= MaxAttempts then Exhausted
    else if u.resetOtp.None? || u.resetOtp.value == "" || u.resetOtpExpires.None? || u.resetOtpExpires.value <= now || u.resetOtp.value != otp then Rejected
    else Accepted
  }

  /** `resetPasswordWithOtp` on the users table: the reply and the table afterwards.
      Missing fields and an unknown email change nothing; a locked account is refused;
      a wrong, missing or expired code is refused and counts one attempt; an accepted
      code stores the new hash and clears the code and the attempts. */
  function Reset(users: seq<User>, email: string, otp: string, newPassword: string, hash: string -> string, now: int)
    : (res: (Reply, seq<User>))
    ensures (email == "" || otp == "" || newPassword == "") ==> res.0.status == 400 && res.1 == users
    ensures email != "" && otp != "" && newPassword != "" && ByEmail(users, email).None? ==>
      res == (Reply(400, BadOtp), users)
    ensures email != "" && otp != "" && newPassword != "" && ByEmail(users, email).Some? ==>
      var k := ByEmail(users, email).value;
      var u := users[k];
      match CheckOtp(u, otp, now)
      case Exhausted => res == (Reply(400, TooManyAttempts), users)
      case Rejected => res == (Reply(400, BadOtp), users[k := u.(resetOtpAttempts := u.resetOtpAttempts + 1)])
      case Accepted => (res.0.status == 200 &&
        res.1 == users[k := u.(password := hash(newPassword), resetOtp := None, resetOtpExpires := None, resetOtpAttempts := 0, updatedAt := now)])
  {
    if email == "" || otp == "" || newPassword == "" then (Reply(400, "Vui lòng nhập đủ email, OTP và mật khẩu mới"), users)
    else match ByEmail(users, email)
      case None => (Reply(400, BadOtp), users)
      case Some(k) =>
        var u := users[k];
        match CheckOtp(u, otp, now)
        case Exhausted => (Reply(400, TooManyAttempts), users)
        case Rejected => (Reply(400, BadOtp), users[k := u.(resetOtpAttempts := u.resetOtpAttempts + 1)])
        case Accepted => (Reply(200, "Đổi mật khẩu thành công."),
          users[k := u.(password := hash(newPassword), resetOtp := None, resetOtpExpires := None, resetOtpAttempts := 0, updatedAt := now)])
  }

  /** The users table after `n` calls of `resetPasswordWithOtp` with the same code. */
  function Retried(users: seq<User>, email: string, otp: string, newPassword: string, hash: string -> string, now: int, n: nat)
    : seq<User>
  {
    if n == 0 then users else Reset(Retried(users, email, otp, newPassword, hash, now, n - 1), email, otp, newPassword, hash, now).1
  }

  /** Changing no email leaves the first user with an email where it was. */
  lemma {:induction false} ByEmailSameEmails(users: seq<User>, k: nat, u: User, email: string)
    requires k < |users| && u.email == users[k].email
    ensures ByEmail(users[k := u], email) == ByEmail(users, email)
    decreases |users|
  {
    if k > 0 {
      assert users[k := u][1..] == users[1..][k - 1 := u];
      ByEmailSameEmails(users[1..], k - 1, u, email);
    }
  }

  lemma UpdateTwice(users: seq<User>, k: nat, a: User, b: User)
    requires k < |users|
    ensures users[k := a][k := b] == users[k := b]
  {}

  /** One more wrong code, when the previous calls left the table as `before`. */
  lemma RetriedRejects(users: seq<User>, email: string, otp: string, newPassword: string, hash: string -> string, now: int,
                       n: nat, k: nat, before: seq<User>)
    requires n > 0 && Retried(users, email, otp, newPassword, hash, now, n - 1) == before
    requires email != "" && otp != "" && newPassword != "" && ByEmail(before, email) == Some(k)
    requires CheckOtp(before[k], otp, now) == Rejected
    ensures Retried(users, email, otp, newPassword, hash, now, n) ==
      before[k := before[k].(resetOtpAttempts := before[k].resetOtpAttempts + 1)]
  {}

  /** The table with `n - 1` attempts counted still finds the user at `k`, rejects the
      wrong code, and counting one more gives `n`. */
  lemma WrongCodeFacts(users: seq<User>, email: string, wrong: string, now: int, n: nat, k: nat)
    requires ByEmail(users, email) == Some(k)
    requires users[k].resetOtp != Some(wrong) && n > 0 && users[k].resetOtpAttempts + n <= MaxAttempts
    ensures var before := users[k := users[k].(resetOtpAttempts := users[k].resetOtpAttempts + (n - 1))];
      ByEmail(before, email) == Some(k) && CheckOtp(before[k], wrong, now) == Rejected &&
      before[k := before[k].(resetOtpAttempts := before[k].resetOtpAttempts + 1)] ==
        users[k := users[k].(resetOtpAttempts := users[k].resetOtpAttempts + n)]
  {
    var u := users[k];
    var v := u.(resetOtpAttempts := u.resetOtpAttempts + (n - 1));
    var w := u.(resetOtpAttempts := u.resetOtpAttempts + n);
    ByEmailSameEmails(users, k, v, email);
    assert v.(resetOtpAttempts := v.resetOtpAttempts + 1) == w;
    UpdateTwice(users, k, v, w);
  }

  /** One wrong code on top of `n - 1` counted ones counts the `n`-th. */
  lemma WrongCodeStep(users: seq<User>, email: string, wrong: string, newPassword: string,
                      hash: string -> string, now: int, n: nat, k: nat)
    requires email != "" && wrong != "" && newPassword != "" && ByEmail(users, email) == Some(k)
    requires users[k].resetOtp != Some(wrong) && n > 0 && users[k].resetOtpAttempts + n <= MaxAttempts
    requires Retried(users, email, wrong, newPassword, hash, now, n - 1) ==
      users[k := users[k].(resetOtpAttempts := users[k].resetOtpAttempts + (n - 1))]
    ensures Retried(users, email, wrong, newPassword, hash, now, n) ==
      users[k := users[k].(resetOtpAttempts := users[k].resetOtpAttempts + n)]
  {
    WrongCodeFacts(users, email, wrong, now, n, k);
    var before := users[k := users[k].(resetOtpAttempts := users[k].resetOtpAttempts + (n - 1))];
    RetriedRejects(users, email, wrong, newPassword, hash, now, n, k, before);
  }

  /** Each wrong code counts exactly one attempt and changes nothing else, up to the
      limit. */
  lemma {:induction false} WrongCodesCount(users: seq<User>, email: string, wrong: string, newPassword: string,
                                           hash: string -> string, now: int, n: nat, k: nat)
    requires email != "" && wrong != "" && newPassword != "" && ByEmail(users, email) == Some(k)
    requires users[k].resetOtp != Some(wrong) && users[k].resetOtpAttempts + n <= MaxAttempts
    ensures Retried(users, email, wrong, newPassword, hash, now, n) ==
      users[k := users[k].(resetOtpAttempts := users[k].resetOtpAttempts + n)]
    decreases n
  {
    if n == 0 {
      assert users[k].(resetOtpAttempts := users[k].resetOtpAttempts + n) == users[k];
      assert users[k := users[k]] == users;
    } else {
      WrongCodesCount(users, email, wrong, newPassword, hash, now, n - 1, k);
      WrongCodeStep(users, email, wrong, newPassword, hash, now, n, k);
    }
  }

  /** Five wrong codes from a fresh OTP lock the reset: afterwards any code, the right one
      included, is refused with the attempts message and changes nothing. */
  lemma FiveWrongCodesLock(users: seq<User>, email: string, wrong: string, newPassword: string,
                           hash: string -> string, now: int, code: string, later: int, k: nat)
    requires email != "" && wrong != "" && newPassword != "" && code != "" && ByEmail(users, email) == Some(k)
    requires users[k].resetOtp != Some(wrong) && users[k].resetOtpAttempts == 0
    ensures var locked := Retried(users, email, wrong, newPassword, hash, now, 5);
      Reset(locked, email, code, newPassword, hash, later) == (Reply(400, TooManyAttempts), locked)
  {
    WrongCodesLock(users, email, wrong, newPassword, hash, now, code, later, k, 5);
  }

  /** The wrong codes that use up the remaining attempts lock the reset. */
  lemma WrongCodesLock(users: seq<User>, email: string, wrong: string, newPassword: string,
                       hash: string -> string, now: int, code: string, later: int, k: nat, n: nat)
    requires email != "" && wrong != "" && newPassword != "" && code != "" && ByEmail(users, email) == Some(k)
    requires users[k].resetOtp != Some(wrong) && users[k].resetOtpAttempts + n == MaxAttempts
    ensures var locked := Retried(users, email, wrong, newPassword, hash, now, n);
      Reset(locked, email, code, newPassword, hash, later) == (Reply(400, TooManyAttempts), locked)
  {
    WrongCodesCount(users, email, wrong, newPassword, hash, now, n, k);
    var u := users[k].(resetOtpAttempts := users[k].resetOtpAttempts + n);
    ByEmailSameEmails(users, k, u, email);
    LockedRefuses(users[k := u], email, code, newPassword, hash, later, k);
  }

  /** A user whose attempts reached the limit is refused whatever the code. */
  lemma LockedRefuses(users: seq<User>, email: string, code: string, newPassword: string,
                      hash: string -> string, now: int, k: nat)
    requires email != "" && code != "" && newPassword != "" && ByEmail(users, email) == Some(k)
    requires users[k].resetOtpAttempts >= MaxAttempts
    ensures Reset(users, email, code, newPassword, hash, now) == (Reply(400, TooManyAttempts), users)
  {
    assert CheckOtp(users[k], code, now) == Exhausted;
  }

  /** Revoke every token of a user (reuse detection). */
  function RevokeUser(tokens: seq<Token>, userId: int): (ts: seq<Token>)
    ensures |ts| == |tokens|
    ensures forall k :: 0 <= k < |ts| ==> ts[k] == if tokens[k].userId == userId then tokens[k].(revoked := true) else tokens[k]
  {
    seq(|tokens|, k requires 0 <= k < |tokens| => if tokens[k].userId == userId then tokens[k].(revoked := true) else tokens[k])
  }

  /** Revoke every row holding a token string (logout). */
  function RevokeToken(tokens: seq<Token>, token: string): (ts: seq<Token>)
    ensures |ts| == |tokens|
    ensures forall k :: 0 <= k < |ts| ==> ts[k] == if tokens[k].token == token then tokens[k].(revoked := true) else tokens[k]
  {
    seq(|tokens|, k requires 0 <= k < |tokens| => if tokens[k].token == token then tokens[k].(revoked := true) else tokens[k])
  }

  function ByToken(tokens: seq<Token>, token: string): (r: Option<nat>)
    ensures r.Some? ==> r.value < |tokens| && tokens[r.value].token == token
    ensures r.Some? ==> forall k :: 0 <= k < r.value ==> tokens[k].token != token
    ensures r.None? <==> forall k :: 0 <= k < |tokens| ==> tokens[k].token != token
  {
    if tokens == [] then None
    else if tokens[0].token == token then Some(0)
    else match ByToken(tokens[1..], token)
      case None => None
      case Some(k) => Some(k + 1)
  }

  /** A token is live when it is not revoked and not past its expiry. */
  predicate Live(t: Token, now: int) { !t.revoked && now <= t.expiresAt }

  /** After reuse detection the user has no live token left. */
  lemma ReuseRevokesAll(tokens: seq<Token>, userId: int, now: int)
    ensures forall k :: 0 <= k < |RevokeUser(tokens, userId)| && RevokeUser(tokens, userId)[k].userId == userId ==>
      !Live(RevokeUser(tokens, userId)[k], now)
  {}

  /** The two tables and the mail sent, with the controller's handlers. */
  class AuthStore {
    var users: seq<User>
    var tokens: seq<Token>
    var nextUserId: int
    var nextTokenId: int
    /** OTP mails sent: recipient and code. */
    var outbox: seq<(string, string)>

    constructor ()
      ensures users == [] && tokens == [] && outbox == [] && nextUserId == 1 && nextTokenId == 1
    {
      users := [];
      tokens := [];
      outbox := [];
      nextUserId := 1;
      nextTokenId := 1;
    }

    /** `register`: validates, hashes and inserts; the reply omits the password. */
    method Register(b: RegisterBody, hash: string -> string, now: int) returns (reply: Reply, created: Option<PublicUser>)
      modifies this
      ensures tokens == old(tokens) && outbox == old(outbox) && nextTokenId == old(nextTokenId)
      ensures RegisterCheck(b, old(users)).Some? ==>
        reply == RegisterCheck(b, old(users)).value && created.None? && users == old(users) && nextUserId == old(nextUserId)
      ensures RegisterCheck(b, old(users)).None? ==>
        var u := User(old(nextUserId), b.fullName, b.username, b.email, hash(b.password), OrNull(b.dateOfBirth), OrNull(b.gender), None, None, 0, now);
        users == old(users) + [u] && nextUserId == old(nextUserId) + 1 &&
        reply == Reply(201, "Đăng ký thành công") && created == Some(Public(u))
    {
      var check := RegisterCheck(b, users);
      if check.Some? {
        return check.value, None;
      }
      var u := User(nextUserId, b.fullName, b.username, b.email, hash(b.password), OrNull(b.dateOfBirth), OrNull(b.gender), None, None, 0, now);
      users := users + [u];
      nextUserId := nextUserId + 1;
      reply, created := Reply(201, "Đăng ký thành công"), Some(Public(u));
    }

    /** `generateTokens`: a fresh refresh token valid for seven days. */
    method IssueToken(userId: int, newToken: string, now: int)
      modifies this
      ensures tokens == old(tokens) + [Token(old(nextTokenId), userId, newToken, now + RefreshLifetimeMs, false, None)]
      ensures nextTokenId == old(nextTokenId) + 1
      ensures users == old(users) && outbox == old(outbox) && nextUserId == old(nextUserId)
    {
      tokens := tokens + [Token(nextTokenId, userId, newToken, now + RefreshLifetimeMs, false, None)];
      nextTokenId := nextTokenId + 1;
    }

    /** `login`: `newToken` is the random refresh token. */
    method Login(email: string, password: string, hash: string -> string, newToken: string, now: int)
      returns (reply: Reply, user: Option<PublicUser>)
      modifies this
      ensures users == old(users) && outbox == old(outbox)
      ensures LoginCheck(old(users), email, password, hash).Err? ==>
        reply == LoginCheck(old(users), email, password, hash).error && user.None? && tokens == old(tokens)
      ensures LoginCheck(old(users), email, password, hash).Ok? ==>
        var u := old(users)[LoginCheck(old(users), email, password, hash).value];
        user == Some(Public(u)) && reply.status == 200 &&
        user.value.resetOtp == u.resetOtp && user.value.resetOtpExpires == u.resetOtpExpires &&
        tokens == old(tokens) + [Token(old(nextTokenId), u.id, newToken, now + RefreshLifetimeMs, false, None)]
    {
      var check := LoginCheck(users, email, password, hash);
      if check.Err? {
        return check.error, None;
      }
      var u := users[check.value];
      IssueToken(u.id, newToken, now);
      reply, user := Reply(200, "Đăng nhập thành công"), Some(Public(u));
    }

    /** `requestResetOtp`: `r` is the random draw. An unknown email gets the same 200
        and changes nothing. */
    method RequestResetOtp(email: string, r: nat, now: int) returns (reply: Reply)
      requires r < 900000
      modifies this
      ensures tokens == old(tokens) && nextUserId == old(nextUserId) && nextTokenId == old(nextTokenId)
      ensures email == "" ==> reply.status == 400 && users == old(users) && outbox == old(outbox)
      ensures email != "" && ByEmail(old(users), email).None? ==>
        reply == Reply(200, OtpSentIfExists) && users == old(users) && outbox == old(outbox)
      ensures email != "" && ByEmail(old(users), email).Some? ==>
        var k := ByEmail(old(users), email).value;
        reply.status == 200 && outbox == old(outbox) + [(email, GenerateOtp(r))] &&
        users == old(users)[k := old(users)[k].(resetOtp := Some(GenerateOtp(r)), resetOtpExpires := Some(now + OtpLifetimeMs), resetOtpAttempts := 0)]
    {
      if email == "" {
        return Reply(400, "Vui lòng nhập email");
      }
      var found := ByEmail(users, email);
      if found.None? {
        return Reply(200, OtpSentIfExists);
      }
      var k := found.value;
      var otp := GenerateOtp(r);
      users := users[k := users[k].(resetOtp := Some(otp), resetOtpExpires := Some(now + OtpLifetimeMs), resetOtpAttempts := 0)];
      outbox := outbox + [(email, otp)];
      reply := Reply(200, "Mã OTP đã được gửi đến email của bạn (nếu email tồn tại trong hệ thống).");
    }

    /** `resetPasswordWithOtp`. */
    method ResetPasswordWithOtp(email: string, otp: string, newPassword: string, hash: string -> string, now: int) returns (reply: Reply)
      modifies this
      ensures tokens == old(tokens) && outbox == old(outbox) && nextUserId == old(nextUserId) && nextTokenId == old(nextTokenId)
      ensures (reply, users) == Reset(old(users), email, otp, newPassword, hash, now)
    {
      if email == "" || otp == "" || newPassword == "" {
        return Reply(400, "Vui lòng nhập đủ email, OTP và mật khẩu mới");
      }
      var found := ByEmail(users, email);
      if found.None? {
        return Reply(400, BadOtp);
      }
      var k := found.value;
      var u := users[k];
      var verdict := CheckOtp(u, otp, now);
      if verdict == Exhausted {
        return Reply(400, TooManyAttempts);
      }
      if verdict == Rejected {
        users := users[k := u.(resetOtpAttempts := u.resetOtpAttempts + 1)];
        return Reply(400, BadOtp);
      }
      users := users[k := u.(password := hash(newPassword), resetOtp := None, resetOtpExpires := None, resetOtpAttempts := 0, updatedAt := now)];
      reply := Reply(200, "Đổi mật khẩu thành công.");
    }

    /** `changePassword`; `userId` 0 is a token without a user. */
    method ChangePassword(userId: int, current: string, newPassword: string, hash: string -> string, now: int) returns (reply: Reply)
      modifies this
      ensures tokens == old(tokens) && outbox == old(outbox) && nextUserId == old(nextUserId) && nextTokenId == old(nextTokenId)
      ensures reply.status != 200 ==> users == old(users)
      ensures reply.status == 200 <==> (current != "" && newPassword != "" && userId != 0 &&
        ById(old(users), userId).Some? && hash(current) == old(users)[ById(old(users), userId).value].password)
      ensures reply.status == 200 ==>
        var k := ById(old(users), userId).value;
        users == old(users)[k := old(users)[k].(password := hash(newPassword), updatedAt := now)]
    {
      if current == "" || newPassword == "" {
        return Reply(400, "Vui lòng nhập đầy đủ mật khẩu hiện tại và mật khẩu mới");
      }
      if userId == 0 {
        return Reply(401, "Không xác định được người dùng, vui lòng đăng nhập lại");
      }
      var found := ById(users, userId);
      if found.None? {
        return Reply(404, "Không tìm thấy người dùng");
      }
      var k := found.value;
      if hash(current) != users[k].password {
        return Reply(400, "Mật khẩu hiện tại không đúng");
      }
      users := users[k := users[k].(password := hash(newPassword), updatedAt := now)];
      reply := Reply(200, "Đổi mật khẩu thành công");
    }

    /** `refreshToken`: a revoked token revokes all of its user's tokens; a live one is
        rotated into `newToken`, the old row recording its replacement. */
    method RefreshToken(token: string, newToken: string, now: int) returns (reply: Reply)
      modifies this
      ensures users == old(users) && outbox == old(outbox) && nextUserId == old(nextUserId)
      ensures token == "" ==> reply.status == 400 && tokens == old(tokens)
      ensures token != "" && ByToken(old(tokens), token).None? ==> reply.status == 403 && tokens == old(tokens)
      ensures token != "" && ByToken(old(tokens), token).Some? ==>
        var k := ByToken(old(tokens), token).value;
        var t := old(tokens)[k];
        (t.revoked ==> reply == Reply(403, "Phát hiện bất thường. Vui lòng đăng nhập lại.") && tokens == RevokeUser(old(tokens), t.userId)) &&
        (!t.revoked && (now > t.expiresAt || ById(old(users), t.userId).None?) ==> reply.status == 403 && tokens == old(tokens)) &&
        (!t.revoked && now <= t.expiresAt && ById(old(users), t.userId).Some? ==>
          reply.status == 200 &&
          tokens == (old(tokens) + [Token(old(nextTokenId), t.userId, newToken, now + RefreshLifetimeMs, false, None)])[k := t.(revoked := true, replacedBy := Some(newToken))])
    {
      if token == "" {
        return Reply(400, "Vui lòng cung cấp refresh token");
      }
      var found := ByToken(tokens, token);
      if found.None? {
        return Reply(403, "Refresh token không hợp lệ");
      }
      var k := found.value;
      var t := tokens[k];
      if t.revoked {
        tokens := RevokeUser(tokens, t.userId);
        return Reply(403, "Phát hiện bất thường. Vui lòng đăng nhập lại.");
      }
      if now > t.expiresAt {
        return Reply(403, "Token đã hết hạn, vui lòng đăng nhập lại");
      }
      if ById(users, t.userId).None? {
        return Reply(403, "User không tồn tại");
      }
      IssueToken(t.userId, newToken, now);
      tokens := tokens[k := t.(revoked := true, replacedBy := Some(newToken))];
      reply := Reply(200, "Làm mới token thành công");
    }

    /** `logout`: revokes the presented token, if any. */
    method Logout(token: string) returns (reply: Reply)
      modifies this
      ensures users == old(users) && outbox == old(outbox) && nextUserId == old(nextUserId) && nextTokenId == old(nextTokenId)
      ensures tokens == if token == "" then old(tokens) else RevokeToken(old(tokens), token)
      ensures reply.status == 200
    {
      if token != "" {
        tokens := RevokeToken(tokens, token);
      }
      reply := Reply(200, "Đăng xuất thành công");
    }
  }

  /** Rotation retires the presented token: the same string can never be rotated twice,
      and presenting it again is treated as reuse. */
  lemma RotatedTokenIsReuse(tokens: seq<Token>, k: nat, newToken: string, newId: int, userId: int, now: int)
    requires k < |tokens| && ByToken(tokens, tokens[k].token) == Some(k) && newToken != tokens[k].token
    ensures var after := (tokens + [Token(newId, userId, newToken, now, false, None)])[k := tokens[k].(revoked := true, replacedBy := Some(newToken))];
      ByToken(after, tokens[k].token) == Some(k) && after[k].revoked && after[k].replacedBy == Some(newToken)
  {
    var after := (tokens + [Token(newId, userId, newToken, now, false, None)])[k := tokens[k].(revoked := true, replacedBy := Some(newToken))];
    assert forall j :: 0 <= j < k ==> after[j] == tokens[j];
    assert after[k].token == tokens[k].token;
    var m := ByToken(after, tokens[k].token);
    assert m.Some?;
    assert m.value == k;
  }
}
