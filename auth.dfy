/** The credential workflow of the authentication service: the input
    validators, the one-time-code generator, and login, signup, forgot-password
    and reset-password over the `users` and `password_resets` tables. */
module Auth {
  import opened Common
  import opened JsText
  import opened Tables
  import opened Collations

  datatype User = User(id: nat, email: string, passwordHash: string)

  datatype PasswordReset = PasswordReset(id: nat, userId: nat, otp: string, expiresAt: int)

  /** What `jwt.sign` embeds in a token: the user's id and email, the time of
      issue in seconds and the lifetime in seconds. */
  datatype Claims = Claims(userId: nat, email: string, issuedAt: int, expiresIn: nat)

  /** The opaque collaborators: `hash(password, salt)` is `bcrypt.hash` with
      cost 10 and the salt it draws, `verify(password, hash)` is
      `bcrypt.compare`, and `sign(claims)` is `jwt.sign` with the server's
      secret. */
  datatype Crypto = Crypto(
    hash: (string, nat) -> string,
    verify: (string, string) -> bool,
    sign: Claims -> string)
  {
    /** The one fact the workflow relies on: a password verifies against a
        hash of itself. */
    ghost predicate Sound() {
      forall p, salt :: verify(p, hash(p, salt))
    }
  }

  /** A successful login: `{ token, user: { id, email } }`. */
  datatype Session = Session(token: string, userId: nat, email: string)

  const MissingCredentials: Error := Error(400, "Email and password are required")
  const InvalidEmail: Error := Error(400, "Invalid email format")
  const WeakPassword: Error := Error(400, "Password must be at least 8 characters and include letters and numbers")
  const EmailExists: Error := Error(409, "Email already exists")
  const InvalidCredentials: Error := Error(401, "Invalid credentials")
  const EmailRequired: Error := Error(400, "Email is required")
  const EmailNotFound: Error := Error(404, "Email not found")
  const AllFieldsRequired: Error := Error(400, "All fields are required")
  const InvalidOtp: Error := Error(400, "Invalid or expired OTP")

  /** `expiresIn: '1h'` */
  const TokenLifetimeSeconds: nat := 3600

  /** `DATEADD(MINUTE, 15, GETDATE())`, with the database clock read in milliseconds. */
  const OtpLifetime: nat := 15 * 60 * 1000

  // ---------------------------------------------------------------------
  // Validators
  // ---------------------------------------------------------------------

  /** The class `[^\s@]`. */
  predicate IsEmailChar(c: char) {
    !IsWhitespace(c) && c != '@'
  }

  predicate AllEmailChars(s: string) {
    forall k | 0 <= k < |s| :: IsEmailChar(s[k])
  }

  /** `/^[^\s@]+@[^\s@]+\.[^\s@]+$/` read as a split of `e` into `A@B.C`
      at the `@` at index `i` and the `.` at index `j`, with `A`, `B` and `C`
      non-empty and free of whitespace and `@`. */
  ghost predicate EmailSplit(e: string, i: int, j: int) {
    && 0 < i && i + 1 < j && j < |e| - 1
    && e[i] == '@' && e[j] == '.'
    && AllEmailChars(e[..i]) && AllEmailChars(e[i + 1..j]) && AllEmailChars(e[j + 1..])
  }

  /** `isValidEmail`: no whitespace, exactly one `@`, not at the start, and a
      dot after it that is neither right after the `@` nor the last character.
      The part between the `@` and that dot may itself contain dots. */
  predicate IsValidEmail(e: string) {
    && (forall k | 0 <= k < |e| :: !IsWhitespace(e[k]))
    && exists i | 0 < i < |e| ::
         && e[i] == '@'
         && (forall k | 0 <= k < |e| && k != i :: e[k] != '@')
         && exists j | i + 1 < j < |e| - 1 :: e[j] == '.'
  }

  /** The check above accepts exactly the strings the regular expression matches. */
  lemma ValidEmailMatchesPattern(e: string)
    ensures IsValidEmail(e) <==> exists i, j :: EmailSplit(e, i, j)
  {
    if IsValidEmail(e) {
      var i :| 0 < i < |e| && e[i] == '@' && (forall k | 0 <= k < |e| && k != i :: e[k] != '@')
               && exists j | i + 1 < j < |e| - 1 :: e[j] == '.';
      var j :| i + 1 < j < |e| - 1 && e[j] == '.';
      assert forall k | 0 <= k < i :: e[..i][k] == e[k];
      assert forall k | i + 1 <= k < j :: e[i + 1..j][k - i - 1] == e[k];
      assert forall k | j + 1 <= k < |e| :: e[j + 1..][k - j - 1] == e[k];
      assert EmailSplit(e, i, j);
    }
    if i, j :| EmailSplit(e, i, j) {
      forall k | 0 <= k < |e| && k != i ensures e[k] != '@' && !IsWhitespace(e[k]) {
        if k < i { assert e[..i][k] == e[k]; }
        else if k < j { assert e[i + 1..j][k - i - 1] == e[k]; }
        else if k > j { assert e[j + 1..][k - j - 1] == e[k]; }
      }
      assert IsValidEmail(e);
    }
  }

  /** `/[A-Za-z]/.test(s)` */
  function HasAsciiLetter(s: string): (b: bool)
    ensures b <==> exists k | 0 <= k < |s| :: IsAsciiLetter(s[k])
  {
    if s == [] then false
    else if IsAsciiLetter(s[|s| - 1]) then true
    else
      var b := HasAsciiLetter(s[..|s| - 1]);
      assert forall k | 0 <= k < |s| - 1 :: s[..|s| - 1][k] == s[k];
      b
  }

  /** `/\d/.test(s)` */
  function HasDigit(s: string): (b: bool)
    ensures b <==> exists k | 0 <= k < |s| :: IsDigit(s[k])
  {
    if s == [] then false
    else if IsDigit(s[|s| - 1]) then true
    else
      var b := HasDigit(s[..|s| - 1]);
      assert forall k | 0 <= k < |s| - 1 :: s[..|s| - 1][k] == s[k];
      b
  }

  /** `isStrongPassword`: at least 8 UTF-16 code units, an ASCII letter and an
      ASCII digit. */
  predicate IsStrongPassword(p: string)
    ensures IsStrongPassword(p) <==>
      && |p| + |Supplementary(p)| >= 8
      && (exists k | 0 <= k < |p| :: IsAsciiLetter(p[k]))
      && (exists k | 0 <= k < |p| :: IsDigit(p[k]))
  {
    Utf16LengthCount(p);
    Utf16Length(p) >= 8 && HasAsciiLetter(p) && HasDigit(p)
  }

  /** `Math.floor(100000 + Math.random() * 900000)` for the value `random`
      that `Math.random()` returned. */
  function OtpValue(random: real): (n: int)
    requires 0.0 <= random < 1.0
    ensures 100000 <= n <= 999999
  {
    (100000.0 + random * 900000.0).Floor
  }

  /** `generateOtp`: the decimal string of a number in [100000, 999999],
      hence exactly six digits with a non-zero first digit, which `parseInt`
      reads back. */
  function GenerateOtp(random: real): (otp: string)
    requires 0.0 <= random < 1.0
    ensures |otp| == 6 && AllRadixDigits(otp, 10) && otp[0] != '0'
    ensures ParseInt(otp) == Some(OtpValue(random))
  {
    var n := OtpValue(random);
    assert Pow10(5) == 100000 by {
      assert Pow10(1) == 10 && Pow10(2) == 100 && Pow10(3) == 1000 && Pow10(4) == 10000;
    }
    assert Pow10(6) == 1000000;
    NatToStringLength(n, 6);
    ParseIntOfDecimal(n, []);
    assert NatToString(n) + [] == NatToString(n);
    NatToString(n)
  }

  // ---------------------------------------------------------------------
  // The queries
  // ---------------------------------------------------------------------

  function UserId(u: User): int { u.id }

  function ResetId(pr: PasswordReset): int { pr.id }

  /** `WHERE email = @email` under the collation of the column. */
  function EmailIs(c: Collation, email: string): User -> bool {
    (u: User) => Equal(c, u.email, email)
  }

  /** Some user's email equals `email`. */
  predicate EmailTaken(users: seq<User>, c: Collation, email: string) {
    exists u | u in users :: Equal(c, u.email, email)
  }

  /** `SELECT ... FROM users WHERE email = @email`, `recordset[0]`. */
  function FindUser(users: seq<User>, c: Collation, email: string): (r: Option<User>)
    ensures r.None? <==> !EmailTaken(users, c, email)
    ensures r.Some? ==> r.value in users && Equal(c, r.value.email, email)
  {
    Find(users, EmailIs(c, email))
  }

  /** No two users have emails equal under the collation. */
  ghost predicate UniqueEmails(users: seq<User>, c: Collation) {
    forall a, b | a in users && b in users && Equal(c, a.email, b.email) :: a == b
  }

  /** No user has two reset rows: the single-active-code invariant. */
  ghost predicate OneCodePerUser(resets: seq<PasswordReset>) {
    forall a, b | a in resets && b in resets && a.userId == b.userId :: a == b
  }

  /** What the two tables keep: ids ascending and below the next id to be
      given out, emails unique under the collation, and at most one reset
      row per user. */
  ghost predicate Consistent(users: seq<User>, resets: seq<PasswordReset>, nextUserId: nat, nextResetId: nat, c: Collation) {
    && Ascending(users, UserId) && Below(users, UserId, nextUserId) && UniqueEmails(users, c)
    && Ascending(resets, ResetId) && Below(resets, ResetId, nextResetId) && OneCodePerUser(resets)
  }

  /** A row the reset query's join selects: it belongs to a user whose email
      equals `email`, its code equals `otp`, and it expires strictly after `now`. */
  predicate Redeemable(users: seq<User>, c: Collation, email: string, otp: string, now: int, pr: PasswordReset) {
    && (exists u | u in users :: u.id == pr.userId && Equal(c, u.email, email))
    && Equal(c, pr.otp, otp)
    && pr.expiresAt > now
  }

  function RedeemableBy(users: seq<User>, c: Collation, email: string, otp: string, now: int): PasswordReset -> bool {
    (pr: PasswordReset) => Redeemable(users, c, email, otp, now, pr)
  }

  /** The reset query, `recordset[0]`. */
  function FindCode(users: seq<User>, resets: seq<PasswordReset>, c: Collation,
                    email: string, otp: string, now: int): (r: Option<PasswordReset>)
    ensures r.None? <==> forall pr | pr in resets :: !Redeemable(users, c, email, otp, now, pr)
    ensures r.Some? ==> r.value in resets && Redeemable(users, c, email, otp, now, r.value)
  {
    Find(resets, RedeemableBy(users, c, email, otp, now))
  }

  /** `DELETE FROM password_resets WHERE user_id = @user_id` keeps these rows. */
  function NotOwnedBy(userId: nat): PasswordReset -> bool {
    (pr: PasswordReset) => pr.userId != userId
  }

  /** `DELETE FROM password_resets WHERE id = @id` keeps these rows. */
  function NotReset(id: nat): PasswordReset -> bool {
    (pr: PasswordReset) => pr.id != id
  }

  function HasUserId(id: nat): User -> bool {
    (u: User) => u.id == id
  }

  /** `SET password_hash = @password_hash` */
  function WithHash(h: string): User -> User {
    (u: User) => u.(passwordHash := h)
  }

  // ---------------------------------------------------------------------
  // What the statements do to the queries
  // ---------------------------------------------------------------------

  /** After the old codes of a user are deleted and `issued` is inserted for
      them, the only code that works for that user's email is `issued`'s, and
      only strictly before it expires. */
  lemma CodeAfterForgot(users: seq<User>, resets: seq<PasswordReset>, c: Collation,
                        u: User, issued: PasswordReset, email: string, otp: string, now: int)
    requires UniqueEmails(users, c)
    requires u in users && Equal(c, u.email, email) && issued.userId == u.id
    ensures Redeemable(users, c, email, otp, now, issued) <==> Equal(c, otp, issued.otp) && now < issued.expiresAt
    ensures FindCode(users, Filter(resets, NotOwnedBy(u.id)) + [issued], c, email, otp, now).Some?
        <==> Equal(c, otp, issued.otp) && now < issued.expiresAt
  {
    var after := Filter(resets, NotOwnedBy(u.id)) + [issued];
    forall pr | pr in after && Redeemable(users, c, email, otp, now, pr) ensures pr == issued {
      var v :| v in users && v.id == pr.userId && Equal(c, v.email, email);
      assert v == u;
      assert !NotOwnedBy(u.id)(pr);
      assert pr !in Filter(resets, NotOwnedBy(u.id));
    }
    assert issued in after;
  }

  /** Deleting the row a reset redeemed leaves no code of its owner's email
      redeemable, at any time. */
  lemma CodeAfterReset(users: seq<User>, resets: seq<PasswordReset>, c: Collation,
                       m: PasswordReset, owner: User, email: string, h: string, otp: string, now: int)
    requires UniqueEmails(users, c) && OneCodePerUser(resets)
    requires m in resets && owner in users && owner.id == m.userId && Equal(c, owner.email, email)
    ensures FindCode(Replace(users, HasUserId(m.userId), WithHash(h)),
                     Filter(resets, NotReset(m.id)), c, email, otp, now).None?
  {
    var users' := Replace(users, HasUserId(m.userId), WithHash(h));
    forall pr | pr in Filter(resets, NotReset(m.id))
      ensures !Redeemable(users', c, email, otp, now, pr)
    {
      assert pr in resets && pr.id != m.id;
      assert pr.userId != m.userId;
      forall v' | v' in users' && v'.id == pr.userId ensures !Equal(c, v'.email, email) {
        var i :| 0 <= i < |users'| && users'[i] == v';
        assert users[i].id == v'.id && users[i].email == v'.email;
        assert users[i] in users && users[i] != owner;
      }
    }
  }

  /** The owner of a redeemable row is the user its email finds. */
  lemma RedeemedOwner(users: seq<User>, c: Collation, email: string, otp: string, now: int, m: PasswordReset)
    requires UniqueEmails(users, c)
    requires Redeemable(users, c, email, otp, now, m)
    ensures FindUser(users, c, email).Some? && FindUser(users, c, email).value.id == m.userId
  {
    var u :| u in users && u.id == m.userId && Equal(c, u.email, email);
    FindUserUnique(users, c, email, u);
  }

  /** A user found by their email is the only user with that email. */
  lemma FindUserUnique(users: seq<User>, c: Collation, email: string, u: User)
    requires UniqueEmails(users, c)
    requires u in users && Equal(c, u.email, email)
    ensures FindUser(users, c, email) == Some(u)
  {
  }

  /** After the reset, the user that owns the row logs in with the new password. */
  lemma LoginAfterReset(users: seq<User>, c: Collation, email: string, owner: User, h: string)
    requires UniqueEmails(users, c)
    requires Ascending(users, UserId)
    requires owner in users && Equal(c, owner.email, email)
    ensures var users' := Replace(users, HasUserId(owner.id), WithHash(h));
            FindUser(users', c, email) == Some(owner.(passwordHash := h))
  {
    var users' := Replace(users, HasUserId(owner.id), WithHash(h));
    ReplaceKeepsUsers(users, HasUserId(owner.id), h, c);
    var i :| 0 <= i < |users| && users[i] == owner;
    assert users'[i] == owner.(passwordHash := h);
    assert users'[i] in users';
    FindUserUnique(users', c, email, owner.(passwordHash := h));
  }

  /** `signup`'s insert, for an email nobody has: the table stays ordered
      and below the next id, the emails stay unique, and looking the email
      up finds the new user. */
  lemma SignupStep(users: seq<User>, c: Collation, next: nat, user: User)
    requires Ascending(users, UserId) && Below(users, UserId, next) && UniqueEmails(users, c)
    requires !EmailTaken(users, c, user.email) && user.id == next
    ensures var after := users + [user];
      && Ascending(after, UserId) && Below(after, UserId, next + 1) && UniqueEmails(after, c)
      && FindUser(after, c, user.email) == Some(user)
  {
    var after := users + [user];
    forall i, j | 0 <= i < j < |after| ensures UserId(after[i]) < UserId(after[j]) {
      assert after[i] == users[i];
      if j < |users| { assert after[j] == users[j]; }
    }
    forall i | 0 <= i < |after| ensures UserId(after[i]) < next + 1 {
      if i < |users| { assert after[i] == users[i]; }
    }
    forall a, b | a in after && b in after && Equal(c, a.email, b.email) ensures a == b {
      assert a in users || a == user;
      assert b in users || b == user;
    }
    FindUserUnique(after, c, user.email, user);
  }

  /** `forgotPassword`'s two statements on the reset table, for the user `u`
      whose email is `email`: the invariants hold afterwards, `u` has
      exactly the row `issued`, the other users' rows are untouched, and the
      only code that works for `email` is `issued`'s, strictly before it
      expires. */
  lemma ForgotStep(users: seq<User>, resets: seq<PasswordReset>, c: Collation, next: nat,
                   u: User, issued: PasswordReset, email: string)
    requires UniqueEmails(users, c) && u in users && Equal(c, u.email, email)
    requires Ascending(resets, ResetId) && Below(resets, ResetId, next) && OneCodePerUser(resets)
    requires issued.id == next && issued.userId == u.id
    ensures var after := Filter(resets, NotOwnedBy(u.id)) + [issued];
      && Ascending(after, ResetId) && Below(after, ResetId, next + 1) && OneCodePerUser(after)
      && (forall pr | pr in after && pr.userId == u.id :: pr == issued)
      && (forall pr: PasswordReset | pr.userId != u.id :: pr in after <==> pr in resets)
      && (forall otp, t ::
            FindCode(users, after, c, email, otp, t).Some? <==> Equal(c, otp, issued.otp) && t < issued.expiresAt)
  {
    var kept := Filter(resets, NotOwnedBy(u.id));
    var after := kept + [issued];
    FilterAscending(resets, NotOwnedBy(u.id), ResetId);
    FilterBelow(resets, NotOwnedBy(u.id), ResetId, next);
    forall i, j | 0 <= i < j < |after| ensures ResetId(after[i]) < ResetId(after[j]) {
      assert after[i] == kept[i];
      if j < |kept| { assert after[j] == kept[j]; }
    }
    forall i | 0 <= i < |after| ensures ResetId(after[i]) < next + 1 {
      if i < |kept| { assert after[i] == kept[i]; }
    }
    forall a, b | a in after && b in after && a.userId == b.userId ensures a == b {
      assert a in kept || a == issued;
      assert b in kept || b == issued;
    }
    forall otp, t ensures FindCode(users, after, c, email, otp, t).Some?
                          <==> Equal(c, otp, issued.otp) && t < issued.expiresAt
    {
      CodeAfterForgot(users, resets, c, u, issued, email, otp, t);
    }
  }

  /** `resetPassword`'s two statements, for the redeemed row `m` and its
      owner: the invariants hold afterwards, `m` is gone, no code works for
      the owner's email any more, and looking the email up finds the owner
      with the new hash. */
  lemma ResetStep(users: seq<User>, resets: seq<PasswordReset>, c: Collation,
                  nextUserId: nat, nextResetId: nat, m: PasswordReset, owner: User, email: string, h: string)
    requires Consistent(users, resets, nextUserId, nextResetId, c)
    requires m in resets && owner in users && owner.id == m.userId && Equal(c, owner.email, email)
    ensures var users' := Replace(users, HasUserId(m.userId), WithHash(h));
            var resets' := Filter(resets, NotReset(m.id));
      && Consistent(users', resets', nextUserId, nextResetId, c)
      && m !in resets'
      && (forall otp, t :: FindCode(users', resets', c, email, otp, t).None?)
      && FindUser(users', c, email) == Some(owner.(passwordHash := h))
  {
    var users' := Replace(users, HasUserId(m.userId), WithHash(h));
    ReplaceKeepsUsers(users, HasUserId(m.userId), h, c);
    assert Below(users', UserId, nextUserId) by {
      forall i | 0 <= i < |users'| ensures UserId(users'[i]) < nextUserId {
        assert users'[i].id == users[i].id;
      }
    }
    FilterAscending(resets, NotReset(m.id), ResetId);
    FilterBelow(resets, NotReset(m.id), ResetId, nextResetId);
    forall otp, t ensures FindCode(users', Filter(resets, NotReset(m.id)), c, email, otp, t).None? {
      CodeAfterReset(users, resets, c, m, owner, email, h, otp, t);
    }
    LoginAfterReset(users, c, email, owner, h);
  }

  // ---------------------------------------------------------------------
  // The service
  // ---------------------------------------------------------------------

  /** The two tables the workflow owns, with the collation their text columns
      compare under and the hashing and signing collaborators. */
  class AuthService {
    const crypto: Crypto
    const collation: Collation
    var users: seq<User>
    var resets: seq<PasswordReset>
    var nextUserId: nat
    var nextResetId: nat

    ghost predicate Valid()
      reads this
    {
      && crypto.Sound()
      && Consistent(users, resets, nextUserId, nextResetId, collation)
    }

    constructor (crypto: Crypto, collation: Collation)
      requires crypto.Sound()
      ensures Valid()
      ensures this.crypto == crypto && this.collation == collation
      ensures users == [] && resets == []
    {
      this.crypto := crypto;
      this.collation := collation;
      users, resets := [], [];
      nextUserId, nextResetId := 0, 0;
    }

    /** `login`: both fields are required; an unknown email and a wrong
        password fail with the same 401; on success the token carries the
        stored id and email, which are also returned. `issuedAt` is the
        server clock in seconds. */
    function Login(email: string, password: string, issuedAt: int): (r: Result<Session>)
      reads this
      ensures email == "" || password == "" ==> r == Err(MissingCredentials)
      ensures email != "" && password != "" ==>
        (r.Err? <==> r == Err(InvalidCredentials))
      ensures email != "" && password != "" && !EmailTaken(users, collation, email) ==>
        r == Err(InvalidCredentials)
      ensures email != "" && password != "" && EmailTaken(users, collation, email) ==>
        var u := FindUser(users, collation, email).value;
        (r.Ok? <==> crypto.verify(password, u.passwordHash))
      ensures r.Ok? ==>
        exists u | u in users :: && Equal(collation, u.email, email)
                                 && crypto.verify(password, u.passwordHash)
                                 && r.value.userId == u.id && r.value.email == u.email
                                 && r.value.token == crypto.sign(Claims(u.id, u.email, issuedAt, TokenLifetimeSeconds))
    {
      if email == "" || password == "" then Err(MissingCredentials)
      else
        match FindUser(users, collation, email)
        case None => Err(InvalidCredentials)
        case Some(u) =>
          if !crypto.verify(password, u.passwordHash) then Err(InvalidCredentials)
          else
            var token := crypto.sign(Claims(u.id, u.email, issuedAt, TokenLifetimeSeconds));
            Ok(Session(token, u.id, u.email))
    }

    /** `signup`: the errors come in the order missing field, email format,
        password strength, existing email; a failure changes nothing; a
        success appends exactly one user, who can then log in. `salt` is the
        salt `bcrypt.hash` draws. */
    method Signup(email: string, password: string, salt: nat) returns (r: Result<()>)
      requires Valid()
      modifies this
      ensures Valid()
      ensures resets == old(resets) && nextResetId == old(nextResetId)
      ensures email == "" || password == "" ==> r == Err(MissingCredentials)
      ensures email != "" && password != "" && !IsValidEmail(email) ==> r == Err(InvalidEmail)
      ensures email != "" && password != "" && IsValidEmail(email) && !IsStrongPassword(password) ==>
        r == Err(WeakPassword)
      ensures (email != "" && password != "" && IsValidEmail(email) && IsStrongPassword(password)
               && EmailTaken(old(users), collation, email)) ==> r == Err(EmailExists)
      ensures r.Ok? <==> && email != "" && password != "" && IsValidEmail(email)
                         && IsStrongPassword(password) && !EmailTaken(old(users), collation, email)
      ensures r.Err? ==> users == old(users) && nextUserId == old(nextUserId)
      ensures r.Ok? ==> && users == old(users) + [User(old(nextUserId), email, crypto.hash(password, salt))]
                        && nextUserId == old(nextUserId) + 1
      ensures r.Ok? ==> forall t :: Login(email, password, t).Ok? && Login(email, password, t).value.userId == old(nextUserId)
    {
      if email == "" || password == "" {
        return Err(MissingCredentials);
      }
      if !IsValidEmail(email) {
        return Err(InvalidEmail);
      }
      if !IsStrongPassword(password) {
        return Err(WeakPassword);
      }
      var existing := FindUser(users, collation, email);
      if existing.Some? {
        return Err(EmailExists);
      }
      var user := User(nextUserId, email, crypto.hash(password, salt));
      SignupStep(users, collation, nextUserId, user);
      assert crypto.verify(password, user.passwordHash);
      users, nextUserId := users + [user], nextUserId + 1;
      r := Ok(());
    }

    /** `forgotPassword`: an empty email is refused and an unknown one is
        404, both without changes; otherwise the user's old codes are deleted
        and one new code is stored with expiry `now` + 15 minutes. The result
        is the code handed to `sendOtpEmail`. `random` is what `Math.random()`
        returned and `now` the database clock in milliseconds. */
    method ForgotPassword(email: string, random: real, now: int) returns (r: Result<string>)
      requires Valid()
      requires 0.0 <= random < 1.0
      modifies this
      ensures Valid()
      ensures users == old(users) && nextUserId == old(nextUserId)
      ensures email == "" ==> r == Err(EmailRequired)
      ensures email != "" && !EmailTaken(old(users), collation, email) ==> r == Err(EmailNotFound)
      ensures r.Ok? <==> email != "" && EmailTaken(old(users), collation, email)
      ensures r.Err? ==> resets == old(resets) && nextResetId == old(nextResetId)
      ensures r.Ok? ==>
        var u := FindUser(old(users), collation, email).value;
        var issued := PasswordReset(old(nextResetId), u.id, r.value, now + OtpLifetime);
        && r.value == GenerateOtp(random)
        && resets == Filter(old(resets), NotOwnedBy(u.id)) + [issued]
        && nextResetId == old(nextResetId) + 1
        // the user has exactly this one reset row, and other users' rows are untouched
        && (forall pr | pr in resets && pr.userId == u.id :: pr == issued)
        && (forall pr: PasswordReset | pr.userId != u.id :: pr in resets <==> pr in old(resets))
        // the new code works strictly before it expires, no other code works at all
        && (forall otp, t ::
              FindCode(users, resets, collation, email, otp, t).Some? <==> Equal(collation, otp, r.value) && t < now + OtpLifetime)
    {
      if email == "" {
        return Err(EmailRequired);
      }
      var user := FindUser(users, collation, email);
      if user.None? {
        return Err(EmailNotFound);
      }
      var otp := GenerateOtp(random);
      Issue(user.value, email, otp, now + OtpLifetime);
      r := Ok(otp);
    }

    /** `forgotPassword`'s two statements for the user `u` whose email is
        `email`: `DELETE FROM password_resets WHERE user_id` and the insert of
        the new row with code `otp` and expiry `expiresAt`. */
    method Issue(u: User, email: string, otp: string, expiresAt: int)
      requires Valid()
      requires u in users && Equal(collation, u.email, email)
      modifies this
      ensures Valid()
      ensures users == old(users) && nextUserId == old(nextUserId)
      ensures var issued := PasswordReset(old(nextResetId), u.id, otp, expiresAt);
        && resets == Filter(old(resets), NotOwnedBy(u.id)) + [issued]
        && nextResetId == old(nextResetId) + 1
        && (forall pr | pr in resets && pr.userId == u.id :: pr == issued)
        && (forall pr: PasswordReset | pr.userId != u.id :: pr in resets <==> pr in old(resets))
        && (forall code, t ::
              FindCode(users, resets, collation, email, code, t).Some? <==> Equal(collation, code, otp) && t < expiresAt)
    {
      var issued := PasswordReset(nextResetId, u.id, otp, expiresAt);
      ForgotStep(users, resets, collation, nextResetId, u, issued, email);
      resets, nextResetId := Filter(resets, NotOwnedBy(u.id)) + [issued], nextResetId + 1;
    }

    /** `resetPassword`: the errors come in the order missing field, weak new
        password, no redeemable code (one 400 for a wrong email, a wrong code
        and an expired code alike), each without changes. A success sets the
        owner's hash, deletes exactly the redeemed row and nothing else, after
        which the same request fails and the new password logs in. `salt` is
        the salt `bcrypt.hash` draws and `now` the database clock. */
    method ResetPassword(email: string, otp: string, newPassword: string, salt: nat, now: int)
      returns (r: Result<()>)
      requires Valid()
      modifies this
      ensures Valid()
      ensures nextUserId == old(nextUserId) && nextResetId == old(nextResetId)
      ensures email == "" || otp == "" || newPassword == "" ==> r == Err(AllFieldsRequired)
      ensures email != "" && otp != "" && newPassword != "" && !IsStrongPassword(newPassword) ==>
        r == Err(WeakPassword)
      ensures email != "" && otp != "" && newPassword != "" && IsStrongPassword(newPassword) ==>
        && (r.Ok? <==> FindCode(old(users), old(resets), collation, email, otp, now).Some?)
        && (r.Err? ==> r == Err(InvalidOtp))
      ensures r.Err? ==> users == old(users) && resets == old(resets)
      ensures r.Ok? ==>
        var m := FindCode(old(users), old(resets), collation, email, otp, now).value;
        && users == Replace(old(users), HasUserId(m.userId), WithHash(crypto.hash(newPassword, salt)))
        && resets == Filter(old(resets), NotReset(m.id))
        && m !in resets
        // replaying the request, or any other code for this email, now fails
        && (forall otp', t :: FindCode(users, resets, collation, email, otp', t).None?)
        && (forall t :: Login(email, newPassword, t).Ok?)
    {
      if email == "" || otp == "" || newPassword == "" {
        return Err(AllFieldsRequired);
      }
      if !IsStrongPassword(newPassword) {
        return Err(WeakPassword);
      }
      var found := FindCode(users, resets, collation, email, otp, now);
      if found.None? {
        return Err(InvalidOtp);
      }
      var m := found.value;
      RedeemedOwner(users, collation, email, otp, now, m);
      var owner := FindUser(users, collation, email).value;
      var h := crypto.hash(newPassword, salt);
      Redeem(m, owner, email, h);
      assert crypto.verify(newPassword, h);
      forall t ensures Login(email, newPassword, t).Ok? {
        assert EmailTaken(users, collation, email);
      }
      r := Ok(());
    }

    /** The two statements of a successful reset, `UPDATE users SET
        password_hash` for the owner of `m` and `DELETE FROM password_resets`
        of `m` itself. */
    method Redeem(m: PasswordReset, owner: User, email: string, h: string)
      requires Valid()
      requires m in resets && owner in users && owner.id == m.userId && Equal(collation, owner.email, email)
      modifies this
      ensures Valid()
      ensures users == Replace(old(users), HasUserId(m.userId), WithHash(h))
      ensures resets == Filter(old(resets), NotReset(m.id))
      ensures nextUserId == old(nextUserId) && nextResetId == old(nextResetId)
      ensures m !in resets
      ensures forall otp, t :: FindCode(users, resets, collation, email, otp, t).None?
      ensures FindUser(users, collation, email) == Some(owner.(passwordHash := h))
    {
      var users', resets' := Replace(users, HasUserId(m.userId), WithHash(h)), Filter(resets, NotReset(m.id));
      ResetStep(users, resets, collation, nextUserId, nextResetId, m, owner, email, h);
      users, resets := users', resets';
    }
  }

  /** Changing the hash of users keeps their ids and emails, hence the
      invariants on them. */
  lemma ReplaceKeepsUsers(users: seq<User>, p: User -> bool, h: string, c: Collation)
    requires Ascending(users, UserId) && UniqueEmails(users, c)
    ensures var users' := Replace(users, p, WithHash(h));
            && Ascending(users', UserId) && UniqueEmails(users', c)
            && forall i | 0 <= i < |users| :: users'[i].id == users[i].id && users'[i].email == users[i].email
  {
    var users' := Replace(users, p, WithHash(h));
    forall i | 0 <= i < |users| ensures users'[i].id == users[i].id && users'[i].email == users[i].email {
      assert users'[i] == (if p(users[i]) then WithHash(h)(users[i]) else users[i]);
    }
    forall i, j | 0 <= i < j < |users'| ensures UserId(users'[i]) < UserId(users'[j]) {
      assert UserId(users[i]) < UserId(users[j]);
    }
    forall a, b | a in users' && b in users' && Equal(c, a.email, b.email) ensures a == b {
      var i :| 0 <= i < |users'| && users'[i] == a;
      var j :| 0 <= j < |users'| && users'[j] == b;
      assert users[i] in users && users[j] in users;
      assert Equal(c, users[i].email, users[j].email);
      assert users[i] == users[j];
      assert i == j;
    }
  }
}
