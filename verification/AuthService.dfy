/** The admin authentication and user management services: each method updates the two tables as the model says. */
module AuthService {
  import opened Text
  import opened AuthModel

  class AdminAuthService {
    var users: seq<User>
    var tokens: seq<Token>

    ghost function Abs(): State
      reads this
    {
      State(users, tokens)
    }

    constructor (users: seq<User>)
      ensures Abs() == State(users, [])
    {
      this.users := users;
      tokens := [];
    }

    /** findMany for active tokens; callers learn which ids it lists, but not in which order. */
    method FindActive(q: Search, now: nat) returns (order: seq<nat>)
      ensures IsListing(order, tokens, q, now)
    {
      order := [];
      for i := 0 to |tokens|
        invariant forall a, b :: 0 <= a < b < |order| ==> order[a] != order[b]
        invariant forall a :: 0 <= a < |order| ==> order[a] < i && Active(tokens[order[a]], q, now)
        invariant forall k :: 0 <= k < i && Active(tokens[k], q, now) ==> k in order
      {
        if Active(tokens[i], q, now) {
          order := order + [i];
        }
      }
    }

    /** The search loop of submitPasswordChange and submitNewPassword. */
    method FindMatch(order: seq<nat>, input: string) returns (matched: Option<nat>)
      requires InRange(order, tokens)
      ensures matched == FirstMatch(tokens, order, input)
    {
      matched := None;
      var i := 0;
      while i < |order| && matched.None?
        invariant 0 <= i <= |order|
        invariant matched.None? ==> FirstMatch(tokens, order, input) == FirstMatch(tokens, order[i..], input)
        invariant matched.Some? ==> matched == FirstMatch(tokens, order, input)
        decreases |order| - i, matched.None?
      {
        if Compare(input, tokens[order[i]].token) {
          matched := Some(order[i]);
        } else {
          assert order[i..][1..] == order[i + 1..];
          i := i + 1;
        }
      }
    }

    method UpdateMany(w: Where, at: Option<nat>)
      modifies this`tokens
      ensures tokens == UseAll(old(tokens), w, at)
    {
      tokens := UseAll(tokens, w, at);
    }

    method Create(t: Token) returns (id: nat)
      modifies this`tokens
      ensures tokens == old(tokens) + [t] && id == |old(tokens)|
    {
      id := |tokens|;
      tokens := tokens + [t];
    }

    method MarkUsed(id: nat, now: nat)
      requires id < |tokens|
      modifies this`tokens
      ensures tokens == old(tokens)[id := Use(old(tokens)[id], Some(now))]
    {
      tokens := tokens[id := Use(tokens[id], Some(now))];
    }

    method VerifyOldPassword(now: nat, userId: string, oldPassword: string, drawn: string) returns (outcome: Outcome)
      modifies this
      ensures Reply(Abs(), outcome) == old(AuthModel.VerifyOldPassword(Abs(), now, userId, oldPassword, drawn))
    {
      if userId == "" { return Rejected(Unauthorized); }
      if oldPassword == "" { return Rejected(Validation); }
      var u := FindUser(users, userId);
      if u.None? { return Rejected(NotFound); }
      if users[u.value].password.None? { return Rejected(Unauthorized); }
      if !Compare(oldPassword, users[u.value].password.value) { return Rejected(Unauthorized); }
      UpdateMany(Where(userId, PasswordReset, Some(ForChange)), Some(now));
      var id := Create(Token(userId, PasswordReset, Hashed(drawn), now, now + 10 * MINUTE, false, None, 0, Some(ForChange)));
      return Issued(userId, id);
    }

    method SubmitPasswordChange(now: nat, userId: string, changeToken: string, newPassword: string)
      returns (outcome: Outcome, ghost order: seq<nat>)
      modifies this
      ensures IsListing(order, old(tokens), Search(PasswordReset, Some(userId), Some(ForChange)), now)
      ensures Reply(Abs(), outcome) == old(AuthModel.SubmitPasswordChange(Abs(), now, userId, changeToken, newPassword, order))
    {
      var activeTokens := FindActive(Search(PasswordReset, Some(userId), Some(ForChange)), now);
      order := activeTokens;
      if userId == "" { return Rejected(Unauthorized), order; }
      if changeToken == "" { return Rejected(Validation), order; }
      if newPassword == "" { return Rejected(Validation), order; }
      var u := FindUser(users, userId);
      if u.None? { return Rejected(NotFound), order; }
      if users[u.value].password.None? { return Rejected(Unauthorized), order; }
      if Compare(newPassword, users[u.value].password.value) { return Rejected(Validation), order; }
      var matched := FindMatch(activeTokens, changeToken);
      if matched.None? { return Rejected(Validation), order; }
      users := users[u.value := users[u.value].(password := Some(Hashed(newPassword)))];
      MarkUsed(matched.value, now);
      UpdateMany(Where(userId, PasswordReset, Some(ForChange)), Some(now));
      return Consumed(userId, matched.value), order;
    }

    method ForgotPassword(now: nat, email: string, otp: string) returns (outcome: Outcome)
      modifies this
      ensures Reply(Abs(), outcome) == old(AuthModel.ForgotPassword(Abs(), now, email, otp))
    {
      var u := FindEmail(users, email);
      if u.None? { return Ignored; }
      var user := users[u.value];
      if HasRecentOtp(tokens, user.id, now) { return Ignored; }
      var purpose := if user.password.Some? then ForReset else ForWelcome;
      UpdateMany(Where(user.id, Otp, None), Some(now));
      var id := Create(Token(user.id, Otp, Hashed(otp), now, now + 10 * MINUTE, false, None, 0, Some(purpose)));
      return Issued(user.id, id);
    }

    /** The loop that compares the OTP with every active one and counts mismatches until it fits. */
    method MatchOtp(order: seq<nat>, otp: string) returns (matched: Option<nat>)
      requires InRange(order, tokens)
      modifies this`tokens
      ensures matched == FirstMatch(old(tokens), order, otp)
      ensures tokens == CountMismatches(old(tokens), order, otp)
    {
      matched := None;
      var i := 0;
      while i < |order| && matched.None?
        invariant 0 <= i <= |order| && |tokens| == |old(tokens)|
        invariant forall k :: 0 <= k < |tokens| ==> tokens[k].token == old(tokens)[k].token
        invariant matched.None? ==>
                    && CountMismatches(old(tokens), order, otp) == CountMismatches(tokens, order[i..], otp)
                    && FirstMatch(old(tokens), order, otp) == FirstMatch(tokens, order[i..], otp)
        invariant matched.Some? ==>
                    && matched == FirstMatch(old(tokens), order, otp)
                    && tokens == CountMismatches(old(tokens), order, otp)
        decreases |order| - i, matched.None?
      {
        var record := tokens[order[i]];
        if Compare(otp, record.token) {
          matched := Some(order[i]);
        } else {
          ghost var before := tokens;
          tokens := tokens[order[i] := record.(attempts := record.attempts + 1)];
          assert order[i..][1..] == order[i + 1..];
          SameTexts(before, tokens, order[i + 1..], otp);
          i := i + 1;
        }
      }
    }

    method ValidateResetOtp(now: nat, otp: string, drawn: string) returns (outcome: Outcome, ghost order: seq<nat>)
      modifies this
      ensures IsListing(order, old(tokens), Search(Otp, None, None), now)
      ensures Reply(Abs(), outcome) == old(AuthModel.ValidateResetOtp(Abs(), now, otp, drawn, order))
    {
      var activeTokens := FindActive(Search(Otp, None, None), now);
      order := activeTokens;
      var read := tokens;
      var matched := MatchOtp(activeTokens, otp);
      if matched.None? { return Rejected(Validation), order; }
      var record := read[matched.value];
      if record.attempts >= 5 {
        MarkUsed(matched.value, now);
        return Rejected(Validation), order;
      }
      if record.purpose != Some(ForReset) { return Rejected(Validation), order; }
      MarkUsed(matched.value, now);
      UpdateMany(Where(record.userId, PasswordReset, None), Some(now));
      var id := Create(Token(record.userId, PasswordReset, Hashed(drawn), now, now + 10 * MINUTE, false, None, 0, None));
      return Exchanged(record.userId, matched.value, id), order;
    }

    method SubmitNewPassword(now: nat, resetToken: string, newPassword: string) returns (outcome: Outcome, ghost order: seq<nat>)
      modifies this
      ensures IsListing(order, old(tokens), Search(PasswordReset, None, None), now)
      ensures Reply(Abs(), outcome) == old(AuthModel.SubmitNewPassword(Abs(), now, resetToken, newPassword, order))
    {
      var activeTokens := FindActive(Search(PasswordReset, None, None), now);
      order := activeTokens;
      var matched := FindMatch(activeTokens, resetToken);
      if matched.None? { return Rejected(Validation), order; }
      var userId := tokens[matched.value].userId;
      var u := FindUser(users, userId);
      if u.None? { return Rejected(NotFound), order; }
      var user := users[u.value];
      users := users[u.value := user.(password := Some(Hashed(newPassword)),
                                      isActive := if user.password.Some? then user.isActive else true)];
      MarkUsed(matched.value, now);
      UpdateMany(Where(userId, PasswordReset, None), Some(now));
      return Consumed(userId, matched.value), order;
    }

    /** Open login OTPs are used up before the insert, which fails if the text is taken. */
    method CreateLoginOtp(now: nat, userId: string, otp: string) returns (outcome: Outcome)
      modifies this`tokens
      ensures Reply(Abs(), outcome) == old(IssueLoginOtp(Abs(), now, userId, otp))
    {
      UpdateMany(Where(userId, Otp, Some(ForLogin)), None);
      if PlainTaken(tokens, otp) { return Rejected(Conflict); }
      var id := Create(Token(userId, Otp, Plain(otp), now, now + 5 * MINUTE, false, None, 0, Some(ForLogin)));
      return Issued(userId, id);
    }

    method InitiateLogin(now: nat, email: string, password: string, otp: string) returns (outcome: Outcome)
      modifies this
      ensures Reply(Abs(), outcome) == old(AuthModel.InitiateLogin(Abs(), now, email, password, otp))
    {
      var u := FindEmail(users, email);
      if u.None? { return Rejected(NotFound); }
      var user := users[u.value];
      if user.password.None? { return Rejected(Unauthorized); }
      if !Compare(password, user.password.value) { return Rejected(Unauthorized); }
      outcome := CreateLoginOtp(now, user.id, otp);
    }

    method VerifyLogin(now: nat, email: string, otp: string) returns (outcome: Outcome)
      modifies this
      ensures Reply(Abs(), outcome) == old(AuthModel.VerifyLogin(Abs(), now, email, otp))
    {
      var u := FindEmail(users, email);
      if u.None? { return Rejected(NotFound); }
      var found := FindLoginOtp(tokens, users[u.value].id, otp, now);
      if found.None? { return Rejected(Validation); }
      if tokens[found.value].purpose != Some(ForLogin) { return Rejected(Validation); }
      MarkUsed(found.value, now);
      return Consumed(users[u.value].id, found.value);
    }

    method ResendLoginOtp(now: nat, email: string, otp: string) returns (outcome: Outcome)
      modifies this
      ensures Reply(Abs(), outcome) == old(AuthModel.ResendLoginOtp(Abs(), now, email, otp))
    {
      var u := FindEmail(users, email);
      if u.None? { return Rejected(NotFound); }
      var user := users[u.value];
      if user.password.None? { return Rejected(Unauthorized); }
      if HasRecentLoginOtp(tokens, user.id, now) { return Ignored; }
      outcome := CreateLoginOtp(now, user.id, otp);
    }

    method AddUser(now: nat, id: string, email: string, obstacle: Option<Error>, mailReady: bool, otp: string)
      returns (outcome: Outcome)
      modifies this
      ensures Reply(Abs(), outcome) == old(AuthModel.AddUser(Abs(), now, id, email, obstacle, mailReady, otp))
    {
      var existing := FindEmail(users, email);
      if existing.Some? { return Rejected(Conflict); }
      if obstacle.Some? { return Rejected(obstacle.value); }
      var sameId := FindUser(users, id);
      if sameId.Some? { return Rejected(Conflict); }
      users := users + [User(id, email, None, false)];
      if mailReady {
        UpdateMany(Where(id, Otp, None), Some(now));
        var tokenId := Create(Token(id, Otp, Hashed(otp), now, now + 10 * MINUTE, false, None, 0, Some(ForReset)));
        return Issued(id, tokenId);
      }
      return Saved(id);
    }

    method UpdateUser(id: string, email: Option<string>, active: Option<bool>, obstacle: Option<Error>) returns (outcome: Outcome)
      modifies this`users
      ensures Reply(Abs(), outcome) == old(AuthModel.UpdateUser(Abs(), id, email, active, obstacle))
    {
      var existing := FindUser(users, id);
      if existing.None? { return Rejected(NotFound); }
      var user := users[existing.value];
      if email.Some? && email.value != "" && email.value != user.email {
        var byEmail := FindEmail(users, email.value);
        if byEmail.Some? { return Rejected(Conflict); }
      }
      if obstacle.Some? { return Rejected(obstacle.value); }
      if email.Some? {
        if EmailTaken(users, email.value, existing.value) { return Rejected(Conflict); }
        user := user.(email := email.value);
      }
      if active.Some? {
        user := user.(isActive := active.value);
      }
      users := users[existing.value := user];
      return Saved(id);
    }

    method SeedAdminDefaults(id: string, email: string, password: string) returns (outcome: Outcome)
      modifies this`users
      ensures Reply(Abs(), outcome) == old(SeedAdmin(Abs(), id, email, password))
    {
      var existing := FindEmail(users, email);
      if existing.Some? { return Ignored; }
      var sameId := FindUser(users, id);
      if sameId.Some? { return Rejected(Conflict); }
      users := users + [User(id, email, Some(Hashed(password)), true)];
      return Saved(id);
    }
  }
}
