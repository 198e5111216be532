/** What each call answers, told from the rows of the tables, and exactly what it does to each of them. */
module AuthAnswers {
  import opened Text
  import opened AuthModel
  import opened AuthRuns
  import opened AuthPasswords
  import opened AuthFlows

  /** The new row behind the tokens of before. */
  predicate Adds(s: State, s': State, t: Token) {
    |s'.tokens| == |s.tokens| + 1 && s'.tokens[|s.tokens|] == t && s'.users == s.users
  }

  // ----- changing a password

  /** A change token is issued exactly for the right old password; otherwise nothing changes. */
  lemma VerifyOldPasswordAnswers(s: State, now: nat, userId: string, oldPassword: string, drawn: string)
    requires UniqueIds(s.users)
    ensures var r := VerifyOldPassword(s, now, userId, oldPassword, drawn);
            && (r.outcome.Issued? <==> userId != "" && oldPassword != "" && KnowsPassword(s, userId, oldPassword))
            && (r.outcome.Issued? ==>
                  && r.outcome == Issued(userId, |s.tokens|)
                  && Adds(s, r.state, Token(userId, PasswordReset, Hashed(drawn), now, now + 600_000, false, None, 0, Some(ForChange))))
            && (!r.outcome.Issued? ==>
                  r == Reply(s, Rejected(if userId == "" then Unauthorized else if oldPassword == "" then Validation
                                         else if !HasUser(s.users, userId) then NotFound else Unauthorized)))
  {
    hide FindUser, UseAll;
  }

  /** Some token that the search lists was stored for the text. */
  ghost predicate ListsFit(tokens: seq<Token>, q: Search, now: nat, text: string) {
    exists k :: 0 <= k < |tokens| && Active(tokens[k], q, now) && tokens[k].token == Hashed(text)
  }

  lemma SubmitPasswordChangeAnswers(
    s: State, now: nat, userId: string, changeToken: string, newPassword: string, order: seq<nat>)
    requires UniqueIds(s.users) && IsListing(order, s.tokens, ChangeTokensOf(userId), now)
    ensures var r := SubmitPasswordChange(s, now, userId, changeToken, newPassword, order);
            && (r.outcome.Consumed? <==>
                  && userId != "" && changeToken != "" && newPassword != ""
                  && (exists u :: 0 <= u < |s.users| && s.users[u].id == userId && s.users[u].password.Some?)
                  && !KnowsPassword(s, userId, newPassword) && ListsFit(s.tokens, ChangeTokensOf(userId), now, changeToken))
            && (r.outcome.Consumed? ==> |r.state.tokens| == |s.tokens|)
            && (!r.outcome.Consumed? ==>
                  r == Reply(s, Rejected(
                    if userId == "" then Unauthorized else if changeToken == "" || newPassword == "" then Validation
                    else if !HasUser(s.users, userId) then NotFound
                    else if exists u :: 0 <= u < |s.users| && s.users[u].id == userId && s.users[u].password.None? then Unauthorized
                    else Validation)))
  {
    hide FindUser, UseAll, FirstMatch;
  }

  // ----- resetting a password

  /**
   An OTP is sent exactly if somebody has the e-mail and was sent no OTP for a minute. It is for a
   reset if that user has a password, and a WELCOME otherwise.
   */
  lemma ForgotPasswordAnswers(s: State, now: nat, email: string, otp: string, u: nat)
    requires UniqueEmails(s.users)
    ensures (forall v :: 0 <= v < |s.users| ==> s.users[v].email != email) ==> ForgotPassword(s, now, email, otp) == Reply(s, Ignored)
    ensures u < |s.users| && s.users[u].email == email ==>
              var r, user := ForgotPassword(s, now, email, otp), s.users[u];
              if exists k :: 0 <= k < |s.tokens| && s.tokens[k].userId == user.id && s.tokens[k].kind == Otp && s.tokens[k].createdAt + 60_000 > now
              then r == Reply(s, Ignored)
              else
                && r.outcome == Issued(user.id, |s.tokens|)
                && Adds(s, r.state, Token(user.id, Otp, Hashed(otp), now, now + 600_000, false, None, 0,
                                          Some(if user.password.None? then ForWelcome else ForReset)))
  {
    hide FindEmail, UseAll;
  }

  /** A refused OTP leaves the users alone and the answer does not tell why; an accepted one adds a reset token. */
  lemma ValidateResetOtpAnswers(s: State, now: nat, otp: string, drawn: string, order: seq<nat>)
    requires IsListing(order, s.tokens, OTPS, now)
    ensures var r := ValidateResetOtp(s, now, otp, drawn, order);
            if r.outcome.Exchanged?
            then
              && r.outcome.id == |s.tokens|
              && Adds(s, r.state, Token(r.outcome.userId, PasswordReset, Hashed(drawn), now, now + 600_000, false, None, 0, None))
            else r.outcome == Rejected(Validation) && r.state.users == s.users && |r.state.tokens| == |s.tokens|
  {
    hide FirstMatch, CountMismatches, UseAll;
  }

  lemma SubmitNewPasswordAnswers(s: State, now: nat, resetToken: string, newPassword: string, order: seq<nat>)
    requires TableInvariant(s) && IsListing(order, s.tokens, RESET_TOKENS, now)
    ensures var r := SubmitNewPassword(s, now, resetToken, newPassword, order);
            && (r.outcome.Consumed? <==> ListsFit(s.tokens, RESET_TOKENS, now, resetToken))
            && (r.outcome.Consumed? ==> |r.state.tokens| == |s.tokens|)
            && (!r.outcome.Consumed? ==> r == Reply(s, Rejected(Validation)))
  {
    hide FirstMatch, UseAll, FindUser, OneOpen, PlainOnce, UniqueIds, UniqueEmails;
    var matched := FirstMatch(s.tokens, order, resetToken);
    if matched.Some? {
      assert HasUser(s.users, s.tokens[matched.value].userId);
    }
  }

  // ----- logging in

  /** The answer to a login of user u, once the password has been accepted. */
  ghost predicate SendsOrConflicts(s: State, now: nat, r: Reply, userId: string, otp: string) {
    if exists k :: 0 <= k < |s.tokens| && s.tokens[k].token == Plain(otp)
    then r.outcome == Rejected(Conflict) && r.state.users == s.users && |r.state.tokens| == |s.tokens|
    else
      && r.outcome == Issued(userId, |s.tokens|)
      && Adds(s, r.state, Token(userId, Otp, Plain(otp), now, now + 300_000, false, None, 0, Some(ForLogin)))
  }

  lemma IssueLoginOtpAnswers(s: State, now: nat, userId: string, otp: string)
    ensures SendsOrConflicts(s, now, IssueLoginOtp(s, now, userId, otp), userId, otp)
  {
    hide UseAll;
    UseAllKeepsTexts(s.tokens, Where(userId, Otp, Some(ForLogin)), None, otp);
  }

  lemma InitiateLoginAnswers(s: State, now: nat, email: string, password: string, otp: string, u: nat)
    requires UniqueEmails(s.users)
    ensures (forall v :: 0 <= v < |s.users| ==> s.users[v].email != email) ==>
              InitiateLogin(s, now, email, password, otp) == Reply(s, Rejected(NotFound))
    ensures u < |s.users| && s.users[u].email == email ==>
              var r := InitiateLogin(s, now, email, password, otp);
              if s.users[u].password == Some(Hashed(password)) then SendsOrConflicts(s, now, r, s.users[u].id, otp)
              else r == Reply(s, Rejected(Unauthorized))
  {
    hide FindEmail, IssueLoginOtp, SendsOrConflicts;
    if u < |s.users| {
      IssueLoginOtpAnswers(s, now, s.users[u].id, otp);
    }
  }

  lemma VerifyLoginAnswers(s: State, now: nat, email: string, otp: string, u: nat)
    requires TableInvariant(s)
    ensures (forall v :: 0 <= v < |s.users| ==> s.users[v].email != email) ==>
              VerifyLogin(s, now, email, otp) == Reply(s, Rejected(NotFound))
    ensures u < |s.users| && s.users[u].email == email ==>
              var r := VerifyLogin(s, now, email, otp);
              && (r.outcome.Consumed? <==>
                    exists k :: 0 <= k < |s.tokens| && s.tokens[k].userId == s.users[u].id && s.tokens[k].token == Plain(otp)
                                && !s.tokens[k].isUsed && s.tokens[k].expiresAt > now)
              && (r.outcome.Consumed? ==> r.state.users == s.users && |r.state.tokens| == |s.tokens|)
              && (!r.outcome.Consumed? ==> r == Reply(s, Rejected(Validation)))
  {
    hide FindEmail, FindLoginOtp, OneOpen, UniqueIds, HasUser;
    if u < |s.users| && s.users[u].email == email {
      var found := FindLoginOtp(s.tokens, s.users[u].id, otp, now);
      if k :| 0 <= k < |s.tokens| && s.tokens[k].userId == s.users[u].id && s.tokens[k].token == Plain(otp)
              && !s.tokens[k].isUsed && s.tokens[k].expiresAt > now {
        assert ClassOf(s.tokens[k]) == LoginOtp;
        assert IsLoginCandidate(s.tokens[k], s.users[u].id, otp, now);
      }
    }
  }

  /** A login OTP is sent again exactly if the user has a password and no unused one that is younger than a minute. */
  lemma ResendLoginOtpAnswers(s: State, now: nat, email: string, otp: string, u: nat)
    requires UniqueEmails(s.users)
    ensures (forall v :: 0 <= v < |s.users| ==> s.users[v].email != email) ==>
              ResendLoginOtp(s, now, email, otp) == Reply(s, Rejected(NotFound))
    ensures u < |s.users| && s.users[u].email == email ==>
              var r, user := ResendLoginOtp(s, now, email, otp), s.users[u];
              if user.password.None? then r == Reply(s, Rejected(Unauthorized))
              else if exists k :: 0 <= k < |s.tokens| && Open(s.tokens[k], user.id, LoginOtp) && s.tokens[k].createdAt + 60_000 > now
              then r == Reply(s, Ignored)
              else SendsOrConflicts(s, now, r, user.id, otp)
  {
    hide FindEmail, IssueLoginOtp, SendsOrConflicts;
    if u < |s.users| {
      IssueLoginOtpAnswers(s, now, s.users[u].id, otp);
    }
  }

  // ----- what a call does to the tokens that are there

  /** The call with this outcome uses up token k, which is unused. */
  ghost predicate UsesUp(s: State, c: Call, o: Outcome, k: nat)
    requires k < |s.tokens|
  {
    var t := s.tokens[k];
    match c
    case CallVerifyOldPassword(userId, _, _) => o.Issued? && Open(t, userId, ChangeToken)
    case CallSubmitPasswordChange(userId, _, _, _) => o.Consumed? && Open(t, userId, ChangeToken)
    case CallForgotPassword(_, _) => o.Issued? && t.userId == o.userId && t.kind == Otp
    case CallValidateResetOtp(otp, _, order) =>
      || (o.Exchanged? && (k == o.consumed || (t.userId == o.userId && t.kind == PasswordReset)))
      || (o.Rejected? && t.attempts >= 5 && t.token == Hashed(otp) && k in order
          && InRange(order, s.tokens) && NoneBefore(s.tokens, order, otp, k))
    case CallSubmitNewPassword(_, _, _) => o.Consumed? && t.userId == o.userId && t.kind == PasswordReset
    case CallInitiateLogin(email, _, _) => (o.Issued? || o == Rejected(Conflict)) && OwnsLoginOtp(s, email, t)
    case CallVerifyLogin(_, _) => o.Consumed? && k == o.consumed
    case CallResendLoginOtp(email, _) => (o.Issued? || o == Rejected(Conflict)) && OwnsLoginOtp(s, email, t)
    case _ => false
  }

  ghost predicate OwnsLoginOtp(s: State, email: string, t: Token) {
    ClassOf(t) == LoginOtp && exists u :: 0 <= u < |s.users| && s.users[u].email == email && s.users[u].id == t.userId
  }

  /** What a call makes of token k: an unused one may be used up, and only attempts may change besides. */
  ghost predicate Becomes(s: State, now: nat, c: Call, k: nat)
    requires Sees(s, now, c) && k < |s.tokens|
  {
    var r := Step(s, now, c);
    var used := !s.tokens[k].isUsed && UsesUp(s, c, r.outcome, k);
    var login := c.CallInitiateLogin? || c.CallResendLoginOtp?;
    && k < |r.state.tokens|
    && r.state.tokens[k] == s.tokens[k].(isUsed := s.tokens[k].isUsed || used, attempts := r.state.tokens[k].attempts,
                                         usedAt := if used && !login then Some(now) else s.tokens[k].usedAt)
  }

  lemma BecomesAfterValidate(s: State, now: nat, c: Call, k: nat)
    requires Sees(s, now, c) && k < |s.tokens| && c.CallValidateResetOtp?
    ensures Becomes(s, now, c, k)
  {
    hide FirstMatch, CountMismatches, NoneBefore;
    CountsExactly(s.tokens, c.order, c.otp, k);
    var matched := FirstMatch(s.tokens, c.order, c.otp);
    if s.tokens[k].token == Hashed(c.otp) {
      FirstMatchIff(s.tokens, c.order, c.otp, k);
    }
    if matched.Some? {
      CountsExactly(s.tokens, c.order, c.otp, matched.value);
    }
  }

  lemma BecomesAfterSubmit(s: State, now: nat, c: Call, k: nat)
    requires Sees(s, now, c) && k < |s.tokens| && (c.CallSubmitPasswordChange? || c.CallSubmitNewPassword?)
    ensures Becomes(s, now, c, k)
  {
    hide FirstMatch, FindUser;
  }

  lemma BecomesAfterLogin(s: State, now: nat, c: Call, k: nat)
    requires Sees(s, now, c) && UniqueEmails(s.users) && k < |s.tokens| && (c.CallInitiateLogin? || c.CallResendLoginOtp?)
    ensures Becomes(s, now, c, k)
  {
    hide FindEmail;
  }

  lemma BecomesAfterOthers(s: State, now: nat, c: Call, k: nat)
    requires Sees(s, now, c) && TableInvariant(s) && k < |s.tokens| && !c.CallValidateResetOtp?
    requires !c.CallSubmitPasswordChange? && !c.CallSubmitNewPassword? && !c.CallInitiateLogin? && !c.CallResendLoginOtp?
    ensures Becomes(s, now, c, k)
  {
    hide FindUser, FindEmail, FindLoginOtp, OneOpen, PlainOnce, UniqueIds, UniqueEmails;
    assert HasUser(s.users, s.tokens[k].userId);
  }

  /**
   Exactly which tokens a call uses up, and when: the open ones of its class and owner, or the one it
   accepts. Everything but attempts stays as it is, and logins do not note the time of an invalidation.
   */
  lemma TokensAfter(s: State, now: nat, c: Call, k: nat)
    requires Sees(s, now, c) && TableInvariant(s) && k < |s.tokens|
    ensures Becomes(s, now, c, k)
  {
    hide Becomes;
    if c.CallValidateResetOtp? {
      BecomesAfterValidate(s, now, c, k);
    } else if c.CallSubmitPasswordChange? || c.CallSubmitNewPassword? {
      BecomesAfterSubmit(s, now, c, k);
    } else if c.CallInitiateLogin? || c.CallResendLoginOtp? {
      BecomesAfterLogin(s, now, c, k);
    } else {
      BecomesAfterOthers(s, now, c, k);
    }
  }
}
