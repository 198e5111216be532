/**
 Exactly when the calls of the token protocol succeed over whole runs, whatever other calls come in
 between, and what they achieve together.
 */
module AuthFlows {
  import opened Text
  import opened AuthModel
  import opened AuthPasswords
  import opened AuthRuns

  const RESET_TOKENS := Search(PasswordReset, None, None)
  const OTPS := Search(Otp, None, None)

  // ----- the search loops

  /** No token that is listed before token k fits the text. */
  ghost predicate NoneBefore(tokens: seq<Token>, order: seq<nat>, text: string, k: nat)
    requires InRange(order, tokens)
  {
    forall p, q :: 0 <= p < q < |order| && order[q] == k ==> !Compare(text, tokens[order[p]].token)
  }

  /** Token k is listed, and the loop passes it without a match. */
  ghost predicate IsPassed(tokens: seq<Token>, order: seq<nat>, text: string, k: nat)
    requires InRange(order, tokens) && k < |tokens|
  {
    k in order && NoneBefore(tokens, order, text, k) && !Compare(text, tokens[k].token)
  }

  /** A submitted OTP, right or wrong, is held exactly against the tokens that are passed, whoever they belong to. */
  lemma {:induction false} CountsExactly(tokens: seq<Token>, order: seq<nat>, input: string, k: nat)
    requires InRange(order, tokens) && k < |tokens|
    requires forall i, j :: 0 <= i < j < |order| ==> order[i] != order[j]
    ensures CountMismatches(tokens, order, input)[k]
         == if IsPassed(tokens, order, input, k) then tokens[k].(attempts := tokens[k].attempts + 1) else tokens[k]
    decreases |order|
  {
    if order != [] {
      var first, rest := order[0], order[1..];
      if Compare(input, tokens[first].token) {
        if q :| 0 < q < |order| && order[q] == k {
          assert order[0] == first;
        }
      } else {
        var counted := tokens[first := tokens[first].(attempts := tokens[first].attempts + 1)];
        CountsExactly(counted, rest, input, k);
        PassedInRest(tokens, counted, order, input, k);
      }
    }
  }

  lemma PassedInRest(tokens: seq<Token>, counted: seq<Token>, order: seq<nat>, input: string, k: nat)
    requires InRange(order, tokens) && k < |tokens| == |counted| && order != [] && !Compare(input, tokens[order[0]].token)
    requires forall i, j :: 0 <= i < j < |order| ==> order[i] != order[j]
    requires forall i :: 0 <= i < |tokens| ==> counted[i].token == tokens[i].token
    ensures IsPassed(tokens, order, input, k) <==> k == order[0] || IsPassed(counted, order[1..], input, k)
    ensures k == order[0] ==> !IsPassed(counted, order[1..], input, k)
  {
    var rest := order[1..];
    assert k in order <==> k == order[0] || k in rest;
    if NoneBefore(counted, rest, input, k) {
      forall p, q | 0 <= p < q < |order| && order[q] == k
        ensures !Compare(input, tokens[order[p]].token)
      {
        if p > 0 {
          assert rest[q - 1] == k && rest[p - 1] == order[p];
        }
      }
    }
    if NoneBefore(tokens, order, input, k) {
      forall p, q | 0 <= p < q < |rest| && rest[q] == k
        ensures !Compare(input, counted[rest[p]].token)
      {
        assert order[q + 1] == k && order[p + 1] == rest[p];
      }
    }
  }

  /** A wrong OTP is held against every active OTP of every user. */
  lemma WrongOtpCountsEverywhere(tokens: seq<Token>, order: seq<nat>, input: string, k: nat)
    requires InRange(order, tokens) && k < |tokens|
    requires forall i, j :: 0 <= i < j < |order| ==> order[i] != order[j]
    requires FirstMatch(tokens, order, input) == None
    ensures CountMismatches(tokens, order, input)[k]
         == if k in order then tokens[k].(attempts := tokens[k].attempts + 1) else tokens[k]
  {
    hide FirstMatch, CountMismatches;
    CountsExactly(tokens, order, input, k);
  }

  /** And so is a right one that another token is found for: whichever OTP the database lists first is counted. */
  lemma RightOtpCanCount(s: State, now: nat, otp: string, drawn: string, k: nat) returns (order: seq<nat>)
    requires k < |s.tokens| && Active(s.tokens[k], OTPS, now) && !Compare(otp, s.tokens[k].token)
    ensures IsListing(order, s.tokens, OTPS, now)
    ensures var tokens := ValidateResetOtp(s, now, otp, drawn, order).state.tokens;
            k < |tokens| && tokens[k].attempts == s.tokens[k].attempts + 1
  {
    hide FirstMatch, CountMismatches;
    order := ListingFrom(s.tokens, OTPS, now, [k]);
    assert order[0] == k;
    assert IsPassed(s.tokens, order, otp, k);
    CountsExactly(s.tokens, order, otp, k);
  }

  /** The loop finds token k exactly if it is listed, fits, and nothing before it does. */
  lemma {:induction false} FirstMatchIff(tokens: seq<Token>, order: seq<nat>, text: string, k: nat)
    requires InRange(order, tokens) && k < |tokens| && Compare(text, tokens[k].token)
    requires forall i, j :: 0 <= i < j < |order| ==> order[i] != order[j]
    ensures FirstMatch(tokens, order, text) == Some(k) <==> k in order && NoneBefore(tokens, order, text, k)
    decreases |order|
  {
    if order != [] {
      var first, rest := order[0], order[1..];
      assert k in order <==> k == first || k in rest;
      if Compare(text, tokens[first].token) {
        if q :| 0 < q < |order| && order[q] == k {
          assert order[0] == first;
        }
      } else {
        FirstMatchIff(tokens, rest, text, k);
        NoneBeforeInRest(tokens, order, text, k);
      }
    }
  }

  lemma NoneBeforeInRest(tokens: seq<Token>, order: seq<nat>, text: string, k: nat)
    requires InRange(order, tokens) && order != [] && order[0] != k && !Compare(text, tokens[order[0]].token)
    ensures NoneBefore(tokens, order, text, k) <==> NoneBefore(tokens, order[1..], text, k)
  {
    var rest := order[1..];
    if NoneBefore(tokens, rest, text, k) {
      forall p, q | 0 <= p < q < |order| && order[q] == k
        ensures !Compare(text, tokens[order[p]].token)
      {
        if p > 0 {
          assert rest[q - 1] == k && rest[p - 1] == order[p];
        }
      }
    }
    if NoneBefore(tokens, order, text, k) {
      forall p, q | 0 <= p < q < |rest| && rest[q] == k
        ensures !Compare(text, tokens[rest[p]].token)
      {
        assert order[q + 1] == k && order[p + 1] == rest[p];
      }
    }
  }

  /** submitNewPassword succeeds exactly when some active token was stored for the submitted text. */
  lemma SubmitNewPasswordIff(s: State, now: nat, resetToken: string, newPassword: string, order: seq<nat>)
    requires TableInvariant(s) && IsListing(order, s.tokens, RESET_TOKENS, now)
    ensures SubmitNewPassword(s, now, resetToken, newPassword, order).outcome.Consumed?
       <==> exists k :: 0 <= k < |s.tokens| && Active(s.tokens[k], RESET_TOKENS, now) && Compare(resetToken, s.tokens[k].token)
  {
  }

  /** At most one token can be the match of verifyLogin, so the database has no choice there. */
  lemma LoginMatchIsUnique(s: State, userId: string, otp: string, now: nat, i: nat, j: nat)
    requires TableInvariant(s) && i < |s.tokens| && j < |s.tokens|
    requires IsLoginCandidate(s.tokens[i], userId, otp, now) && IsLoginCandidate(s.tokens[j], userId, otp, now)
    ensures i == j
  {
  }

  // ----- who fits

  /** The text differs from that of every other active token of the search. */
  ghost predicate OnlyFits(text: string, k: nat, tokens: seq<Token>, q: Search, now: nat) {
    forall i :: 0 <= i < |tokens| && Active(tokens[i], q, now) && Compare(text, tokens[i].token) ==> i == k
  }

  /** However the database lists the tokens, nothing that fits comes before token k exactly if nothing else fits. */
  lemma NoneBeforeCertain(tokens: seq<Token>, q: Search, now: nat, text: string, k: nat)
    requires k < |tokens| && Active(tokens[k], q, now)
    ensures (forall order :: IsListing(order, tokens, q, now) ==> NoneBefore(tokens, order, text, k))
       <==> OnlyFits(text, k, tokens, q, now)
  {
    if i :| 0 <= i < |tokens| && i != k && Active(tokens[i], q, now) && Compare(text, tokens[i].token) {
      var order := ListingFrom(tokens, q, now, [i]);
      var p :| 0 <= p < |order| && order[p] == k;
      assert order[0] == i && !NoneBefore(tokens, order, text, k);
    }
  }

  lemma ListedMatch(tokens: seq<Token>, order: seq<nat>, q: Search, now: nat, text: string, k: nat)
    requires IsListing(order, tokens, q, now) && k < |tokens| && Active(tokens[k], q, now) && Compare(text, tokens[k].token)
    ensures FirstMatch(tokens, order, text) == Some(k) <==> NoneBefore(tokens, order, text, k)
  {
    FirstMatchIff(tokens, order, text, k);
  }

  // ----- one step, exactly

  /** The OTP in row k, still alive, is exchanged exactly if it is for a reset, unused, not locked, and found first. */
  lemma ExchangeIff(s: State, now: nat, otp: string, drawn: string, order: seq<nat>, k: nat)
    requires IsListing(order, s.tokens, OTPS, now) && k < |s.tokens|
    requires s.tokens[k].kind == Otp && s.tokens[k].token == Hashed(otp) && now < s.tokens[k].expiresAt
    ensures var o, t := ValidateResetOtp(s, now, otp, drawn, order).outcome, s.tokens[k];
            && (Consumes(o, k) <==>
                  t.purpose == Some(ForReset) && !t.isUsed && t.attempts < 5 && NoneBefore(s.tokens, order, otp, k))
            && (Consumes(o, k) ==> o == Exchanged(t.userId, k, |s.tokens|))
  {
    hide FirstMatch, CountMismatches, UseAll, NoneBefore;
    if !s.tokens[k].isUsed {
      ListedMatch(s.tokens, order, OTPS, now, otp, k);
    }
  }

  /** In whatever order the database lists the OTPs, this one is exchanged exactly if moreover no other active one has its text. */
  lemma ExchangeCertainIff(s: State, now: nat, otp: string, drawn: string, k: nat)
    requires k < |s.tokens| && s.tokens[k].kind == Otp && s.tokens[k].token == Hashed(otp) && now < s.tokens[k].expiresAt
    ensures (forall order :: IsListing(order, s.tokens, OTPS, now) ==> Consumes(ValidateResetOtp(s, now, otp, drawn, order).outcome, k))
       <==> && s.tokens[k].purpose == Some(ForReset) && !s.tokens[k].isUsed && s.tokens[k].attempts < 5
            && OnlyFits(otp, k, s.tokens, OTPS, now)
  {
    hide ValidateResetOtp, NoneBefore, OnlyFits, IsListing;
    forall order | IsListing(order, s.tokens, OTPS, now)
      ensures InRange(order, s.tokens)
      ensures Consumes(ValidateResetOtp(s, now, otp, drawn, order).outcome, k) <==>
                && s.tokens[k].purpose == Some(ForReset) && !s.tokens[k].isUsed && s.tokens[k].attempts < 5
                && NoneBefore(s.tokens, order, otp, k)
    {
      ListingInRange(order, s.tokens, OTPS, now);
      ExchangeIff(s, now, otp, drawn, order, k);
    }
    var some := ListingFrom(s.tokens, OTPS, now, []);
    if !s.tokens[k].isUsed {
      NoneBeforeCertain(s.tokens, OTPS, now, otp, k);
    }
  }

  lemma ListingInRange(order: seq<nat>, tokens: seq<Token>, q: Search, now: nat)
    requires IsListing(order, tokens, q, now)
    ensures InRange(order, tokens)
  {
  }

  /** The reset token in row k, still alive, sets its owner's password and nothing else exactly if it is unused and found first. */
  lemma NewPasswordIff(s: State, now: nat, resetToken: string, newPassword: string, order: seq<nat>, k: nat, u: nat)
    requires TableInvariant(s) && IsListing(order, s.tokens, RESET_TOKENS, now) && k < |s.tokens|
    requires s.tokens[k].kind == PasswordReset && s.tokens[k].token == Hashed(resetToken) && now < s.tokens[k].expiresAt
    requires u < |s.users| && s.users[u].id == s.tokens[k].userId
    ensures var r := SubmitNewPassword(s, now, resetToken, newPassword, order);
            && (Consumes(r.outcome, k) <==> !s.tokens[k].isUsed && NoneBefore(s.tokens, order, resetToken, k))
            && (Consumes(r.outcome, k) ==>
                  && r.outcome == Consumed(s.users[u].id, k)
                  && r.state.users == s.users[u := s.users[u].(password := Some(Hashed(newPassword)),
                                                               isActive := s.users[u].password.None? || s.users[u].isActive)])
  {
    hide FirstMatch, UseAll, OneOpen, PlainOnce, UniqueEmails, HasUser, NoneBefore;
    assert FindUser(s.users, s.users[u].id) == Some(u);
    if !s.tokens[k].isUsed {
      ListedMatch(s.tokens, order, RESET_TOKENS, now, resetToken, k);
    }
  }

  function ChangeTokensOf(userId: string): Search {
    Search(PasswordReset, Some(userId), Some(ForChange))
  }

  /** The change token in row k, still alive, sets a different password exactly if it is unused, both texts are given, and it is found first. */
  lemma PasswordChangeIff(s: State, now: nat, changeToken: string, newPassword: string, order: seq<nat>, k: nat, u: nat)
    requires TableInvariant(s) && u < |s.users| && k < |s.tokens| && s.users[u].id == s.tokens[k].userId
    requires IsListing(order, s.tokens, ChangeTokensOf(s.users[u].id), now)
    requires ClassOf(s.tokens[k]) == ChangeToken && s.tokens[k].token == Hashed(changeToken) && now < s.tokens[k].expiresAt
    requires s.users[u].id != "" && s.users[u].password.Some?
    ensures var r := SubmitPasswordChange(s, now, s.users[u].id, changeToken, newPassword, order);
            && (Consumes(r.outcome, k) <==>
                  && !s.tokens[k].isUsed && changeToken != "" && newPassword != ""
                  && s.users[u].password != Some(Hashed(newPassword)))
            && (Consumes(r.outcome, k) ==>
                  && r.outcome == Consumed(s.users[u].id, k)
                  && r.state.users == s.users[u := s.users[u].(password := Some(Hashed(newPassword)))])
  {
    hide FirstMatch, UseAll, PlainOnce, UniqueEmails, HasUser, NoneBefore;
    assert FindUser(s.users, s.users[u].id) == Some(u);
    if !s.tokens[k].isUsed {
      OnlyChangeToken(s, now, order, changeToken, k, u);
      ListedMatch(s.tokens, order, ChangeTokensOf(s.users[u].id), now, changeToken, k);
    }
  }

  /** A user has at most one open change token, so nothing comes before it. */
  lemma OnlyChangeToken(s: State, now: nat, order: seq<nat>, text: string, k: nat, u: nat)
    requires OneOpen(s.tokens) && u < |s.users| && k < |s.tokens| && s.users[u].id == s.tokens[k].userId
    requires ClassOf(s.tokens[k]) == ChangeToken && !s.tokens[k].isUsed
    requires IsListing(order, s.tokens, ChangeTokensOf(s.users[u].id), now)
    ensures NoneBefore(s.tokens, order, text, k)
  {
  }

  /** The login OTP in row k, still alive, opens the login exactly if it is unused and the e-mail is that of its owner. */
  lemma LoginIff(s: State, now: nat, email: string, otp: string, k: nat)
    requires TableInvariant(s) && k < |s.tokens|
    requires ClassOf(s.tokens[k]) == LoginOtp && s.tokens[k].token == Plain(otp) && now < s.tokens[k].expiresAt
    ensures var o, u := VerifyLogin(s, now, email, otp).outcome, FindEmail(s.users, email);
            && (o.Consumed? <==> !s.tokens[k].isUsed && u.Some? && s.users[u.value].id == s.tokens[k].userId)
            && (o.Consumed? ==> o == Consumed(s.tokens[k].userId, k))
  {
    hide FindLoginOtp, FindEmail, OneOpen, UniqueIds, UniqueEmails, HasUser;
    var u := FindEmail(s.users, email);
    if u.Some? && s.users[u.value].id == s.tokens[k].userId && !s.tokens[k].isUsed {
      assert IsLoginCandidate(s.tokens[k], s.users[u.value].id, otp, now);
    }
  }

  // ----- over runs, whatever comes in between

  /** The user who is sent an OTP has a password, or has just been added. */
  ghost predicate SentForReset(s: State, e: Entry)
    requires e.outcome.Issued?
  {
    e.call.CallAddUser? || exists v :: 0 <= v < |s.users| && s.users[v].id == e.outcome.userId && s.users[v].password.Some?
  }

  lemma SentPurpose(r: Run, i: nat, j: nat)
    requires IsRun(r) && i < j <= |r.trace| && r.trace[i].outcome.Issued?
    requires r.trace[i].call.CallForgotPassword? || r.trace[i].call.CallAddUser?
    ensures r.trace[i].outcome.id < |r.states[j].tokens|
    ensures r.states[j].tokens[r.trace[i].outcome.id].purpose == Some(ForReset) <==> SentForReset(r.states[i], r.trace[i])
  {
    hide Step, Sees;
    var k := IssuedStays(r, i, j);
    var s, e := r.states[i], r.trace[i];
    if e.call.CallForgotPassword? {
      assert IsStep(s, e, r.states[i + 1]);
      OutcomeNamesNewToken(s, e.now, e.call);
      LaterAlong(r, i + 1, j);
      assert Aged(r.states[i + 1].tokens[k], r.states[j].tokens[k]);
      InvariantAlong(r, i);
      var v := IssuerIndex(s, e.now, e.call);
      IssuerHadPassword(s, e.now, e.call, v);
    }
  }

  // ----- how often an OTP is counted

  /** Entry m of a run passes token k in the loop of validateResetOtp. */
  ghost predicate CountsAgainst(r: Run, m: nat, k: nat)
    requires m < |r.trace| < |r.states|
  {
    && r.trace[m].call.CallValidateResetOtp? && InRange(r.trace[m].call.order, r.states[m].tokens) && k < |r.states[m].tokens|
    && IsPassed(r.states[m].tokens, r.trace[m].call.order, r.trace[m].call.otp, k)
  }

  ghost function TimesCounted(r: Run, i: nat, j: nat, k: nat): nat
    requires i <= j <= |r.trace| < |r.states|
    decreases j
  {
    if i == j then 0 else TimesCounted(r, i, j - 1, k) + if CountsAgainst(r, j - 1, k) then 1 else 0
  }

  lemma StepCounts(s: State, now: nat, c: Call, k: nat)
    requires Sees(s, now, c) && k < |s.tokens|
    ensures k < |Step(s, now, c).state.tokens|
    ensures !c.CallValidateResetOtp? ==> Step(s, now, c).state.tokens[k].attempts == s.tokens[k].attempts
    ensures c.CallValidateResetOtp? ==>
              && InRange(c.order, s.tokens)
              && Step(s, now, c).state.tokens[k].attempts
                 == s.tokens[k].attempts + if IsPassed(s.tokens, c.order, c.otp, k) then 1 else 0
  {
    hide FirstMatch, CountMismatches, FindUser, FindEmail, FindLoginOtp, Matches, IsPassed;
    if c.CallValidateResetOtp? {
      CountsExactly(s.tokens, c.order, c.otp, k);
    }
  }

  /** The attempts of a token are exactly the submitted OTPs, right or wrong and by anybody, that passed it. */
  lemma {:induction false} AttemptsAddUp(r: Run, i: nat, j: nat, k: nat)
    requires IsRun(r) && i <= j <= |r.trace| && k < |r.states[i].tokens|
    ensures k < |r.states[j].tokens|
    ensures r.states[j].tokens[k].attempts == r.states[i].tokens[k].attempts + TimesCounted(r, i, j, k)
    decreases j
  {
    hide Step, Sees, IsPassed;
    if i < j {
      AttemptsAddUp(r, i, j - 1, k);
      assert IsStep(r.states[j - 1], r.trace[j - 1], r.states[j]);
      StepCounts(r.states[j - 1], r.trace[j - 1].now, r.trace[j - 1].call, k);
    }
  }

  /** A token that entry i issued has as many attempts as it was passed since. */
  lemma AttemptsSinceIssue(r: Run, i: nat, j: nat)
    requires IsRun(r) && i < j <= |r.trace| && (r.trace[i].outcome.Issued? || r.trace[i].outcome.Exchanged?)
    ensures r.trace[i].outcome.id < |r.states[j].tokens|
    ensures r.states[j].tokens[r.trace[i].outcome.id].attempts == TimesCounted(r, i + 1, j, r.trace[i].outcome.id)
  {
    hide Step, Sees, TimesCounted;
    assert IsStep(r.states[i], r.trace[i], r.states[i + 1]);
    OutcomeNamesNewToken(r.states[i], r.trace[i].now, r.trace[i].call);
    AttemptsAddUp(r, i + 1, j, r.trace[i].outcome.id);
  }

  // ----- the flows over runs

  /**
   The OTP that forgotPassword or addUser sent at entry i is exchanged at entry j, less than ten
   minutes later, exactly if it was sent for a reset, is unused, was passed fewer than five times
   since, and is listed before any other OTP with its text.
   */
  lemma SentOtpIsExchanged(r: Run, i: nat, j: nat)
    requires IsRun(r) && i < j < |r.trace| && r.trace[j].now < r.trace[i].now + 10 * MINUTE
    requires (r.trace[i].call.CallForgotPassword? || r.trace[i].call.CallAddUser?) && r.trace[i].outcome.Issued?
    requires r.trace[j].call.CallValidateResetOtp? && r.trace[j].call.otp == r.trace[i].call.otp
    ensures r.trace[i].outcome.id < |r.states[j].tokens| && InRange(r.trace[j].call.order, r.states[j].tokens)
    ensures var o, k := r.trace[j].outcome, r.trace[i].outcome.id;
            && (Consumes(o, k) <==>
                  && SentForReset(r.states[i], r.trace[i]) && !r.states[j].tokens[k].isUsed && TimesCounted(r, i + 1, j, k) < 5
                  && NoneBefore(r.states[j].tokens, r.trace[j].call.order, r.trace[j].call.otp, k))
            && (Consumes(o, k) ==> o == Exchanged(r.trace[i].outcome.userId, k, |r.states[j].tokens|))
  {
    hide ValidateResetOtp, TimesCounted, NoneBefore;
    var k := IssuedStays(r, i, j);
    SentPurpose(r, i, j);
    AttemptsSinceIssue(r, i, j);
    assert IsStep(r.states[j], r.trace[j], r.states[j + 1]);
    ExchangeIff(r.states[j], r.trace[j].now, r.trace[j].call.otp, r.trace[j].call.drawn, r.trace[j].call.order, k);
  }

  /**
   The token that validateResetOtp or verifyOldPassword handed out at entry i sets the password of
   its owner at entry j, less than ten minutes later, exactly if it is unused by then and listed
   before any other token with its text; nothing else about the users changes but the flag of
   somebody who had no password.
   */
  lemma ResetTokenSetsPassword(r: Run, i: nat, j: nat, u: nat)
    requires IsRun(r) && i < j < |r.trace| && r.trace[j].now < r.trace[i].now + 10 * MINUTE
    requires || (r.trace[i].call.CallValidateResetOtp? && r.trace[i].outcome.Exchanged?)
             || (r.trace[i].call.CallVerifyOldPassword? && r.trace[i].outcome.Issued?)
    requires r.trace[j].call.CallSubmitNewPassword? && r.trace[j].call.resetToken == r.trace[i].call.drawn
    requires u < |r.states[j].users| && r.states[j].users[u].id == r.trace[i].outcome.userId
    ensures r.trace[i].outcome.id < |r.states[j].tokens| && InRange(r.trace[j].call.order, r.states[j].tokens)
    ensures var o, k, user := r.trace[j].outcome, r.trace[i].outcome.id, r.states[j].users[u];
            && (Consumes(o, k) <==>
                  && !r.states[j].tokens[k].isUsed
                  && NoneBefore(r.states[j].tokens, r.trace[j].call.order, r.trace[j].call.resetToken, k))
            && (Consumes(o, k) ==>
                  && o == Consumed(user.id, k)
                  && r.states[j + 1].users == r.states[j].users[u :=
                       user.(password := Some(Hashed(r.trace[j].call.newPassword)), isActive := user.password.None? || user.isActive)])
  {
    hide SubmitNewPassword, TableInvariant, NoneBefore;
    var k := IssuedStays(r, i, j);
    InvariantAlong(r, j);
    assert IsStep(r.states[j], r.trace[j], r.states[j + 1]);
    NewPasswordIff(r.states[j], r.trace[j].now, r.trace[j].call.resetToken, r.trace[j].call.newPassword, r.trace[j].call.order, k, u);
  }

  /**
   The token that verifyOldPassword handed out at entry i changes its owner's password at entry j,
   less than ten minutes later, exactly if it is unused by then, both texts are given and the new
   password differs from the current one.
   */
  lemma ChangeTokenSetsPassword(r: Run, i: nat, j: nat, u: nat)
    requires IsRun(r) && i < j < |r.trace| && r.trace[j].now < r.trace[i].now + 10 * MINUTE
    requires r.trace[i].call.CallVerifyOldPassword? && r.trace[i].outcome.Issued?
    requires r.trace[j].call.CallSubmitPasswordChange? && r.trace[j].call.userId == r.trace[i].call.userId
    requires r.trace[j].call.changeToken == r.trace[i].call.drawn
    requires u < |r.states[j].users| && r.states[j].users[u].id == r.trace[j].call.userId
    ensures r.trace[i].outcome.id < |r.states[j].tokens|
    ensures var o, k, user, c := r.trace[j].outcome, r.trace[i].outcome.id, r.states[j].users[u], r.trace[j].call;
            && (Consumes(o, k) <==>
                  && !r.states[j].tokens[k].isUsed && c.changeToken != "" && c.newPassword != ""
                  && user.password != Some(Hashed(c.newPassword)))
            && (Consumes(o, k) ==>
                  && o == Consumed(user.id, k)
                  && r.states[j + 1].users == r.states[j].users[u := user.(password := Some(Hashed(c.newPassword)))])
  {
    hide SubmitPasswordChange, TableInvariant;
    var k := IssuedStays(r, i, j);
    InvariantAlong(r, j);
    OwnerHasPassword(r, i, j, u);
    assert IsStep(r.states[i], r.trace[i], r.states[i + 1]);
    assert IsStep(r.states[j], r.trace[j], r.states[j + 1]);
    PasswordChangeIff(r.states[j], r.trace[j].now, r.trace[j].call.changeToken, r.trace[j].call.newPassword, r.trace[j].call.order, k, u);
  }

  /** An entry that sent a login OTP. */
  predicate SendsLoginOtp(e: Entry, otp: string) {
    e.outcome.Issued? && (e.call.CallInitiateLogin? || e.call.CallResendLoginOtp?) && e.call.otp == otp
  }

  /**
   The login OTP that was sent at entry i opens the login at entry j, less than five minutes later,
   exactly if it is unused by then and comes with an e-mail of its owner.
   */
  lemma LoginOtpOpensLogin(r: Run, i: nat, j: nat)
    requires IsRun(r) && i < j < |r.trace| && r.trace[j].now < r.trace[i].now + 5 * MINUTE
    requires r.trace[j].call.CallVerifyLogin? && SendsLoginOtp(r.trace[i], r.trace[j].call.otp)
    ensures r.trace[i].outcome.id < |r.states[j].tokens|
    ensures var o, u := r.trace[j].outcome, FindEmail(r.states[j].users, r.trace[j].call.email);
            && (o.Consumed? <==>
                  && !r.states[j].tokens[r.trace[i].outcome.id].isUsed
                  && u.Some? && r.states[j].users[u.value].id == r.trace[i].outcome.userId)
            && (o.Consumed? ==> o == Consumed(r.trace[i].outcome.userId, r.trace[i].outcome.id))
  {
    hide VerifyLogin, TableInvariant, FindEmail;
    var k := IssuedStays(r, i, j);
    InvariantAlong(r, j);
    assert IsStep(r.states[j], r.trace[j], r.states[j + 1]);
    LoginIff(r.states[j], r.trace[j].now, r.trace[j].call.email, r.trace[j].call.otp, k);
  }

  // ----- wrong OTPs

  /** Entry m submits a reset OTP that fits no active one, whoever it is meant for. */
  ghost predicate IsWrongOtp(r: Run, m: nat)
    requires m < |r.trace| < |r.states|
  {
    && r.trace[m].call.CallValidateResetOtp?
    && forall k :: 0 <= k < |r.states[m].tokens| && Active(r.states[m].tokens[k], OTPS, r.trace[m].now) ==>
         !Compare(r.trace[m].call.otp, r.states[m].tokens[k].token)
  }

  ghost function WrongOtps(r: Run, i: nat, j: nat): nat
    requires i <= j <= |r.trace| < |r.states|
    decreases j
  {
    if i == j then 0 else WrongOtps(r, i, j - 1) + if IsWrongOtp(r, j - 1) then 1 else 0
  }

  /** Every wrong OTP of anybody is counted against every OTP that stays open. */
  lemma {:induction false} WrongOtpsAddUp(r: Run, i: nat, j: nat, k: nat)
    requires IsRun(r) && i <= j <= |r.trace| && k < |r.states[i].tokens| && r.states[i].tokens[k].kind == Otp
    requires k < |r.states[j].tokens| && !r.states[j].tokens[k].isUsed
    requires forall m :: i <= m < j ==> r.trace[m].now < r.states[i].tokens[k].expiresAt
    ensures TimesCounted(r, i, j, k) >= WrongOtps(r, i, j)
    decreases j
  {
    hide Step;
    if i < j {
      var s, e := r.states[j - 1], r.trace[j - 1];
      LaterAlong(r, i, j - 1);
      assert Aged(r.states[i].tokens[k], s.tokens[k]);
      assert IsStep(s, e, r.states[j]);
      StepLater(s, e.now, e.call);
      assert Aged(s.tokens[k], r.states[j].tokens[k]);
      WrongOtpsAddUp(r, i, j - 1, k);
    }
  }

  /** Five wrong OTPs, by anybody, lock every OTP that was open before them. */
  lemma FiveWrongOtpsLock(r: Run, i: nat, j: nat, k: nat)
    requires IsRun(r) && i <= j < |r.trace| && k < |r.states[i].tokens| && r.states[i].tokens[k].kind == Otp
    requires WrongOtps(r, i, j) >= 5 && r.trace[j].call.CallValidateResetOtp?
    ensures !Consumes(r.trace[j].outcome, k)
  {
    hide Step, Sees, WrongOtps, TimesCounted;
    if Consumes(r.trace[j].outcome, k) {
      assert IsStep(r.states[j], r.trace[j], r.states[j + 1]);
      StepConsumes(r.states[j], r.trace[j].now, r.trace[j].call, k);
      LaterAlong(r, i, j);
      assert Aged(r.states[i].tokens[k], r.states[j].tokens[k]);
      WrongOtpsAddUp(r, i, j, k);
      AttemptsAddUp(r, i, j, k);
    }
  }

  // ----- login OTPs are never repeated

  lemma UseAllKeepsTexts(tokens: seq<Token>, w: Where, at: Option<nat>, text: string)
    ensures PlainTaken(UseAll(tokens, w, at), text) <==> PlainTaken(tokens, text)
  {
    var used := UseAll(tokens, w, at);
    assert forall i :: 0 <= i < |tokens| ==> used[i].token == tokens[i].token;
  }

  /** A plain text is taken exactly if it was sent as a login OTP at some time before. */
  lemma PlainTakenIff(r: Run, n: nat, text: string)
    requires IsRun(r) && n <= |r.trace|
    ensures PlainTaken(r.states[n].tokens, text) <==> exists i :: 0 <= i < n && SendsLoginOtp(r.trace[i], text)
  {
    hide Step, Sees;
    if PlainTaken(r.states[n].tokens, text) {
      var k :| 0 <= k < |r.states[n].tokens| && r.states[n].tokens[k].token == Plain(text);
      var i := IssuedEarlier(r, n, k);
      assert SendsLoginOtp(r.trace[i], text);
    }
    forall i | 0 <= i < n && SendsLoginOtp(r.trace[i], text)
      ensures PlainTaken(r.states[n].tokens, text)
    {
      var k := IssuedStays(r, i, n);
    }
  }

  /** A login whose checks pass fails exactly if its OTP was sent before, to anybody and however long ago. */
  lemma LoginConflictIff(r: Run, j: nat)
    requires IsRun(r) && j < |r.trace| && (r.trace[j].call.CallInitiateLogin? || r.trace[j].call.CallResendLoginOtp?)
    requires r.trace[j].outcome.Issued? || r.trace[j].outcome == Rejected(Conflict)
    ensures r.trace[j].outcome == Rejected(Conflict) <==> exists i :: 0 <= i < j && SendsLoginOtp(r.trace[i], r.trace[j].call.otp)
  {
    hide UseAll, FindEmail, PlainTaken;
    assert IsStep(r.states[j], r.trace[j], r.states[j + 1]);
    var u := FindEmail(r.states[j].users, r.trace[j].call.email).value;
    UseAllKeepsTexts(r.states[j].tokens, Where(r.states[j].users[u].id, Otp, Some(ForLogin)), None, r.trace[j].call.otp);
    PlainTakenIff(r, j, r.trace[j].call.otp);
  }

  predicate SendsOtp(e: Entry)
    ensures SendsOtp(e) ==> e.call.CallInitiateLogin? || e.call.CallResendLoginOtp?
  {
    e.outcome.Issued? && (e.call.CallInitiateLogin? || e.call.CallResendLoginOtp?)
  }

  /** The texts of the login OTPs sent in a run, in order. */
  function LoginOtps(trace: seq<Entry>): seq<string> {
    if trace == [] then []
    else
      var e := trace[|trace| - 1];
      LoginOtps(trace[..|trace| - 1]) + if SendsOtp(e) then [e.call.otp] else []
  }

  lemma {:induction false} LoginOtpsAreSent(trace: seq<Entry>, otp: string)
    ensures otp in LoginOtps(trace) <==> exists i :: 0 <= i < |trace| && SendsLoginOtp(trace[i], otp)
  {
    if trace != [] {
      var init := trace[..|trace| - 1];
      LoginOtpsAreSent(init, otp);
      assert forall i :: 0 <= i < |init| ==> init[i] == trace[i];
      if otp in LoginOtps(init) {
        var i :| 0 <= i < |init| && SendsLoginOtp(init[i], otp);
        assert SendsLoginOtp(trace[i], otp);
      }
    }
  }

  lemma OneMoreEntry(trace: seq<Entry>, n: nat)
    requires 0 < n <= |trace|
    ensures LoginOtps(trace[..n]) == LoginOtps(trace[..n - 1]) + if SendsOtp(trace[n - 1]) then [trace[n - 1].call.otp] else []
  {
    assert trace[..n][..n - 1] == trace[..n - 1];
  }

  /** The OTP of a login was not sent before. */
  lemma NewLoginOtp(r: Run, n: nat)
    requires IsRun(r) && n < |r.trace| && SendsOtp(r.trace[n])
    ensures r.trace[n].call.otp !in LoginOtps(r.trace[..n])
  {
    hide IsRun, LoginOtps;
    LoginConflictIff(r, n);
    LoginOtpsAreSent(r.trace[..n], r.trace[n].call.otp);
    assert forall i :: 0 <= i < n ==> r.trace[..n][i] == r.trace[i];
  }

  /** No login OTP is sent twice, so a run sends at most as many as there are texts to draw. */
  lemma {:induction false} LoginOtpsRunOut(r: Run, n: nat, pool: set<string>)
    requires IsRun(r) && n <= |r.trace| && forall otp :: otp in LoginOtps(r.trace[..n]) ==> otp in pool
    ensures forall i, j :: 0 <= i < j < |LoginOtps(r.trace[..n])| ==> LoginOtps(r.trace[..n])[i] != LoginOtps(r.trace[..n])[j]
    ensures |LoginOtps(r.trace[..n])| <= |pool|
  {
    hide Step, Sees, LoginOtps, SendsOtp;
    if n == 0 {
      NothingSent(r.trace[..0]);
    } else {
      OneMoreEntry(r.trace, n);
      if SendsOtp(r.trace[n - 1]) {
        NewLoginOtp(r, n - 1);
        LoginOtpsRunOut(r, n - 1, pool - {r.trace[n - 1].call.otp});
      } else {
        LoginOtpsRunOut(r, n - 1, pool);
      }
    }
  }

  lemma NothingSent(trace: seq<Entry>)
    requires trace == []
    ensures LoginOtps(trace) == []
  {
  }

  // ----- the whole reset

  /** A login starts for the stored password and for no other. */
  lemma LoginFollowsPassword(s: State, u: nat, email: string, stored: string, password: string, otp: string, now: nat)
    requires UniqueEmails(s.users) && u < |s.users| && s.users[u].email == email && s.users[u].password == Some(Hashed(stored))
    ensures var o := InitiateLogin(s, now, email, password, otp).outcome;
            && (o == Rejected(Unauthorized) <==> password != stored)
            && (password == stored && !PlainTaken(s.tokens, otp) ==> o == Issued(s.users[u].id, |s.tokens|))
  {
    hide UseAll, PlainTaken;
    assert FindEmail(s.users, email) == Some(u);
    UseAllKeepsTexts(s.tokens, Where(s.users[u].id, Otp, Some(ForLogin)), None, otp);
  }

  /** Without a call that sets a new password for the user, the password stays. */
  lemma {:induction false} PasswordStays(r: Run, a: nat, b: nat, u: nat)
    requires IsRun(r) && a <= b <= |r.trace| && u < |r.states[a].users|
    requires forall m :: a <= m < b && r.trace[m].outcome.Consumed? && r.trace[m].outcome.userId == r.states[a].users[u].id
               ==> r.trace[m].call.CallVerifyLogin?
    ensures u < |r.states[b].users| && r.states[b].users[u].id == r.states[a].users[u].id
    ensures r.states[b].users[u].password == r.states[a].users[u].password
    decreases b
  {
    hide Step, Sees;
    if a < b {
      PasswordStays(r, a, b - 1, u);
      var s, e := r.states[b - 1], r.trace[b - 1];
      assert IsStep(s, e, r.states[b]);
      InvariantAlong(r, b - 1);
      PasswordChangeUsesToken(s, e.now, e.call, u);
      StepLater(s, e.now, e.call);
      assert SameUser(s.users[u], r.states[b].users[u]);
    }
  }

  /** Entry j submits the text that entry i gave out for token k, in time, while k is unused and found first. */
  ghost predicate Redeems(r: Run, i: nat, j: nat, k: nat, given: string, submitted: string, order: seq<nat>)
    requires i < j < |r.trace| < |r.states|
  {
    && given == submitted && r.trace[j].now < r.trace[i].now + 10 * MINUTE
    && k < |r.states[j].tokens| && !r.states[j].tokens[k].isUsed
    && InRange(order, r.states[j].tokens) && NoneBefore(r.states[j].tokens, order, submitted, k)
  }

  /**
   The whole reset: an OTP is sent (h), exchanged (i), the token sets a password (n), and a login
   follows (l), with any other calls in between. The login is refused for every password but the
   new one, the old one included.
   */
  lemma ResetThenLogin(r: Run, h: nat, i: nat, n: nat, l: nat, u: nat)
    requires IsRun(r) && h < i < n < l < |r.trace|
    requires (r.trace[h].call.CallForgotPassword? || r.trace[h].call.CallAddUser?) && r.trace[h].outcome.Issued?
    requires SentForReset(r.states[h], r.trace[h]) && r.trace[i].call.CallValidateResetOtp?
    requires Redeems(r, h, i, r.trace[h].outcome.id, r.trace[h].call.otp, r.trace[i].call.otp, r.trace[i].call.order)
    requires TimesCounted(r, h + 1, i, r.trace[h].outcome.id) < 5 && r.trace[n].call.CallSubmitNewPassword?
    requires Redeems(r, i, n, |r.states[i].tokens|, r.trace[i].call.drawn, r.trace[n].call.resetToken, r.trace[n].call.order)
    requires r.trace[l].call.CallInitiateLogin? && u < |r.states[l].users|
    requires r.states[l].users[u].id == r.trace[h].outcome.userId && r.states[l].users[u].email == r.trace[l].call.email
    requires forall m :: n < m < l && r.trace[m].outcome.Consumed? && r.trace[m].outcome.userId == r.trace[h].outcome.userId
               ==> r.trace[m].call.CallVerifyLogin?
    ensures r.trace[i].outcome == Exchanged(r.trace[h].outcome.userId, r.trace[h].outcome.id, |r.states[i].tokens|)
    ensures r.trace[n].outcome == Consumed(r.trace[h].outcome.userId, |r.states[i].tokens|)
    ensures r.trace[l].outcome == Rejected(Unauthorized) <==> r.trace[l].call.password != r.trace[n].call.newPassword
    ensures r.trace[l].call.password == r.trace[n].call.newPassword && !PlainTaken(r.states[l].tokens, r.trace[l].call.otp) ==>
              r.trace[l].outcome == Issued(r.trace[h].outcome.userId, |r.states[l].tokens|)
  {
    hide Sees, InitiateLogin, NoneBefore, TimesCounted, PlainTaken, OneOpen, PlainOnce, UniqueEmails;
    SentOtpIsExchanged(r, h, i);
    var k := IssuedStays(r, i, n);
    InvariantAlong(r, n);
    var v :| 0 <= v < |r.states[n].users| && r.states[n].users[v].id == r.states[n].tokens[k].userId;
    ResetTokenSetsPassword(r, i, n, v);
    PasswordStays(r, n + 1, l, v);
    InvariantAlong(r, l);
    assert v == u;
    assert IsStep(r.states[l], r.trace[l], r.states[l + 1]);
    var c := r.trace[l].call;
    LoginFollowsPassword(r.states[l], u, c.email, r.trace[n].call.newPassword, c.password, c.otp, r.trace[l].now);
  }
}
