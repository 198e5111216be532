/** What every step keeps, and what holds over whole runs of the token protocol. */
module AuthRuns {
  import opened Text
  import opened AuthModel

  // ----- what a step never undoes

  predicate SameOrigin(t: Token, t': Token) {
    && t.userId == t'.userId && t.kind == t'.kind && t.token == t'.token
    && t.createdAt == t'.createdAt && t.expiresAt == t'.expiresAt && t.purpose == t'.purpose
  }

  /** The same token later: a use flag is never cleared and recorded mismatches are never forgotten. */
  predicate Aged(t: Token, t': Token) {
    SameOrigin(t, t') && (t.isUsed ==> t'.isUsed) && t.attempts <= t'.attempts
  }

  predicate AgedTable(tokens: seq<Token>, tokens': seq<Token>) {
    |tokens| <= |tokens'| && forall i :: 0 <= i < |tokens| ==> Aged(tokens[i], tokens'[i])
  }

  predicate SameUser(u: User, u': User) {
    u.id == u'.id && (u.password.Some? ==> u'.password.Some?)
  }

  predicate Later(s: State, s': State) {
    && AgedTable(s.tokens, s'.tokens)
    && |s.users| <= |s'.users| && forall i :: 0 <= i < |s.users| ==> SameUser(s.users[i], s'.users[i])
  }

  /** Which tokens the mismatch loop leaves alone, and what it does to the others. */
  lemma {:induction false} CountMismatchesAges(tokens: seq<Token>, order: seq<nat>, input: string)
    requires InRange(order, tokens)
    ensures AgedTable(tokens, CountMismatches(tokens, order, input))
    ensures forall i :: 0 <= i < |tokens| ==> CountMismatches(tokens, order, input)[i].isUsed == tokens[i].isUsed
    decreases |order|
  {
    if order != [] && !Compare(input, tokens[order[0]].token) {
      var t := tokens[order[0]];
      CountMismatchesAges(tokens[order[0] := t.(attempts := t.attempts + 1)], order[1..], input);
    }
  }

  lemma StepAgesTokens(s: State, now: nat, c: Call)
    requires Sees(s, now, c)
    ensures AgedTable(s.tokens, Step(s, now, c).state.tokens)
  {
    hide FirstMatch, CountMismatches, FindUser, FindEmail, FindLoginOtp, Matches;
    if c.CallValidateResetOtp? {
      CountMismatchesAges(s.tokens, c.order, c.otp);
    }
  }

  lemma StepKeepsUsers(s: State, now: nat, c: Call)
    requires Sees(s, now, c)
    ensures var users := Step(s, now, c).state.users;
            |s.users| <= |users| && forall i :: 0 <= i < |s.users| ==> SameUser(s.users[i], users[i])
  {
    hide FirstMatch, CountMismatches, FindUser, FindEmail, FindLoginOtp, UseAll;
  }

  /** No step clears a use flag, forgets a mismatch, deletes a token or a user, or takes a password away. */
  lemma StepLater(s: State, now: nat, c: Call)
    requires Sees(s, now, c)
    ensures Later(s, Step(s, now, c).state)
  {
    hide Step, AgedTable;
    StepAgesTokens(s, now, c);
    StepKeepsUsers(s, now, c);
  }

  // ----- issuing and consuming

  datatype Entry = Entry(now: nat, call: Call, outcome: Outcome)

  /** The entry that issued token number id, with the text that its caller was given. */
  predicate Issues(e: Entry, id: nat, t: Token) {
    && t.createdAt == e.now
    && match e.call
       case CallVerifyOldPassword(userId, _, drawn) =>
         && e.outcome == Issued(userId, id) && t.userId == userId && t.kind == PasswordReset && t.purpose == Some(ForChange)
         && t.token == Hashed(drawn) && t.expiresAt == e.now + 10 * MINUTE
       case CallForgotPassword(_, otp) =>
         && e.outcome == Issued(t.userId, id) && t.kind == Otp && (t.purpose == Some(ForReset) || t.purpose == Some(ForWelcome))
         && t.token == Hashed(otp) && t.expiresAt == e.now + 10 * MINUTE
       case CallValidateResetOtp(_, drawn, _) =>
         && e.outcome.Exchanged? && e.outcome.userId == t.userId && e.outcome.id == id && t.kind == PasswordReset
         && t.purpose == None && t.token == Hashed(drawn) && t.expiresAt == e.now + 10 * MINUTE
       case CallInitiateLogin(_, _, otp) =>
         && e.outcome == Issued(t.userId, id) && t.kind == Otp && t.purpose == Some(ForLogin)
         && t.token == Plain(otp) && t.expiresAt == e.now + 5 * MINUTE
       case CallResendLoginOtp(_, otp) =>
         && e.outcome == Issued(t.userId, id) && t.kind == Otp && t.purpose == Some(ForLogin)
         && t.token == Plain(otp) && t.expiresAt == e.now + 5 * MINUTE
       case CallAddUser(userId, _, _, _, otp) =>
         && e.outcome == Issued(userId, id) && t.userId == userId && t.kind == Otp && t.purpose == Some(ForReset)
         && t.token == Hashed(otp) && t.expiresAt == e.now + 10 * MINUTE
       case _ => false
  }

  /** A step adds one token, which its outcome names, or none. */
  lemma StepIssues(s: State, now: nat, c: Call)
    requires Sees(s, now, c)
    ensures var r := Step(s, now, c);
            var n := |s.tokens|;
            |r.state.tokens| == n || (|r.state.tokens| == n + 1 && Issues(Entry(now, c, r.outcome), n, r.state.tokens[n]))
  {
    hide FirstMatch, CountMismatches, FindUser, FindEmail, FindLoginOtp, Matches;
  }

  predicate Consumes(o: Outcome, k: nat) {
    (o.Exchanged? || o.Consumed?) && o.consumed == k
  }

  /** The token a call may use up: active, of the right kind and purpose, and stored for the text that was submitted. */
  predicate Fits(t: Token, now: nat, c: Call) {
    && !t.isUsed && t.expiresAt > now
    && match c
       case CallSubmitPasswordChange(userId, changeToken, _, _) =>
         t.userId == userId && t.kind == PasswordReset && t.purpose == Some(ForChange) && t.token == Hashed(changeToken)
       case CallValidateResetOtp(otp, _, _) =>
         t.kind == Otp && t.purpose == Some(ForReset) && t.token == Hashed(otp) && t.attempts < 5
       case CallSubmitNewPassword(resetToken, _, _) =>
         t.kind == PasswordReset && t.token == Hashed(resetToken)
       case CallVerifyLogin(_, otp) =>
         t.kind == Otp && t.purpose == Some(ForLogin) && t.token == Plain(otp)
       case _ => false
  }

  lemma StepConsumes(s: State, now: nat, c: Call, k: nat)
    requires Sees(s, now, c) && Consumes(Step(s, now, c).outcome, k)
    ensures k < |s.tokens| && Fits(s.tokens[k], now, c)
    ensures Step(s, now, c).outcome.userId == s.tokens[k].userId
    ensures k < |Step(s, now, c).state.tokens| && Step(s, now, c).state.tokens[k].isUsed
  {
    hide FirstMatch, CountMismatches, FindUser, FindEmail, FindLoginOtp, Matches;
  }

  /**
   Who can use a token up: a call that serves its owner and issues, exchanges or uses up a token, a
   login of its owner that fails for its OTP, or the right text for a locked OTP. No call for
   somebody else does.
   */
  lemma UsedUpByOwner(s: State, now: nat, c: Call, k: nat)
    requires Sees(s, now, c) && k < |s.tokens| && !s.tokens[k].isUsed
    requires k < |Step(s, now, c).state.tokens| && Step(s, now, c).state.tokens[k].isUsed
    ensures var o, t := Step(s, now, c).outcome, s.tokens[k];
            || ((o.Issued? || o.Exchanged? || o.Consumed?) && o.userId == t.userId)
            || (o == Rejected(Conflict) && (c.CallInitiateLogin? || c.CallResendLoginOtp?) && ClassOf(t) == LoginOtp
                && exists u :: 0 <= u < |s.users| && s.users[u].email == c.email && s.users[u].id == t.userId)
            || (c.CallValidateResetOtp? && t.token == Hashed(c.otp) && t.attempts >= 5)
  {
    hide FirstMatch, CountMismatches, FindUser, FindEmail, FindLoginOtp;
    if c.CallValidateResetOtp? {
      CountMismatchesAges(s.tokens, c.order, c.otp);
    }
  }

  // ----- the invariant of the table

  datatype Class = LoginOtp | OtherOtp | ChangeToken | ResetToken

  function ClassOf(t: Token): Class {
    if t.kind == Otp then (if t.purpose == Some(ForLogin) then LoginOtp else OtherOtp)
    else if t.purpose == Some(ForChange) then ChangeToken
    else ResetToken
  }

  predicate Open(t: Token, userId: string, c: Class) {
    !t.isUsed && t.userId == userId && ClassOf(t) == c
  }

  /** At most one unused token per user and class. */
  ghost predicate OneOpen(tokens: seq<Token>) {
    forall i, j :: 0 <= i < j < |tokens| && !tokens[j].isUsed ==> !Open(tokens[i], tokens[j].userId, ClassOf(tokens[j]))
  }

  ghost predicate UniqueIds(users: seq<User>) {
    forall i, j :: 0 <= i < j < |users| ==> users[i].id != users[j].id
  }

  ghost predicate UniqueEmails(users: seq<User>) {
    forall i, j :: 0 <= i < j < |users| ==> users[i].email != users[j].email
  }

  ghost predicate HasUser(users: seq<User>, id: string) {
    exists i :: 0 <= i < |users| && users[i].id == id
  }

  /** Only login OTPs are stored in plain text, and no two of them are the same. */
  ghost predicate PlainOnce(tokens: seq<Token>) {
    && (forall i :: 0 <= i < |tokens| && tokens[i].token.Plain? ==> ClassOf(tokens[i]) == LoginOtp)
    && (forall i, j :: 0 <= i < j < |tokens| && tokens[i].token.Plain? ==> tokens[i].token != tokens[j].token)
  }

  ghost predicate TableInvariant(s: State) {
    && OneOpen(s.tokens)
    && UniqueIds(s.users)
    && UniqueEmails(s.users)
    && PlainOnce(s.tokens)
    && forall k :: 0 <= k < |s.tokens| ==> HasUser(s.users, s.tokens[k].userId)
  }

  lemma OneOpenAges(tokens: seq<Token>, tokens': seq<Token>)
    requires OneOpen(tokens) && AgedTable(tokens, tokens') && |tokens| == |tokens'|
    ensures OneOpen(tokens')
  {
  }

  /** A new token keeps the invariant if the older tokens of its user and class have been used up before. */
  lemma OneOpenIssue(tokens: seq<Token>, kept: seq<Token>, t: Token)
    requires OneOpen(tokens) && AgedTable(tokens, kept) && |tokens| == |kept|
    requires forall i :: 0 <= i < |kept| ==> !Open(kept[i], t.userId, ClassOf(t))
    ensures OneOpen(kept + [t])
  {
  }

  /** Bulk invalidation leaves no open token of the classes it asks for. */
  lemma UseAllCloses(tokens: seq<Token>, w: Where, at: Option<nat>, c: Class)
    requires w.kind == (if c == LoginOtp || c == OtherOtp then Otp else PasswordReset)
    requires w.purpose == None || (w.purpose == Some(ForLogin) && c == LoginOtp) || (w.purpose == Some(ForChange) && c == ChangeToken)
    ensures AgedTable(tokens, UseAll(tokens, w, at))
    ensures forall i :: 0 <= i < |tokens| ==> !Open(UseAll(tokens, w, at)[i], w.userId, c)
  {
  }

  /** Before a token is added, its user's older tokens of the same class are used up. */
  lemma NewTokenIsAlone(s: State, now: nat, c: Call)
    requires Sees(s, now, c) && |Step(s, now, c).state.tokens| == |s.tokens| + 1
    ensures var tokens := Step(s, now, c).state.tokens;
            var t := tokens[|s.tokens|];
            forall i :: 0 <= i < |s.tokens| ==> !Open(tokens[i], t.userId, ClassOf(t))
  {
    hide FirstMatch, CountMismatches, FindUser, FindEmail, FindLoginOtp, Matches;
    var r := Step(s, now, c);
    var t := r.state.tokens[|s.tokens|];
    match c {
      case CallVerifyOldPassword(userId, _, _) =>
        UseAllCloses(s.tokens, Where(userId, PasswordReset, Some(ForChange)), Some(now), ChangeToken);
      case CallForgotPassword(_, _) =>
        UseAllCloses(s.tokens, Where(t.userId, Otp, None), Some(now), OtherOtp);
      case CallValidateResetOtp(otp, _, order) =>
        var counted := CountMismatches(s.tokens, order, otp);
        var k := r.outcome.consumed;
        UseAllCloses(counted[k := Use(counted[k], Some(now))], Where(t.userId, PasswordReset, None), Some(now), ResetToken);
      case CallInitiateLogin(_, _, _) =>
        UseAllCloses(s.tokens, Where(t.userId, Otp, Some(ForLogin)), None, LoginOtp);
      case CallResendLoginOtp(_, _) =>
        UseAllCloses(s.tokens, Where(t.userId, Otp, Some(ForLogin)), None, LoginOtp);
      case CallAddUser(_, _, _, _, _) =>
        UseAllCloses(s.tokens, Where(t.userId, Otp, None), Some(now), OtherOtp);
    }
  }

  lemma StepKeepsOneOpen(s: State, now: nat, c: Call)
    requires Sees(s, now, c) && OneOpen(s.tokens)
    ensures OneOpen(Step(s, now, c).state.tokens)
  {
    hide Step, Sees, OneOpen;
    StepLater(s, now, c);
    StepIssues(s, now, c);
    var n, tokens := |s.tokens|, Step(s, now, c).state.tokens;
    if |tokens| == n {
      OneOpenAges(s.tokens, tokens);
    } else {
      NewTokenIsAlone(s, now, c);
      assert tokens == tokens[..n] + [tokens[n]];
      OneOpenIssue(s.tokens, tokens[..n], tokens[n]);
    }
  }

  lemma StepKeepsPlainOnce(s: State, now: nat, c: Call)
    requires Sees(s, now, c) && PlainOnce(s.tokens)
    ensures PlainOnce(Step(s, now, c).state.tokens)
  {
    hide FirstMatch, CountMismatches, FindUser, FindEmail, FindLoginOtp, Matches;
    StepLater(s, now, c);
    StepIssues(s, now, c);
    var r := Step(s, now, c);
    forall i | 0 <= i < |s.tokens|
      ensures SameOrigin(s.tokens[i], r.state.tokens[i])
    {
      assert Aged(s.tokens[i], r.state.tokens[i]);
    }
    if |r.state.tokens| > |s.tokens| && r.state.tokens[|s.tokens|].token.Plain? {
      NewPlainIsFree(s, now, c);
    }
  }

  /** A login OTP is stored only if no token has its text. */
  lemma NewPlainIsFree(s: State, now: nat, c: Call)
    requires Sees(s, now, c)
    ensures var r := Step(s, now, c);
            |r.state.tokens| > |s.tokens| && r.state.tokens[|s.tokens|].token.Plain? ==>
              forall i :: 0 <= i < |s.tokens| ==> r.state.tokens[i].token != r.state.tokens[|s.tokens|].token
  {
    hide FirstMatch, CountMismatches, FindUser, FindEmail, FindLoginOtp, Matches;
  }

  /** A new token belongs to a user, who may be new as well. */
  lemma NewTokenHasUser(s: State, now: nat, c: Call)
    requires Sees(s, now, c) && TableInvariant(s)
    ensures var r := Step(s, now, c);
            |r.state.tokens| > |s.tokens| ==> HasUser(r.state.users, r.state.tokens[|s.tokens|].userId)
  {
    hide FirstMatch, CountMismatches, FindUser, FindEmail, FindLoginOtp, Matches, OneOpen, PlainOnce;
    var r := Step(s, now, c);
    if c.CallAddUser? && r.outcome.Issued? {
      assert r.state.users[|s.users|].id == c.id;
    }
  }

  lemma StepKeepsUnique(s: State, now: nat, c: Call)
    requires Sees(s, now, c) && UniqueIds(s.users) && UniqueEmails(s.users)
    ensures UniqueIds(Step(s, now, c).state.users) && UniqueEmails(Step(s, now, c).state.users)
  {
    hide FirstMatch, CountMismatches, FindUser, FindEmail, FindLoginOtp, UseAll;
  }

  lemma StepKeepsInvariant(s: State, now: nat, c: Call)
    requires Sees(s, now, c) && TableInvariant(s)
    ensures TableInvariant(Step(s, now, c).state)
  {
    hide Step, OneOpen, PlainOnce, UniqueIds, UniqueEmails;
    var s' := Step(s, now, c).state;
    StepLater(s, now, c);
    StepKeepsOneOpen(s, now, c);
    StepKeepsPlainOnce(s, now, c);
    StepKeepsUnique(s, now, c);
    StepIssues(s, now, c);
    NewTokenHasUser(s, now, c);
    forall k | 0 <= k < |s'.tokens|
      ensures HasUser(s'.users, s'.tokens[k].userId)
    {
      if k < |s.tokens| {
        assert Aged(s.tokens[k], s'.tokens[k]);
        var i :| 0 <= i < |s.users| && s.users[i].id == s.tokens[k].userId;
        assert SameUser(s.users[i], s'.users[i]);
      }
    }
  }

  // ----- runs

  /** The states between the calls, and the calls with their times and outcomes. */
  datatype Run = Run(states: seq<State>, trace: seq<Entry>)

  ghost predicate IsStep(s: State, e: Entry, s': State) {
    Sees(s, e.now, e.call) && Step(s, e.now, e.call) == Reply(s', e.outcome)
  }

  /** A run starts without tokens, time does not run backwards, and every entry is a step. */
  ghost predicate IsRun(r: Run) {
    && |r.states| == |r.trace| + 1
    && r.states[0].tokens == [] && UniqueIds(r.states[0].users) && UniqueEmails(r.states[0].users)
    && (forall i :: 0 <= i < |r.trace| ==> IsStep(r.states[i], r.trace[i], r.states[i + 1]))
    && forall i, j :: 0 <= i < j < |r.trace| ==> r.trace[i].now <= r.trace[j].now
  }

  /** In every reachable state a user has at most one unused token of each of the four classes. */
  lemma {:induction false} InvariantAlong(r: Run, n: nat)
    requires IsRun(r) && n <= |r.trace|
    ensures TableInvariant(r.states[n])
  {
    hide Step, Sees;
    if n > 0 {
      InvariantAlong(r, n - 1);
      assert IsStep(r.states[n - 1], r.trace[n - 1], r.states[n]);
      StepKeepsInvariant(r.states[n - 1], r.trace[n - 1].now, r.trace[n - 1].call);
    }
  }

  lemma LaterTransitive(a: State, b: State, c: State)
    requires Later(a, b) && Later(b, c)
    ensures Later(a, c)
  {
  }

  /** Over a run use flags and recorded mismatches only grow, and nothing is ever deleted. */
  lemma {:induction false} LaterAlong(r: Run, i: nat, j: nat)
    requires IsRun(r) && i <= j <= |r.trace|
    ensures Later(r.states[i], r.states[j])
    decreases j - i
  {
    hide Step, Sees, Later;
    if i == j {
      LaterReflexive(r.states[i]);
    } else {
      LaterAlong(r, i, j - 1);
      assert IsStep(r.states[j - 1], r.trace[j - 1], r.states[j]);
      StepLater(r.states[j - 1], r.trace[j - 1].now, r.trace[j - 1].call);
      LaterTransitive(r.states[i], r.states[j - 1], r.states[j]);
    }
  }

  lemma LaterReflexive(s: State)
    ensures Later(s, s)
  {
  }

  /** Every token in the table was issued by an earlier entry of the run. */
  lemma {:induction false} IssuedEarlier(r: Run, n: nat, k: nat) returns (i: nat)
    requires IsRun(r) && n <= |r.trace| && k < |r.states[n].tokens|
    ensures i < n && Issues(r.trace[i], k, r.states[n].tokens[k])
  {
    hide Step, Sees;
    var before, e := r.states[n - 1], r.trace[n - 1];
    assert IsStep(before, e, r.states[n]);
    StepIssues(before, e.now, e.call);
    if k < |before.tokens| {
      i := IssuedEarlier(r, n - 1, k);
      StepLater(before, e.now, e.call);
      assert Aged(before.tokens[k], r.states[n].tokens[k]);
    } else {
      i := n - 1;
    }
  }

  /** The text is the password of the user. */
  ghost predicate KnowsPassword(s: State, userId: string, text: string) {
    exists u :: 0 <= u < |s.users| && s.users[u].id == userId && s.users[u].password == Some(Hashed(text))
  }

  lemma VerifiedPasswordWasRight(s: State, now: nat, c: Call)
    requires Sees(s, now, c) && c.CallVerifyOldPassword? && Step(s, now, c).outcome.Issued?
    ensures KnowsPassword(s, c.userId, c.oldPassword)
  {
    hide FindUser, UseAll;
    var u := FindUser(s.users, c.userId).value;
    assert s.users[u].password == Some(Hashed(c.oldPassword));
  }

  lemma LoginPasswordWasRight(s: State, now: nat, c: Call)
    requires Sees(s, now, c) && c.CallInitiateLogin? && Step(s, now, c).outcome.Issued?
    ensures KnowsPassword(s, Step(s, now, c).outcome.userId, c.password)
  {
    hide FindEmail, UseAll;
    var u := FindEmail(s.users, c.email).value;
    assert s.users[u].password == Some(Hashed(c.password));
  }

  // ----- provenance

  /**
   What a call uses up was issued earlier in the run, to the same user, as the very text that is
   now submitted, and has not expired.
   */
  lemma Provenance(r: Run, j: nat, k: nat) returns (i: nat)
    requires IsRun(r) && j < |r.trace| && Consumes(r.trace[j].outcome, k)
    ensures i < j && k < |r.states[j].tokens|
    ensures Issues(r.trace[i], k, r.states[j].tokens[k]) && Fits(r.states[j].tokens[k], r.trace[j].now, r.trace[j].call)
    ensures r.trace[i].outcome.userId == r.trace[j].outcome.userId
    ensures r.trace[i].now <= r.trace[j].now < r.states[j].tokens[k].expiresAt
  {
    hide Step, Sees;
    assert IsStep(r.states[j], r.trace[j], r.states[j + 1]);
    StepConsumes(r.states[j], r.trace[j].now, r.trace[j].call, k);
    i := IssuedEarlier(r, j, k);
  }

  /**
   A new password through submitNewPassword is preceded, less than ten minutes earlier, by a
   validateResetOtp or verifyOldPassword that returned the submitted token for the same user; to
   verifyOldPassword that user's password of the time was given.
   */
  lemma SubmitNewPasswordProvenance(r: Run, j: nat) returns (i: nat)
    requires IsRun(r) && j < |r.trace| && r.trace[j].call.CallSubmitNewPassword? && r.trace[j].outcome.Consumed?
    ensures i < j && r.trace[j].now - 10 * MINUTE < r.trace[i].now <= r.trace[j].now
    ensures r.trace[i].call.CallValidateResetOtp? || r.trace[i].call.CallVerifyOldPassword?
    ensures r.trace[i].call.drawn == r.trace[j].call.resetToken
    ensures r.trace[i].outcome.Exchanged? || r.trace[i].outcome.Issued?
    ensures r.trace[i].outcome.userId == r.trace[j].outcome.userId && r.trace[i].outcome.id == r.trace[j].outcome.consumed
    ensures r.trace[i].call.CallVerifyOldPassword? ==>
              i < |r.states| && KnowsPassword(r.states[i], r.trace[j].outcome.userId, r.trace[i].call.oldPassword)
  {
    hide Step, Sees;
    i := Provenance(r, j, r.trace[j].outcome.consumed);
    assert IsStep(r.states[i], r.trace[i], r.states[i + 1]);
    if r.trace[i].call.CallVerifyOldPassword? {
      VerifiedPasswordWasRight(r.states[i], r.trace[i].now, r.trace[i].call);
    }
  }

  /** A reset token is handed out only for an OTP that forgotPassword or addUser sent to the same user less than ten minutes earlier. */
  lemma ValidateResetOtpProvenance(r: Run, j: nat) returns (i: nat)
    requires IsRun(r) && j < |r.trace| && r.trace[j].call.CallValidateResetOtp? && r.trace[j].outcome.Exchanged?
    ensures i < j && r.trace[j].now - 10 * MINUTE < r.trace[i].now <= r.trace[j].now
    ensures r.trace[i].call.CallForgotPassword? || r.trace[i].call.CallAddUser?
    ensures r.trace[i].call.otp == r.trace[j].call.otp
    ensures r.trace[i].outcome == Issued(r.trace[j].outcome.userId, r.trace[j].outcome.consumed)
  {
    hide IsRun;
    i := Provenance(r, j, r.trace[j].outcome.consumed);
  }

  /** A password change is preceded, less than ten minutes earlier, by a verifyOldPassword with the user's password of the time. */
  lemma SubmitPasswordChangeProvenance(r: Run, j: nat) returns (i: nat)
    requires IsRun(r) && j < |r.trace| && r.trace[j].call.CallSubmitPasswordChange? && r.trace[j].outcome.Consumed?
    ensures i < j && r.trace[j].now - 10 * MINUTE < r.trace[i].now <= r.trace[j].now
    ensures r.trace[i].call.CallVerifyOldPassword? && r.trace[i].call.drawn == r.trace[j].call.changeToken
    ensures r.trace[i].outcome == Issued(r.trace[j].outcome.userId, r.trace[j].outcome.consumed)
    ensures i < |r.states| && KnowsPassword(r.states[i], r.trace[j].outcome.userId, r.trace[i].call.oldPassword)
  {
    hide Step, Sees;
    i := Provenance(r, j, r.trace[j].outcome.consumed);
    assert IsStep(r.states[i], r.trace[i], r.states[i + 1]);
    VerifiedPasswordWasRight(r.states[i], r.trace[i].now, r.trace[i].call);
  }

  /** A login is preceded, less than five minutes earlier, by the sending of its OTP, for which initiateLogin was given the password. */
  lemma VerifyLoginProvenance(r: Run, j: nat) returns (i: nat)
    requires IsRun(r) && j < |r.trace| && r.trace[j].call.CallVerifyLogin? && r.trace[j].outcome.Consumed?
    ensures i < j && r.trace[j].now - 5 * MINUTE < r.trace[i].now <= r.trace[j].now
    ensures r.trace[i].call.CallInitiateLogin? || r.trace[i].call.CallResendLoginOtp?
    ensures r.trace[i].call.otp == r.trace[j].call.otp
    ensures r.trace[i].outcome == Issued(r.trace[j].outcome.userId, r.trace[j].outcome.consumed)
    ensures r.trace[i].call.CallInitiateLogin? ==>
              i < |r.states| && KnowsPassword(r.states[i], r.trace[j].outcome.userId, r.trace[i].call.password)
  {
    hide Step, Sees;
    i := Provenance(r, j, r.trace[j].outcome.consumed);
    assert IsStep(r.states[i], r.trace[i], r.states[i + 1]);
    if r.trace[i].call.CallInitiateLogin? {
      LoginPasswordWasRight(r.states[i], r.trace[i].now, r.trace[i].call);
    }
  }

  /** No token is ever used up twice. */
  lemma ConsumedOnce(r: Run, i: nat, j: nat, k: nat)
    requires IsRun(r) && i < j < |r.trace|
    requires Consumes(r.trace[i].outcome, k)
    ensures !Consumes(r.trace[j].outcome, k)
  {
    hide Step, Sees;
    assert IsStep(r.states[i], r.trace[i], r.states[i + 1]);
    StepConsumes(r.states[i], r.trace[i].now, r.trace[i].call, k);
    LaterAlong(r, i + 1, j);
    assert Aged(r.states[i + 1].tokens[k], r.states[j].tokens[k]);
    if Consumes(r.trace[j].outcome, k) {
      assert IsStep(r.states[j], r.trace[j], r.states[j + 1]);
      StepConsumes(r.states[j], r.trace[j].now, r.trace[j].call, k);
    }
  }

  /** An OTP with five recorded mismatches never yields a reset token again. */
  lemma LockedOtpStaysLocked(r: Run, i: nat, j: nat, k: nat)
    requires IsRun(r) && i <= j < |r.trace|
    requires k < |r.states[i].tokens| && r.states[i].tokens[k].attempts >= 5
    requires r.trace[j].call.CallValidateResetOtp?
    ensures !Consumes(r.trace[j].outcome, k)
  {
    hide Step, Sees;
    LaterAlong(r, i, j);
    assert Aged(r.states[i].tokens[k], r.states[j].tokens[k]);
    if Consumes(r.trace[j].outcome, k) {
      assert IsStep(r.states[j], r.trace[j], r.states[j + 1]);
      StepConsumes(r.states[j], r.trace[j].now, r.trace[j].call, k);
    }
  }

  /** A token that was issued stays in the table with its user, kind, purpose and time. */
  lemma IssuedStays(r: Run, i: nat, j: nat) returns (k: nat)
    requires IsRun(r) && i < j <= |r.trace| && (r.trace[i].outcome.Issued? || r.trace[i].outcome.Exchanged?)
    ensures k == r.trace[i].outcome.id < |r.states[j].tokens| && Issues(r.trace[i], k, r.states[j].tokens[k])
  {
    hide Step, Sees;
    assert IsStep(r.states[i], r.trace[i], r.states[i + 1]);
    OutcomeNamesNewToken(r.states[i], r.trace[i].now, r.trace[i].call);
    k := r.trace[i].outcome.id;
    LaterAlong(r, i + 1, j);
    assert Aged(r.states[i + 1].tokens[k], r.states[j].tokens[k]);
  }

  lemma OutcomeNamesNewToken(s: State, now: nat, c: Call)
    requires Sees(s, now, c)
    ensures var r := Step(s, now, c);
            r.outcome.Issued? || r.outcome.Exchanged? ==>
              && r.outcome.id == |s.tokens| && |r.state.tokens| == |s.tokens| + 1
              && Issues(Entry(now, c, r.outcome), |s.tokens|, r.state.tokens[|s.tokens|])
              && r.state.tokens[|s.tokens|].attempts == 0
  {
    hide FirstMatch, CountMismatches, FindUser, FindEmail, FindLoginOtp, Matches;
  }

  predicate IssuesOtp(e: Entry, userId: string) {
    && e.outcome.Issued? && e.outcome.userId == userId
    && (e.call.CallForgotPassword? || e.call.CallAddUser? || e.call.CallInitiateLogin? || e.call.CallResendLoginOtp?)
  }

  /** forgotPassword sends an OTP only if the user has not been sent any kind of OTP for a minute. */
  lemma ForgotPasswordSpacing(r: Run, i: nat, j: nat)
    requires IsRun(r) && i < j < |r.trace|
    requires r.trace[j].call.CallForgotPassword? && r.trace[j].outcome.Issued?
    requires IssuesOtp(r.trace[i], r.trace[j].outcome.userId)
    ensures r.trace[j].now >= r.trace[i].now + MINUTE
  {
    var k := IssuedStays(r, i, j);
    assert IsStep(r.states[j], r.trace[j], r.states[j + 1]);
    assert r.states[j].tokens[k].kind == Otp;
  }

  /** resendLoginOtp sends an OTP only if the login OTPs of the last minute have been used up. */
  lemma ResendSpacing(r: Run, i: nat, j: nat)
    requires IsRun(r) && i < j < |r.trace|
    requires r.trace[j].call.CallResendLoginOtp? && r.trace[j].outcome.Issued?
    requires IssuesOtp(r.trace[i], r.trace[j].outcome.userId)
    requires r.trace[i].call.CallInitiateLogin? || r.trace[i].call.CallResendLoginOtp?
    ensures r.trace[i].outcome.id < |r.states[j].tokens|
    ensures r.trace[j].now >= r.trace[i].now + MINUTE || r.states[j].tokens[r.trace[i].outcome.id].isUsed
  {
    var k := IssuedStays(r, i, j);
    assert IsStep(r.states[j], r.trace[j], r.states[j + 1]);
    assert r.states[j].tokens[k].purpose == Some(ForLogin);
  }
}
