/** How passwords come about and change, and exactly when somebody without one can still get one. */
module AuthPasswords {
  import opened Text
  import opened AuthModel
  import opened AuthRuns

  // ----- user management

  /**
   addUser succeeds exactly if nobody has the id or the e-mail and nothing else stands in the way.
   The e-mail then leads to a user who cannot log in with any password, and what was in the tables
   stays as it was: the invalidation before the OTP finds nothing.
   */
  lemma AddedUserIsPending(
    s: State, now: nat, id: string, email: string, obstacle: Option<Error>, mailReady: bool, otp: string,
    password: string, loginOtp: string)
    requires TableInvariant(s)
    ensures var r := AddUser(s, now, id, email, obstacle, mailReady, otp);
            var added := r.outcome.Saved? || r.outcome.Issued?;
            && (added <==> obstacle.None? && forall u :: u in s.users ==> u.id != id && u.email != email)
            && (added ==>
                  && FindEmail(r.state.users, email) == Some(|s.users|) && r.state.users[..|s.users|] == s.users
                  && !r.state.users[|s.users|].isActive
                  && InitiateLogin(r.state, now, email, password, loginOtp).outcome == Rejected(Unauthorized)
                  && r.state.tokens == s.tokens + (if mailReady
                       then [Token(id, Otp, Hashed(otp), now, now + 600_000, false, None, 0, Some(ForReset))] else [])
                  && r.outcome == (if mailReady then Issued(id, |s.tokens|) else Saved(id)))
            && (!added ==> r == Reply(s, Rejected(
                  if (forall u :: u in s.users ==> u.email != email) && obstacle.Some? then obstacle.value else Conflict)))
  {
    hide OneOpen, PlainOnce, FindUser, FindEmail;
    var r := AddUser(s, now, id, email, obstacle, mailReady, otp);
    if r.outcome.Saved? || r.outcome.Issued? {
      forall k | 0 <= k < |s.tokens|
        ensures s.tokens[k].userId != id
      {
        assert HasUser(s.users, s.tokens[k].userId);
      }
      assert r.state.users[|s.users|].email == email;
    }
  }

  /** A given e-mail that is not empty belongs to somebody else. */
  ghost predicate NonEmptyAndTaken(users: seq<User>, id: string, email: Option<string>) {
    email.Some? && email.value != "" && exists v :: v in users && v.email == email.value && v.id != id
  }

  /**
   updateUser and toggleUserActive succeed exactly if the user exists, nobody else has the e-mail and
   nothing else stands in the way. The e-mail then leads to this user, whose password stays.
   */
  lemma UpdatedUserReads(s: State, id: string, email: Option<string>, active: Option<bool>, obstacle: Option<Error>)
    requires TableInvariant(s)
    ensures var r, u := UpdateUser(s, id, email, active, obstacle), FindUser(s.users, id);
            && (r.outcome.Saved? <==>
                  u.Some? && obstacle.None? && (email.Some? ==> forall v :: v in s.users && v.email == email.value ==> v.id == id))
            && (r.outcome.Saved? ==>
                  && |r.state.users| == |s.users| && r.state == s.(users := s.users[u.value := r.state.users[u.value]])
                  && r.state.users[u.value].id == id && r.state.users[u.value].password == s.users[u.value].password
                  && (if email.Some? then FindEmail(r.state.users, email.value) == u
                      else r.state.users[u.value].email == s.users[u.value].email)
                  && (r.state.users[u.value].isActive <==> if active.Some? then active.value else s.users[u.value].isActive))
            && (!r.outcome.Saved? ==> r.state == s && r.outcome.Rejected?)
            && (r.outcome.Rejected? ==> r.outcome == Rejected(
                  if u.None? then NotFound
                  else if NonEmptyAndTaken(s.users, id, email) || obstacle.None? then Conflict else obstacle.value))
  {
    hide OneOpen, PlainOnce, HasUser, FindUser, FindEmail;
    var r, u := UpdateUser(s, id, email, active, obstacle), FindUser(s.users, id);
    if u.Some? && email.Some? {
      forall i | 0 <= i < |s.users| && s.users[i].id == id
        ensures i == u.value
      {
      }
      if r.outcome.Saved? {
        assert r.state.users[u.value].email == email.value;
      } else if v :| 0 <= v < |s.users| && v != u.value && s.users[v].email == email.value {
        assert s.users[v] in s.users;
      }
    }
  }

  /**
   Seeding does nothing for a known e-mail, and otherwise adds an active user whose password, and no
   other, opens a login, unless the id is known. Seeding again changes nothing.
   */
  lemma SeededAdminLogsIn(
    s: State, now: nat, id: string, email: string, password: string, again: string, later: string, attempt: string, otp: string)
    ensures var r := SeedAdmin(s, id, email, password);
            && (r.outcome == Ignored <==> exists u :: u in s.users && u.email == email)
            && (r.outcome == Rejected(Conflict) <==>
                  (forall u :: u in s.users ==> u.email != email) && exists u :: u in s.users && u.id == id)
            && (r.outcome != Ignored && r.outcome != Rejected(Conflict) ==>
                  && r.outcome == Saved(id)
                  && |r.state.users| == |s.users| + 1 && r.state == s.(users := s.users + [r.state.users[|s.users|]])
                  && r.state.users[|s.users|].id == id && r.state.users[|s.users|].isActive
                  && SeedAdmin(r.state, again, email, later) == Reply(r.state, Ignored)
                  && (InitiateLogin(r.state, now, email, attempt, otp).outcome == Rejected(Unauthorized) <==> attempt != password))
            && (r.outcome == Ignored || r.outcome == Rejected(Conflict) ==> r.state == s)
  {
    hide FindUser, FindEmail, UseAll;
    var r := SeedAdmin(s, id, email, password);
    if r.outcome.Saved? {
      assert r.state.users[|s.users|].email == email;
      assert FindEmail(r.state.users, email) == Some(|s.users|);
    }
    var byEmail, byId := FindEmail(s.users, email), FindUser(s.users, id);
    assert byEmail.Some? ==> s.users[byEmail.value] in s.users;
    assert byId.Some? ==> s.users[byId.value] in s.users;
  }

  // ----- changes of passwords

  /**
   A password changes only in a step that uses up a token of its owner, and it becomes the
   submitted one. Only updateUser and a first password change the active flag.
   */
  lemma PasswordChangeUsesToken(s: State, now: nat, c: Call, u: nat)
    requires Sees(s, now, c) && u < |s.users| && TableInvariant(s)
    ensures u < |Step(s, now, c).state.users|
    ensures var r := Step(s, now, c);
            var before, after := s.users[u], r.state.users[u];
            && (after.password != before.password ==>
                  && r.outcome.Consumed? && r.outcome.userId == before.id
                  && (c.CallSubmitNewPassword? || (c.CallSubmitPasswordChange? && before.password.Some?))
                  && after.password == Some(Hashed(c.newPassword)))
            && (after.isActive != before.isActive ==>
                  || (c.CallUpdateUser? && c.id == before.id && c.active == Some(after.isActive))
                  || (c.CallSubmitNewPassword? && before.password.None? && after.password.Some? && after.isActive))
            && (before.password.None? && after.password.Some? ==> after.isActive)
            && (after.email != before.email ==> c.CallUpdateUser? && c.id == before.id && c.newEmail == Some(after.email))
  {
    hide FirstMatch, CountMismatches, FindUser, FindEmail, FindLoginOtp, UseAll, OneOpen, PlainOnce, UniqueEmails;
  }

  /** verifyOldPassword serves users with a password only, and forgotPassword sends an OTP for a reset to those only. */
  lemma IssuerHadPassword(s: State, now: nat, c: Call, u: nat)
    requires Sees(s, now, c) && UniqueIds(s.users) && Step(s, now, c).outcome.Issued?
    requires u < |s.users| && s.users[u].id == Step(s, now, c).outcome.userId
    ensures c.CallVerifyOldPassword? ==> s.users[u].password.Some?
    ensures c.CallForgotPassword? ==>
              && |Step(s, now, c).state.tokens| == |s.tokens| + 1
              && (Step(s, now, c).state.tokens[|s.tokens|].purpose == Some(ForReset) <==> s.users[u].password.Some?)
  {
    hide FirstMatch, CountMismatches, FindUser, FindEmail, FindLoginOtp, UseAll;
  }

  /** Over a run the token that verifyOldPassword or forgotPassword issued for a password shows that its owner has one. */
  lemma OwnerHasPassword(r: Run, i: nat, n: nat, u: nat)
    requires IsRun(r) && i < n <= |r.trace| && r.trace[i].outcome.Issued?
    requires u < |r.states[n].users| && r.states[n].users[u].id == r.trace[i].outcome.userId
    requires r.trace[i].outcome.id < |r.states[n].tokens|
    requires || r.trace[i].call.CallVerifyOldPassword?
             || (r.trace[i].call.CallForgotPassword? && r.states[n].tokens[r.trace[i].outcome.id].purpose == Some(ForReset))
    ensures r.states[n].users[u].password.Some?
  {
    hide Step, Sees;
    var s, e := r.states[i], r.trace[i];
    assert IsStep(s, e, r.states[i + 1]);
    InvariantAlong(r, i);
    InvariantAlong(r, n);
    OutcomeNamesNewToken(s, e.now, e.call);
    LaterAlong(r, i + 1, n);
    assert Aged(r.states[i + 1].tokens[e.outcome.id], r.states[n].tokens[e.outcome.id]);
    LaterAlong(r, i, n);
    var v := IssuerIndex(s, e.now, e.call);
    assert SameUser(s.users[v], r.states[n].users[v]);
    IssuerHadPassword(s, e.now, e.call, v);
  }

  /** The row of the user for whom verifyOldPassword or forgotPassword issues a token. */
  lemma IssuerIndex(s: State, now: nat, c: Call) returns (v: nat)
    requires Sees(s, now, c) && Step(s, now, c).outcome.Issued? && (c.CallVerifyOldPassword? || c.CallForgotPassword?)
    ensures v < |s.users| && s.users[v].id == Step(s, now, c).outcome.userId
  {
    hide UseAll;
    v := if c.CallVerifyOldPassword? then FindUser(s.users, c.userId).value else FindEmail(s.users, c.email).value;
  }

  /**
   Where a first password comes from: submitNewPassword used up a token that validateResetOtp had
   handed out less than ten minutes earlier, for the OTP that addUser had sent to that user less
   than ten minutes before that. The user becomes active.
   */
  lemma FirstPasswordProvenance(r: Run, n: nat, u: nat) returns (h: nat, i: nat)
    requires IsRun(r) && n < |r.trace| && u < |r.states[n].users| && u < |r.states[n + 1].users|
    requires r.states[n].users[u].password.None? && r.states[n + 1].users[u].password.Some?
    ensures h < i < n
    ensures r.trace[h].call.CallAddUser? && r.trace[h].call.id == r.states[n].users[u].id
    ensures r.trace[i].call.CallValidateResetOtp? && r.trace[i].call.otp == r.trace[h].call.otp
    ensures r.trace[n].call.CallSubmitNewPassword? && r.trace[n].call.resetToken == r.trace[i].call.drawn
    ensures r.trace[i].now - 10 * MINUTE < r.trace[h].now <= r.trace[i].now
    ensures r.trace[n].now - 10 * MINUTE < r.trace[i].now <= r.trace[n].now
    ensures r.states[n + 1].users[u] == r.states[n].users[u].(password := Some(Hashed(r.trace[n].call.newPassword)), isActive := true)
  {
    hide Step, Sees;
    var e := r.trace[n];
    assert IsStep(r.states[n], e, r.states[n + 1]);
    InvariantAlong(r, n);
    PasswordChangeUsesToken(r.states[n], e.now, e.call, u);
    OnlyPasswordAndFlagChange(r.states[n], e.now, e.call, u);
    var k := e.outcome.consumed;
    i := Provenance(r, n, k);
    if r.trace[i].call.CallVerifyOldPassword? {
      OwnerHasPassword(r, i, n, u);
    }
    var o := r.trace[i].outcome.consumed;
    h := Provenance(r, i, o);
    if r.trace[h].call.CallForgotPassword? {
      LaterAlong(r, i, n);
      assert Aged(r.states[i].tokens[o], r.states[n].tokens[o]);
      OwnerHasPassword(r, h, n, u);
    }
  }

  lemma OnlyPasswordAndFlagChange(s: State, now: nat, c: Call, u: nat)
    requires Sees(s, now, c) && u < |s.users| && c.CallSubmitNewPassword? && u < |Step(s, now, c).state.users|
    ensures var after := Step(s, now, c).state.users[u];
            after == s.users[u].(password := after.password, isActive := after.isActive)
  {
    hide FirstMatch, FindUser, UseAll;
  }

  // ----- when a first password is still possible

  /** A token that can lead to a new password: a reset token, or an OTP to be exchanged for one. */
  predicate IsWay(t: Token, now: nat) {
    !t.isUsed && t.expiresAt > now && (t.kind == PasswordReset || (t.purpose == Some(ForReset) && t.attempts < 5))
  }

  ghost predicate HasWay(tokens: seq<Token>, userId: string, now: nat) {
    exists k :: 0 <= k < |tokens| && tokens[k].userId == userId && IsWay(tokens[k], now)
  }

  /** Calls with their times, from a state and a time on, and the state they lead to. */
  datatype Timed = Timed(now: nat, call: Call)

  ghost predicate Leads(s: State, now: nat, calls: seq<Timed>, s': State)
    decreases |calls|
  {
    if calls == [] then s' == s
    else
      && now <= calls[0].now && Sees(s, calls[0].now, calls[0].call)
      && Leads(Step(s, calls[0].now, calls[0].call).state, calls[0].now, calls[1..], s')
  }

  /** No step opens a way for somebody who has neither a password nor a way. */
  lemma NoWayStep(s: State, t: nat, now: nat, c: Call, u: nat)
    requires TableInvariant(s) && u < |s.users| && s.users[u].password.None? && !HasWay(s.tokens, s.users[u].id, t)
    requires t <= now && Sees(s, now, c)
    ensures var s' := Step(s, now, c).state;
            && u < |s'.users| && s'.users[u].id == s.users[u].id && s'.users[u].password.None?
            && !HasWay(s'.tokens, s.users[u].id, now)
  {
    hide Step, Sees, OneOpen, PlainOnce, UniqueEmails;
    var r, n := Step(s, now, c), |s.tokens|;
    StepLater(s, now, c);
    assert SameUser(s.users[u], r.state.users[u]);
    PasswordChangeUsesToken(s, now, c, u);
    if r.outcome.Consumed? || r.outcome.Exchanged? {
      StepConsumes(s, now, c, r.outcome.consumed);
      assert !(s.tokens[r.outcome.consumed].userId == s.users[u].id && IsWay(s.tokens[r.outcome.consumed], t));
    }
    forall k | 0 <= k < |r.state.tokens| && r.state.tokens[k].userId == s.users[u].id
      ensures !IsWay(r.state.tokens[k], now)
    {
      if k < n {
        assert Aged(s.tokens[k], r.state.tokens[k]);
        assert !IsWay(s.tokens[k], t);
      } else {
        StepIssues(s, now, c);
        NewTokenIsNoWay(s, now, c, u);
      }
    }
  }

  lemma NewTokenIsNoWay(s: State, now: nat, c: Call, u: nat)
    requires Sees(s, now, c) && UniqueIds(s.users) && u < |s.users| && s.users[u].password.None?
    requires |Step(s, now, c).state.tokens| == |s.tokens| + 1 && !Step(s, now, c).outcome.Exchanged?
    requires Step(s, now, c).state.tokens[|s.tokens|].userId == s.users[u].id
    ensures !IsWay(Step(s, now, c).state.tokens[|s.tokens|], now)
  {
    hide FirstMatch, CountMismatches, FindUser, FindEmail, FindLoginOtp, UseAll;
  }

  lemma {:induction false} NoWayAlong(s: State, t: nat, calls: seq<Timed>, s': State, u: nat)
    requires TableInvariant(s) && u < |s.users| && s.users[u].password.None? && !HasWay(s.tokens, s.users[u].id, t)
    requires Leads(s, t, calls, s')
    ensures u < |s'.users| && s'.users[u].password.None?
    decreases |calls|
  {
    hide Step, Sees, TableInvariant, HasWay;
    if calls != [] {
      var now, c := calls[0].now, calls[0].call;
      NoWayStep(s, t, now, c, u);
      StepKeepsInvariant(s, now, c);
      NoWayAlong(Step(s, now, c).state, now, calls[1..], s', u);
    }
  }

  /** The database may list active tokens in any order, so any of them in front. */
  lemma ListingFrom(tokens: seq<Token>, q: Search, now: nat, front: seq<nat>) returns (order: seq<nat>)
    requires forall a :: 0 <= a < |front| ==> front[a] < |tokens| && Active(tokens[front[a]], q, now)
    requires forall a, b :: 0 <= a < b < |front| ==> front[a] != front[b]
    ensures IsListing(order, tokens, q, now) && front <= order
  {
    order := front;
    for i := 0 to |tokens|
      invariant front <= order
      invariant forall a, b :: 0 <= a < b < |order| ==> order[a] != order[b]
      invariant forall a :: 0 <= a < |order| ==> order[a] < |tokens| && Active(tokens[order[a]], q, now) && (a < |front| || order[a] < i)
      invariant forall k :: 0 <= k < i && Active(tokens[k], q, now) ==> k in order
    {
      if Active(tokens[i], q, now) && i !in front {
        order := order + [i];
      }
    }
  }

  /** Whoever knows the text of an active reset token can set its owner's password. */
  lemma ResetTokenWorks(s: State, now: nat, u: nat, k: nat, newPassword: string) returns (c: Call)
    requires TableInvariant(s) && u < |s.users| && k < |s.tokens| && s.tokens[k].userId == s.users[u].id
    requires s.tokens[k].kind == PasswordReset && IsWay(s.tokens[k], now)
    ensures Sees(s, now, c)
    ensures var users := Step(s, now, c).state.users;
            u < |users| && users[u].password == Some(Hashed(newPassword))
  {
    hide UseAll, OneOpen, UniqueEmails;
    assert s.tokens[k].token.Hashed?;
    var text := s.tokens[k].token.text;
    var order := ListingFrom(s.tokens, Search(PasswordReset, None, None), now, [k]);
    c := CallSubmitNewPassword(text, newPassword, order);
    assert FirstMatch(s.tokens, order, text) == Some(k);
    assert FindUser(s.users, s.users[u].id) == Some(u);
  }

  /** Whoever knows the text of an unlocked reset OTP can get a reset token for its owner. */
  lemma OtpWorks(s: State, now: nat, k: nat, drawn: string) returns (c: Call)
    requires PlainOnce(s.tokens) && k < |s.tokens|
    requires s.tokens[k].kind == Otp && IsWay(s.tokens[k], now)
    ensures Sees(s, now, c) && c.CallValidateResetOtp?
    ensures Step(s, now, c).state.users == s.users
    ensures var tokens := Step(s, now, c).state.tokens;
            |tokens| == |s.tokens| + 1 && tokens[|s.tokens|].userId == s.tokens[k].userId &&
            tokens[|s.tokens|].kind == PasswordReset && IsWay(tokens[|s.tokens|], now)
  {
    hide UseAll;
    assert s.tokens[k].token.Hashed?;
    var text := s.tokens[k].token.text;
    var order := ListingFrom(s.tokens, Search(Otp, None, None), now, [k]);
    c := CallValidateResetOtp(text, drawn, order);
    assert FirstMatch(s.tokens, order, text) == Some(k);
    assert CountMismatches(s.tokens, order, text) == s.tokens;
  }

  lemma WayLeadsToPassword(s: State, now: nat, u: nat) returns (calls: seq<Timed>, s': State)
    requires TableInvariant(s) && u < |s.users| && HasWay(s.tokens, s.users[u].id, now)
    ensures Leads(s, now, calls, s') && u < |s'.users| && s'.users[u].password.Some?
  {
    hide Step, Sees, OneOpen, PlainOnce, UniqueIds, UniqueEmails, HasUser;
    var k :| 0 <= k < |s.tokens| && s.tokens[k].userId == s.users[u].id && IsWay(s.tokens[k], now);
    var between, way, prefix := s, k, [];
    if s.tokens[k].kind == Otp {
      var exchange := OtpWorks(s, now, k, "");
      StepKeepsInvariant(s, now, exchange);
      between, way, prefix := Step(s, now, exchange).state, |s.tokens|, [Timed(now, exchange)];
    }
    var submit := ResetTokenWorks(between, now, u, way, "");
    s' := Step(between, now, submit).state;
    var last := [Timed(now, submit)];
    assert Leads(s', now, [], s');
    assert last[1..] == [];
    assert Leads(between, now, last, s');
    calls := prefix + last;
    if prefix != [] {
      assert calls[1..] == last;
    }
  }

  /**
   Somebody without a password can still get one, in any continuation, exactly while a reset token
   or an unlocked OTP for a reset is open for them.
   */
  lemma FirstPasswordIff(s: State, now: nat, u: nat)
    requires TableInvariant(s) && u < |s.users| && s.users[u].password.None?
    ensures (exists calls, s' :: Leads(s, now, calls, s') && u < |s'.users| && s'.users[u].password.Some?)
       <==> HasWay(s.tokens, s.users[u].id, now)
  {
    hide Leads, TableInvariant, HasWay;
    if HasWay(s.tokens, s.users[u].id, now) {
      var calls, s' := WayLeadsToPassword(s, now, u);
    } else {
      forall calls, s' | Leads(s, now, calls, s')
        ensures u < |s'.users| && s'.users[u].password.None?
      {
        NoWayAlong(s, now, calls, s', u);
      }
    }
  }

  /** The way of somebody without a password comes from an addUser less than twenty minutes ago. */
  lemma WayComesFromAddUser(r: Run, n: nat, u: nat, now: nat) returns (h: nat)
    requires IsRun(r) && n <= |r.trace| && u < |r.states[n].users| && r.states[n].users[u].password.None?
    requires forall i :: 0 <= i < n ==> r.trace[i].now <= now
    requires HasWay(r.states[n].tokens, r.states[n].users[u].id, now)
    ensures h < n && r.trace[h].call.CallAddUser? && r.trace[h].call.id == r.states[n].users[u].id
    ensures r.trace[h].outcome.Issued? && r.trace[h].now <= now < r.trace[h].now + 20 * MINUTE
  {
    hide Step, Sees;
    var tokens := r.states[n].tokens;
    var k :| 0 <= k < |tokens| && tokens[k].userId == r.states[n].users[u].id && IsWay(tokens[k], now);
    h := IssuedEarlier(r, n, k);
    if r.trace[h].call.CallVerifyOldPassword? || r.trace[h].call.CallForgotPassword? {
      OwnerHasPassword(r, h, n, u);
    } else if r.trace[h].call.CallValidateResetOtp? {
      var i, o := h, r.trace[h].outcome.consumed;
      h := Provenance(r, i, o);
      if r.trace[h].call.CallForgotPassword? {
        LaterAlong(r, i, n);
        assert Aged(r.states[i].tokens[o], tokens[o]);
        OwnerHasPassword(r, h, n, u);
      }
    }
  }

  /**
   From twenty minutes after addUser on, somebody who has not chosen a password by then never gets
   one: forgotPassword sends such a user WELCOME OTPs only, and nothing accepts these.
   */
  lemma InvitationLapses(r: Run, n: nat, u: nat, now: nat, calls: seq<Timed>, s': State)
    requires IsRun(r) && n <= |r.trace| && u < |r.states[n].users| && r.states[n].users[u].password.None?
    requires forall i :: 0 <= i < n ==> r.trace[i].now <= now
    requires forall h :: 0 <= h < n && r.trace[h].call.CallAddUser? && r.trace[h].call.id == r.states[n].users[u].id
               ==> r.trace[h].now + 20 * MINUTE <= now
    requires Leads(r.states[n], now, calls, s')
    ensures u < |s'.users| && s'.users[u].password.None?
  {
    hide Step, Sees, Leads, TableInvariant, HasWay;
    if HasWay(r.states[n].tokens, r.states[n].users[u].id, now) {
      var h := WayComesFromAddUser(r, n, u, now);
      assert false;
    }
    InvariantAlong(r, n);
    NoWayAlong(r.states[n], now, calls, s', u);
  }
}
