/**
 The user and token tables of the admin service, and what the operations of authentication and of
 user management do to them.
 Hashing is ideal: a hash matches the text it was made from and nothing else. Every operation
 is one atomic step at a time given in milliseconds; texts drawn at random are parameters.
 The id of a token is its position in the table.
 */
module AuthModel {
  import opened Text

  const MINUTE: nat := 60 * 1000

  datatype Secret = Plain(text: string) | Hashed(text: string)

  /** comparePassword: the stored value has to be a hash of the input. */
  predicate Compare(input: string, stored: Secret) {
    stored == Hashed(input)
  }

  datatype Kind = Otp | PasswordReset
  datatype Purpose = ForReset | ForWelcome | ForLogin | ForChange

  datatype Token = Token(
    userId: string, kind: Kind, token: Secret, createdAt: nat, expiresAt: nat,
    isUsed: bool, usedAt: Option<nat>, attempts: nat, purpose: Option<Purpose>)

  datatype User = User(id: string, email: string, password: Option<Secret>, isActive: bool)

  datatype State = State(users: seq<User>, tokens: seq<Token>)

  datatype Error = Unauthorized | Validation | NotFound | Conflict

  /** What a call does: refuse, do nothing, write a user only, issue a token, exchange one for another, or use one up. */
  datatype Outcome =
    | Rejected(error: Error)
    | Ignored
    | Saved(userId: string)
    | Issued(userId: string, id: nat)
    | Exchanged(userId: string, consumed: nat, id: nat)
    | Consumed(userId: string, consumed: nat)

  datatype Reply = Reply(state: State, outcome: Outcome)

  // ----- tables

  function FindUser(users: seq<User>, id: string): (r: Option<nat>)
    ensures r.Some? ==> r.value < |users| && users[r.value].id == id
    ensures r.None? ==> forall i :: 0 <= i < |users| ==> users[i].id != id
  {
    if users == [] then None
    else if users[|users| - 1].id == id && FindUser(users[..|users| - 1], id).None? then Some(|users| - 1)
    else FindUser(users[..|users| - 1], id)
  }

  function FindEmail(users: seq<User>, email: string): (r: Option<nat>)
    ensures r.Some? ==> r.value < |users| && users[r.value].email == email
    ensures r.None? ==> forall i :: 0 <= i < |users| ==> users[i].email != email
  {
    if users == [] then None
    else if users[|users| - 1].email == email && FindEmail(users[..|users| - 1], email).None? then Some(|users| - 1)
    else FindEmail(users[..|users| - 1], email)
  }

  /** The where clause of a bulk invalidation; it always asks for unused tokens of one user. */
  datatype Where = Where(userId: string, kind: Kind, purpose: Option<Purpose>)

  predicate Matches(t: Token, w: Where) {
    t.userId == w.userId && t.kind == w.kind && !t.isUsed && (w.purpose.Some? ==> t.purpose == w.purpose)
  }

  /** updateMany with isUsed: true, and usedAt if a time is given. */
  function Use(t: Token, at: Option<nat>): Token {
    t.(isUsed := true, usedAt := if at.Some? then at else t.usedAt)
  }

  function UseAll(tokens: seq<Token>, w: Where, at: Option<nat>): (r: seq<Token>)
    ensures |r| == |tokens|
  {
    seq(|tokens|, i requires 0 <= i < |tokens| => if Matches(tokens[i], w) then Use(tokens[i], at) else tokens[i])
  }

  /** The where clause of a search for active tokens. */
  datatype Search = Search(kind: Kind, userId: Option<string>, purpose: Option<Purpose>)

  predicate Active(t: Token, q: Search, now: nat) {
    && t.kind == q.kind && !t.isUsed && t.expiresAt > now
    && (q.userId.Some? ==> t.userId == q.userId.value)
    && (q.purpose.Some? ==> t.purpose == q.purpose)
  }

  /** The ids that findMany returns; the database chooses their order. */
  ghost predicate IsListing(order: seq<nat>, tokens: seq<Token>, q: Search, now: nat) {
    && (forall i, j :: 0 <= i < j < |order| ==> order[i] != order[j])
    && (forall i :: 0 <= i < |order| ==> order[i] < |tokens| && Active(tokens[order[i]], q, now))
    && (forall k :: 0 <= k < |tokens| && Active(tokens[k], q, now) ==> k in order)
  }

  predicate InRange(order: seq<nat>, tokens: seq<Token>) {
    forall i :: 0 <= i < |order| ==> order[i] < |tokens|
  }

  /** The search loop: the first listed token whose hash fits the input. */
  function FirstMatch(tokens: seq<Token>, order: seq<nat>, input: string): (r: Option<nat>)
    requires InRange(order, tokens)
    ensures r.Some? ==> r.value in order && r.value < |tokens| && Compare(input, tokens[r.value].token)
    ensures r.None? ==> forall i :: 0 <= i < |order| ==> !Compare(input, tokens[order[i]].token)
  {
    if order == [] then None
    else if Compare(input, tokens[order[0]].token) then Some(order[0])
    else FirstMatch(tokens, order[1..], input)
  }

  /** Only the stored texts matter for a match. */
  lemma {:induction false} SameTexts(a: seq<Token>, b: seq<Token>, order: seq<nat>, input: string)
    requires InRange(order, a) && |a| == |b| && forall i :: 0 <= i < |a| ==> a[i].token == b[i].token
    ensures FirstMatch(a, order, input) == FirstMatch(b, order, input)
    decreases |order|
  {
    if order != [] { SameTexts(a, b, order[1..], input); }
  }

  /** The same loop in validateResetOtp, where every mismatch before the match is recorded. */
  function CountMismatches(tokens: seq<Token>, order: seq<nat>, input: string): (r: seq<Token>)
    requires InRange(order, tokens)
    ensures |r| == |tokens|
    decreases |order|
  {
    if order == [] || Compare(input, tokens[order[0]].token) then tokens
    else
      var t := tokens[order[0]];
      CountMismatches(tokens[order[0] := t.(attempts := t.attempts + 1)], order[1..], input)
  }

  // ----- operations

  function VerifyOldPassword(s: State, now: nat, userId: string, oldPassword: string, drawn: string): Reply {
    var u := FindUser(s.users, userId);
    if userId == "" then Reply(s, Rejected(Unauthorized))
    else if oldPassword == "" then Reply(s, Rejected(Validation))
    else if u.None? then Reply(s, Rejected(NotFound))
    else if s.users[u.value].password.None? then Reply(s, Rejected(Unauthorized))
    else if !Compare(oldPassword, s.users[u.value].password.value) then Reply(s, Rejected(Unauthorized))
    else
      var kept := UseAll(s.tokens, Where(userId, PasswordReset, Some(ForChange)), Some(now));
      var token := Token(userId, PasswordReset, Hashed(drawn), now, now + 10 * MINUTE, false, None, 0, Some(ForChange));
      Reply(s.(tokens := kept + [token]), Issued(userId, |kept|))
  }

  function SubmitPasswordChange(s: State, now: nat, userId: string, changeToken: string, newPassword: string, order: seq<nat>): Reply
    requires InRange(order, s.tokens)
  {
    var u := FindUser(s.users, userId);
    if userId == "" then Reply(s, Rejected(Unauthorized))
    else if changeToken == "" || newPassword == "" then Reply(s, Rejected(Validation))
    else if u.None? then Reply(s, Rejected(NotFound))
    else if s.users[u.value].password.None? then Reply(s, Rejected(Unauthorized))
    else if Compare(newPassword, s.users[u.value].password.value) then Reply(s, Rejected(Validation))
    else
      var matched := FirstMatch(s.tokens, order, changeToken);
      if matched.None? then Reply(s, Rejected(Validation))
      else
        var k := matched.value;
        var used := s.tokens[k := Use(s.tokens[k], Some(now))];
        Reply(State(s.users[u.value := s.users[u.value].(password := Some(Hashed(newPassword)))],
                    UseAll(used, Where(userId, PasswordReset, Some(ForChange)), Some(now))),
              Consumed(userId, k))
  }

  /** An OTP of the user, used or not, that is younger than one minute. */
  predicate HasRecentOtp(tokens: seq<Token>, userId: string, now: nat) {
    exists i :: 0 <= i < |tokens| && tokens[i].userId == userId && tokens[i].kind == Otp && tokens[i].createdAt > now - MINUTE
  }

  function ForgotPassword(s: State, now: nat, email: string, otp: string): Reply {
    var u := FindEmail(s.users, email);
    if u.None? then Reply(s, Ignored)
    else
      var user := s.users[u.value];
      if HasRecentOtp(s.tokens, user.id, now) then Reply(s, Ignored)
      else
        var purpose := if user.password.Some? then ForReset else ForWelcome;
        var kept := UseAll(s.tokens, Where(user.id, Otp, None), Some(now));
        var token := Token(user.id, Otp, Hashed(otp), now, now + 10 * MINUTE, false, None, 0, Some(purpose));
        Reply(s.(tokens := kept + [token]), Issued(user.id, |kept|))
  }

  function ValidateResetOtp(s: State, now: nat, otp: string, drawn: string, order: seq<nat>): Reply
    requires InRange(order, s.tokens)
  {
    var matched := FirstMatch(s.tokens, order, otp);
    var counted := CountMismatches(s.tokens, order, otp);
    if matched.None? then Reply(s.(tokens := counted), Rejected(Validation))
    else
      var k := matched.value;
      var used := counted[k := Use(counted[k], Some(now))];
      if s.tokens[k].attempts >= 5 then Reply(s.(tokens := used), Rejected(Validation))
      else if s.tokens[k].purpose != Some(ForReset) then Reply(s.(tokens := counted), Rejected(Validation))
      else
        var userId := s.tokens[k].userId;
        var kept := UseAll(used, Where(userId, PasswordReset, None), Some(now));
        var token := Token(userId, PasswordReset, Hashed(drawn), now, now + 10 * MINUTE, false, None, 0, None);
        Reply(s.(tokens := kept + [token]), Exchanged(userId, k, |kept|))
  }

  function SubmitNewPassword(s: State, now: nat, resetToken: string, newPassword: string, order: seq<nat>): Reply
    requires InRange(order, s.tokens)
  {
    var matched := FirstMatch(s.tokens, order, resetToken);
    if matched.None? then Reply(s, Rejected(Validation))
    else
      var k := matched.value;
      var userId := s.tokens[k].userId;
      var u := FindUser(s.users, userId);
      if u.None? then Reply(s, Rejected(NotFound))
      else
        var user := s.users[u.value];
        var used := s.tokens[k := Use(s.tokens[k], Some(now))];
        Reply(State(s.users[u.value := user.(password := Some(Hashed(newPassword)),
                                             isActive := if user.password.Some? then user.isActive else true)],
                    UseAll(used, Where(userId, PasswordReset, None), Some(now))),
              Consumed(userId, k))
  }

  /** The token column is unique, so a plain text can be stored once only. */
  predicate PlainTaken(tokens: seq<Token>, text: string) {
    exists i :: 0 <= i < |tokens| && tokens[i].token == Plain(text)
  }

  function IssueLoginOtp(s: State, now: nat, userId: string, otp: string): Reply {
    var kept := UseAll(s.tokens, Where(userId, Otp, Some(ForLogin)), None);
    if PlainTaken(kept, otp) then Reply(s.(tokens := kept), Rejected(Conflict))
    else
      var token := Token(userId, Otp, Plain(otp), now, now + 5 * MINUTE, false, None, 0, Some(ForLogin));
      Reply(s.(tokens := kept + [token]), Issued(userId, |kept|))
  }

  function InitiateLogin(s: State, now: nat, email: string, password: string, otp: string): Reply {
    var u := FindEmail(s.users, email);
    if u.None? then Reply(s, Rejected(NotFound))
    else
      var user := s.users[u.value];
      if user.password.None? || !Compare(password, user.password.value) then Reply(s, Rejected(Unauthorized))
      else IssueLoginOtp(s, now, user.id, otp)
  }

  predicate IsLoginCandidate(t: Token, userId: string, otp: string, now: nat) {
    t.userId == userId && t.token == Plain(otp) && t.kind == Otp && !t.isUsed && t.expiresAt > now
  }

  function FindLoginOtp(tokens: seq<Token>, userId: string, otp: string, now: nat): (r: Option<nat>)
    ensures r.Some? ==> r.value < |tokens| && IsLoginCandidate(tokens[r.value], userId, otp, now)
    ensures r.None? ==> forall i :: 0 <= i < |tokens| ==> !IsLoginCandidate(tokens[i], userId, otp, now)
  {
    if tokens == [] then None
    else
      var earlier := FindLoginOtp(tokens[..|tokens| - 1], userId, otp, now);
      if earlier.Some? then earlier
      else if IsLoginCandidate(tokens[|tokens| - 1], userId, otp, now) then Some(|tokens| - 1)
      else None
  }

  function VerifyLogin(s: State, now: nat, email: string, otp: string): Reply {
    var u := FindEmail(s.users, email);
    if u.None? then Reply(s, Rejected(NotFound))
    else
      var userId := s.users[u.value].id;
      var found := FindLoginOtp(s.tokens, userId, otp, now);
      if found.None? || s.tokens[found.value].purpose != Some(ForLogin) then Reply(s, Rejected(Validation))
      else
        Reply(s.(tokens := s.tokens[found.value := Use(s.tokens[found.value], Some(now))]), Consumed(userId, found.value))
  }

  predicate HasRecentLoginOtp(tokens: seq<Token>, userId: string, now: nat) {
    exists i :: 0 <= i < |tokens| && Matches(tokens[i], Where(userId, Otp, Some(ForLogin))) && tokens[i].createdAt > now - MINUTE
  }

  function ResendLoginOtp(s: State, now: nat, email: string, otp: string): Reply {
    var u := FindEmail(s.users, email);
    if u.None? then Reply(s, Rejected(NotFound))
    else
      var user := s.users[u.value];
      if user.password.None? then Reply(s, Rejected(Unauthorized))
      else if HasRecentLoginOtp(s.tokens, user.id, now) then Reply(s, Ignored)
      else IssueLoginOtp(s, now, user.id, otp)
  }

  // ----- user management

  /**
   addUser: a new user has no password and is not active. If the mail service is ready the user
   is sent an OTP, whose purpose is that of a reset. What the lookups of phone number, role and
   department object to is an input.
   */
  function AddUser(s: State, now: nat, id: string, email: string, obstacle: Option<Error>, mailReady: bool, otp: string): Reply {
    if FindEmail(s.users, email).Some? then Reply(s, Rejected(Conflict))
    else if obstacle.Some? then Reply(s, Rejected(obstacle.value))
    else if FindUser(s.users, id).Some? then Reply(s, Rejected(Conflict))
    else
      var added := s.(users := s.users + [User(id, email, None, false)]);
      if !mailReady then Reply(added, Saved(id))
      else
        var kept := UseAll(s.tokens, Where(id, Otp, None), Some(now));
        var token := Token(id, Otp, Hashed(otp), now, now + 10 * MINUTE, false, None, 0, Some(ForReset));
        Reply(added.(tokens := kept + [token]), Issued(id, |kept|))
  }

  /** The e-mail column is unique. */
  predicate EmailTaken(users: seq<User>, email: string, except: nat) {
    exists i :: 0 <= i < |users| && i != except && users[i].email == email
  }

  /** updateUser, and toggleUserActive, which gives the flag only. An empty e-mail is written without a check of its own. */
  function UpdateUser(s: State, id: string, email: Option<string>, active: Option<bool>, obstacle: Option<Error>): Reply {
    var u := FindUser(s.users, id);
    if u.None? then Reply(s, Rejected(NotFound))
    else
      var user := s.users[u.value];
      if email.Some? && email.value != "" && email.value != user.email && FindEmail(s.users, email.value).Some? then
        Reply(s, Rejected(Conflict))
      else if obstacle.Some? then Reply(s, Rejected(obstacle.value))
      else if email.Some? && EmailTaken(s.users, email.value, u.value) then Reply(s, Rejected(Conflict))
      else
        var updated := user.(email := if email.Some? then email.value else user.email,
                             isActive := if active.Some? then active.value else user.isActive);
        Reply(s.(users := s.users[u.value := updated]), Saved(id))
  }

  /** seedAdminDefaults: an active user with a password, unless the e-mail is known. */
  function SeedAdmin(s: State, id: string, email: string, password: string): Reply {
    if FindEmail(s.users, email).Some? then Reply(s, Ignored)
    else if FindUser(s.users, id).Some? then Reply(s, Rejected(Conflict))
    else Reply(s.(users := s.users + [User(id, email, Some(Hashed(password)), true)]), Saved(id))
  }

  // ----- one step

  datatype Call =
    | CallVerifyOldPassword(userId: string, oldPassword: string, drawn: string)
    | CallSubmitPasswordChange(userId: string, changeToken: string, newPassword: string, order: seq<nat>)
    | CallForgotPassword(email: string, otp: string)
    | CallValidateResetOtp(otp: string, drawn: string, order: seq<nat>)
    | CallSubmitNewPassword(resetToken: string, newPassword: string, order: seq<nat>)
    | CallInitiateLogin(email: string, password: string, otp: string)
    | CallVerifyLogin(email: string, otp: string)
    | CallResendLoginOtp(email: string, otp: string)
    | CallAddUser(id: string, email: string, obstacle: Option<Error>, mailReady: bool, otp: string)
    | CallUpdateUser(id: string, newEmail: Option<string>, active: Option<bool>, obstacle: Option<Error>)
    | CallSeedAdmin(id: string, email: string, password: string)

  /** The searches of a call see exactly the active tokens, in some order. */
  ghost predicate Sees(s: State, now: nat, c: Call) {
    match c
    case CallSubmitPasswordChange(userId, _, _, order) => IsListing(order, s.tokens, Search(PasswordReset, Some(userId), Some(ForChange)), now)
    case CallValidateResetOtp(_, _, order) => IsListing(order, s.tokens, Search(Otp, None, None), now)
    case CallSubmitNewPassword(_, _, order) => IsListing(order, s.tokens, Search(PasswordReset, None, None), now)
    case _ => true
  }

  ghost function Step(s: State, now: nat, c: Call): Reply
    requires Sees(s, now, c)
  {
    match c
    case CallVerifyOldPassword(userId, oldPassword, drawn) => VerifyOldPassword(s, now, userId, oldPassword, drawn)
    case CallSubmitPasswordChange(userId, changeToken, newPassword, order) => SubmitPasswordChange(s, now, userId, changeToken, newPassword, order)
    case CallForgotPassword(email, otp) => ForgotPassword(s, now, email, otp)
    case CallValidateResetOtp(otp, drawn, order) => ValidateResetOtp(s, now, otp, drawn, order)
    case CallSubmitNewPassword(resetToken, newPassword, order) => SubmitNewPassword(s, now, resetToken, newPassword, order)
    case CallInitiateLogin(email, password, otp) => InitiateLogin(s, now, email, password, otp)
    case CallVerifyLogin(email, otp) => VerifyLogin(s, now, email, otp)
    case CallResendLoginOtp(email, otp) => ResendLoginOtp(s, now, email, otp)
    case CallAddUser(id, email, obstacle, mailReady, otp) => AddUser(s, now, id, email, obstacle, mailReady, otp)
    case CallUpdateUser(id, newEmail, active, obstacle) => UpdateUser(s, id, newEmail, active, obstacle)
    case CallSeedAdmin(id, email, password) => SeedAdmin(s, id, email, password)
  }
}
