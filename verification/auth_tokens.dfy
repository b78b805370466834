/** The refresh-token machine: which refresh tokens are accepted, as a function of the history of requests. */
module AuthTokens {
  import opened Options

  type UserId = nat

  /** 7 days and 10 minutes, in milliseconds. */
  const REFRESH_TTL: int := 604800000
  const OTP_TTL: int := 600000

  /** SHA-256, bcrypt hashing and bcrypt comparison. */
  datatype Crypto = Crypto(hash: string -> string, bcrypt: string -> string, matches: (string, string) -> bool)

  ghost predicate Injective(crypto: Crypto) {
    forall a, b :: crypto.hash(a) == crypto.hash(b) ==> a == b
  }

  datatype User = User(
    email: string,
    password: string,
    refreshToken: Option<string>,
    refreshTokenExpires: Option<int>,
    otp: Option<string>,
    otpExpires: Option<int>)

  type Users = map<UserId, User>

  /** One request, served atomically at time `at`. `minted` is the refresh token generated for it, `found` the row the
      lookup by a column returned. */
  datatype Event =
    | SignUp(at: int, id: UserId, email: string, newPassword: string, minted: string)
    | Login(at: int, found: Option<UserId>, email: string, password: string, minted: string)
    | Refresh(at: int, found: Option<UserId>, presented: string, minted: string)
    | Forget(at: int, found: Option<UserId>, email: string, newOtp: string)
    | Reset(at: int, found: Option<UserId>, email: string, presentedOtp: string, newPassword: string)
    | Change(at: int, id: UserId, password: string, newPassword: string)

  /** What an event did, in terms of what users and the server said to each other. */
  datatype Effect =
    | Joined(user: UserId, email: string, password: string, token: string, at: int)
    | Issued(user: UserId, token: string, at: int)
    | OtpSent(user: UserId, otp: string, at: int)
    | PasswordReset(user: UserId, password: string)
    | PasswordChanged(user: UserId, password: string)
    | Nothing

  predicate ByEmail(users: Users, found: Option<UserId>, email: string) {
    if found.Some? then found.value in users && users[found.value].email == email
    else forall u :: u in users ==> users[u].email != email
  }

  /** The WHERE clause of the refresh lookup. */
  predicate HoldsToken(user: User, hash: string, at: int) {
    user.refreshToken == Some(hash) && user.refreshTokenExpires.Some? && user.refreshTokenExpires.value > at
  }

  predicate ByToken(users: Users, found: Option<UserId>, hash: string, at: int) {
    if found.Some? then found.value in users && HoldsToken(users[found.value], hash, at)
    else forall u :: u in users ==> !HoldsToken(users[u], hash, at)
  }

  /** `found` is a row its lookup may return. */
  predicate Enabled(crypto: Crypto, users: Users, e: Event) {
    match e
    case SignUp(_, id, _, _, _) => id !in users
    case Login(_, found, email, _, _) => ByEmail(users, found, email)
    case Refresh(at, found, presented, _) => ByToken(users, found, crypto.hash(presented), at)
    case Forget(_, found, email, _) => ByEmail(users, found, email)
    case Reset(_, found, email, _, _) => ByEmail(users, found, email)
    case Change(_, id, _, _) => id in users
  }

  /** `issueAuthTokens`: the row then holds the hash of the new token only. */
  function WithToken(crypto: Crypto, user: User, token: string, at: int): User {
    user.(refreshToken := Some(crypto.hash(token)), refreshTokenExpires := Some(at + REFRESH_TTL))
  }

  function WithoutToken(user: User): User {
    user.(refreshToken := None, refreshTokenExpires := None)
  }

  predicate OtpAccepted(crypto: Crypto, user: User, presented: string, at: int) {
    && user.otp.Some? && user.otp.value == crypto.hash(presented)
    && user.otpExpires.Some? && user.otpExpires.value > at
  }

  function Apply(crypto: Crypto, users: Users, e: Event): (Users, Effect)
    requires Enabled(crypto, users, e)
  {
    match e
    case SignUp(at, id, email, newPassword, minted) =>
      if exists u :: u in users && users[u].email == email then (users, Nothing)
      else
        var user := User(email, crypto.bcrypt(newPassword), None, None, None, None);
        (users[id := WithToken(crypto, user, minted, at)], Joined(id, email, newPassword, minted, at))
    case Login(at, found, _, password, minted) =>
      if found.None? || !crypto.matches(password, users[found.value].password) then (users, Nothing)
      else (users[found.value := WithToken(crypto, users[found.value], minted, at)], Issued(found.value, minted, at))
    case Refresh(at, found, _, minted) =>
      if found.None? then (users, Nothing)
      else (users[found.value := WithToken(crypto, users[found.value], minted, at)], Issued(found.value, minted, at))
    case Forget(at, found, _, newOtp) =>
      if found.None? then (users, Nothing)
      else
        var user := users[found.value].(otp := Some(crypto.hash(newOtp)), otpExpires := Some(at + OTP_TTL));
        (users[found.value := user], OtpSent(found.value, newOtp, at))
    case Reset(at, found, _, presentedOtp, newPassword) =>
      if found.None? || !OtpAccepted(crypto, users[found.value], presentedOtp, at) then (users, Nothing)
      else
        var user := WithoutToken(users[found.value]);
        (users[found.value := user.(password := crypto.bcrypt(newPassword), otp := None, otpExpires := None)],
         PasswordReset(found.value, newPassword))
    case Change(_, id, password, newPassword) =>
      if !crypto.matches(password, users[id].password) then (users, Nothing)
      else
        var user := WithoutToken(users[id]);
        (users[id := user.(password := crypto.bcrypt(newPassword))], PasswordChanged(id, newPassword))
  }

  predicate Admissible(crypto: Crypto, events: seq<Event>)
    decreases |events|, 0
  {
    events != [] ==>
      var front := events[..|events| - 1];
      Admissible(crypto, front) && Enabled(crypto, Run(crypto, front).0, events[|events| - 1])
  }

  /** The users after a run from an empty table, and the effects of its events. */
  function Run(crypto: Crypto, events: seq<Event>): (Users, seq<Effect>)
    requires Admissible(crypto, events)
    decreases |events|, 1
  {
    if events == [] then (map[], [])
    else
      var (users, effects) := Run(crypto, events[..|events| - 1]);
      var (users', effect) := Apply(crypto, users, events[|events| - 1]);
      (users', effects + [effect])
  }

  // ---- What the history says about a user

  /** The last token issued to a user, unless the password was replaced since. */
  function Current(effects: seq<Effect>, u: UserId): Option<(string, int)> {
    if effects == [] then None else TokenAfter(effects[|effects| - 1], u, Current(effects[..|effects| - 1], u))
  }

  function TokenAfter(e: Effect, u: UserId, before: Option<(string, int)>): Option<(string, int)> {
    match e
    case Joined(v, _, _, token, at) => if v == u then Some((token, at)) else before
    case Issued(v, token, at) => if v == u then Some((token, at)) else before
    case PasswordReset(v, _) => if v == u then None else before
    case PasswordChanged(v, _) => if v == u then None else before
    case _ => before
  }

  /** The last one-time password sent to a user, unless it was used since. */
  function CurrentOtp(effects: seq<Effect>, u: UserId): Option<(string, int)> {
    if effects == [] then None else OtpAfter(effects[|effects| - 1], u, CurrentOtp(effects[..|effects| - 1], u))
  }

  function OtpAfter(e: Effect, u: UserId, before: Option<(string, int)>): Option<(string, int)> {
    match e
    case Joined(v, _, _, _, _) => if v == u then None else before
    case OtpSent(v, otp, at) => if v == u then Some((otp, at)) else before
    case PasswordReset(v, _) => if v == u then None else before
    case _ => before
  }

  /** The last password a user chose. */
  function LastPassword(effects: seq<Effect>, u: UserId): Option<string> {
    if effects == [] then None else PasswordAfter(effects[|effects| - 1], u, LastPassword(effects[..|effects| - 1], u))
  }

  function PasswordAfter(e: Effect, u: UserId, before: Option<string>): Option<string> {
    match e
    case Joined(v, _, password, _, _) => if v == u then Some(password) else before
    case PasswordReset(v, password) => if v == u then Some(password) else before
    case PasswordChanged(v, password) => if v == u then Some(password) else before
    case _ => before
  }

  /** The email a user joined with. */
  function EmailOf(effects: seq<Effect>, u: UserId): Option<string> {
    if effects == [] then None else EmailAfter(effects[|effects| - 1], u, EmailOf(effects[..|effects| - 1], u))
  }

  function EmailAfter(e: Effect, u: UserId, before: Option<string>): Option<string> {
    if e.Joined? && e.user == u then Some(e.email) else before
  }

  lemma {:induction false} OneMore(effects: seq<Effect>, e: Effect, u: UserId)
    ensures Current(effects + [e], u) == TokenAfter(e, u, Current(effects, u))
    ensures CurrentOtp(effects + [e], u) == OtpAfter(e, u, CurrentOtp(effects, u))
    ensures LastPassword(effects + [e], u) == PasswordAfter(e, u, LastPassword(effects, u))
    ensures EmailOf(effects + [e], u) == EmailAfter(e, u, EmailOf(effects, u))
  {
    assert (effects + [e])[..|effects|] == effects;
  }

  predicate Generates(e: Event) {
    e.SignUp? || e.Login? || e.Refresh?
  }

  /** Generated tokens never repeat. */
  ghost predicate FreshTokens(events: seq<Event>) {
    forall i, j :: 0 <= i < j < |events| && Generates(events[i]) && Generates(events[j]) ==>
      events[i].minted != events[j].minted
  }

  // ---- Each row holds what the history says

  function Hashed(crypto: Crypto, issue: Option<(string, int)>): Option<string> {
    if issue.None? then None else Some(crypto.hash(issue.value.0))
  }

  function Expiry(issue: Option<(string, int)>, ttl: int): Option<int> {
    if issue.None? then None else Some(issue.value.1 + ttl)
  }

  /** The row of a user: the email of joining, and hashes of the last password, the current token and the current
      one-time password. */
  predicate RowMatches(
      crypto: Crypto, row: User, email: Option<string>, password: Option<string>,
      token: Option<(string, int)>, otp: Option<(string, int)>)
  {
    && email == Some(row.email)
    && password.Some? && row.password == crypto.bcrypt(password.value)
    && row.refreshToken == Hashed(crypto, token) && row.refreshTokenExpires == Expiry(token, REFRESH_TTL)
    && row.otp == Hashed(crypto, otp) && row.otpExpires == Expiry(otp, OTP_TTL)
  }

  predicate UserMatches(crypto: Crypto, users: Users, effects: seq<Effect>, u: UserId) {
    var email, password := EmailOf(effects, u), LastPassword(effects, u);
    if u in users then RowMatches(crypto, users[u], email, password, Current(effects, u), CurrentOtp(effects, u))
    else EmailOf(effects, u).None? && Current(effects, u).None? && CurrentOtp(effects, u).None?
  }

  predicate UniqueEmails(users: Users) {
    forall u, v :: u in users && v in users && users[u].email == users[v].email ==> u == v
  }

  ghost predicate RowsMatch(crypto: Crypto, users: Users, effects: seq<Effect>) {
    && (forall u: UserId :: UserMatches(crypto, users, effects, u))
    && UniqueEmails(users)
  }

  lemma {:induction false} UserStaysMatched(crypto: Crypto, users: Users, effects: seq<Effect>, e: Event, u: UserId)
    requires Enabled(crypto, users, e) && UserMatches(crypto, users, effects, u)
    ensures var (users', effect) := Apply(crypto, users, e); UserMatches(crypto, users', effects + [effect], u)
  {
    OneMore(effects, Apply(crypto, users, e).1, u);
  }

  lemma {:induction false} StepKeepsRows(crypto: Crypto, users: Users, effects: seq<Effect>, e: Event)
    requires Enabled(crypto, users, e) && RowsMatch(crypto, users, effects)
    ensures RowsMatch(crypto, Apply(crypto, users, e).0, effects + [Apply(crypto, users, e).1])
  {
    var (users', effect) := Apply(crypto, users, e);
    forall u: UserId
      ensures UserMatches(crypto, users', effects + [effect], u)
    {
      UserStaysMatched(crypto, users, effects, e, u);
    }
  }

  /** After any history each row holds exactly what the history says about its user, and emails are unique. */
  lemma {:induction false} RunKeepsRows(crypto: Crypto, events: seq<Event>)
    requires Admissible(crypto, events)
    ensures RowsMatch(crypto, Run(crypto, events).0, Run(crypto, events).1)
    decreases |events|
  {
    if events == [] {
    } else {
      var front := events[..|events| - 1];
      RunKeepsRows(crypto, front);
      StepKeepsRows(crypto, Run(crypto, front).0, Run(crypto, front).1, events[|events| - 1]);
    }
  }

  /** Only a request that generates a token issues one, and it issues the one it generated. */
  lemma {:induction false} IssuedAsMinted(crypto: Crypto, users: Users, e: Event)
    requires Enabled(crypto, users, e)
    ensures Issues(Apply(crypto, users, e).1) ==> Generates(e) && e.minted == Apply(crypto, users, e).1.token
  {
  }

  predicate Issues(e: Effect) {
    e.Joined? || e.Issued?
  }

  lemma {:induction false} IssuedOrBefore(effects: seq<Effect>, e: Effect, u: UserId)
    requires Current(effects + [e], u).Some?
    ensures if Issues(e) && e.user == u then Current(effects + [e], u).value.0 == e.token
            else Current(effects, u) == Current(effects + [e], u)
  {
    OneMore(effects, e, u);
  }

  lemma {:induction false} CurrentWasGenerated(crypto: Crypto, events: seq<Event>, u: UserId) returns (i: nat)
    requires Admissible(crypto, events) && Current(Run(crypto, events).1, u).Some?
    ensures i < |events| && Generates(events[i])
    ensures events[i].minted == Current(Run(crypto, events).1, u).value.0
    ensures i < |Run(crypto, events).1| && Issues(Run(crypto, events).1[i]) && Run(crypto, events).1[i].user == u
    decreases |events|
  {
    var front, e := events[..|events| - 1], events[|events| - 1];
    var (users, effects) := Run(crypto, front);
    var effect := Apply(crypto, users, e).1;
    assert Run(crypto, events).1 == effects + [effect];
    EffectPerEvent(crypto, front);
    IssuedOrBefore(effects, effect, u);
    if Issues(effect) && effect.user == u {
      IssuedAsMinted(crypto, users, e);
      i := |events| - 1;
    } else {
      i := CurrentWasGenerated(crypto, front, u);
    }
  }

  lemma {:induction false} EffectPerEvent(crypto: Crypto, events: seq<Event>)
    requires Admissible(crypto, events)
    ensures |Run(crypto, events).1| == |events|
    decreases |events|
  {
    if events == [] {
    } else {
      EffectPerEvent(crypto, events[..|events| - 1]);
    }
  }

  /** No token is current for two users. */
  lemma {:induction false} CurrentTokensDiffer(crypto: Crypto, events: seq<Event>, u: UserId, v: UserId)
    requires Admissible(crypto, events) && FreshTokens(events) && u != v
    requires Current(Run(crypto, events).1, u).Some? && Current(Run(crypto, events).1, v).Some?
    ensures Current(Run(crypto, events).1, u).value.0 != Current(Run(crypto, events).1, v).value.0
  {
    var i := CurrentWasGenerated(crypto, events, u);
    var j := CurrentWasGenerated(crypto, events, v);
    if i < j || j < i {
    } else {
      assert false;
    }
  }

  // ---- Who is accepted

  /** The token is the last one issued to `u`, is unexpired at `at`, and `u` had no password reset or change since. */
  predicate ValidToken(effects: seq<Effect>, u: UserId, token: string, at: int) {
    Current(effects, u).Some? && Current(effects, u).value.0 == token && Current(effects, u).value.1 + 604800000 > at
  }

  ghost predicate SomeonesToken(effects: seq<Effect>, token: string, at: int) {
    exists u: UserId :: ValidToken(effects, u, token, at)
  }

  /** The presented token is the valid token of `found`, and of nobody else. */
  ghost predicate FoundByToken(effects: seq<Effect>, token: string, at: int, found: Option<UserId>) {
    && (found.Some? <==> SomeonesToken(effects, token, at))
    && forall u: UserId :: ValidToken(effects, u, token, at) <==> found == Some(u)
  }

  lemma {:induction false} RowIsFoundExactlyIfValid(
      crypto: Crypto, users: Users, effects: seq<Effect>, at: int, found: Option<UserId>, presented: string)
    requires Injective(crypto) && RowsMatch(crypto, users, effects)
    requires forall u: UserId, v: UserId ::
      ValidToken(effects, u, presented, at) && ValidToken(effects, v, presented, at) ==> u == v
    requires ByToken(users, found, crypto.hash(presented), at)
    ensures FoundByToken(effects, presented, at, found)
  {
    forall u: UserId
      ensures ValidToken(effects, u, presented, at) <==> u in users && HoldsToken(users[u], crypto.hash(presented), at)
    {
      assert UserMatches(crypto, users, effects, u);
    }
    if found.Some? {
      assert ValidToken(effects, found.value, presented, at);
    }
  }

  /** After any history, whatever token is presented: a row is found exactly when the token is some user's valid token;
      the row is that user's, and no other user's could have been found. */
  lemma {:induction false} RefreshAcceptsExactlyTheValidToken(
      crypto: Crypto, events: seq<Event>, at: int, found: Option<UserId>, presented: string)
    requires Injective(crypto) && Admissible(crypto, events) && FreshTokens(events)
    requires ByToken(Run(crypto, events).0, found, crypto.hash(presented), at)
    ensures FoundByToken(Run(crypto, events).1, presented, at, found)
  {
    var (users, effects) := Run(crypto, events);
    RunKeepsRows(crypto, events);
    forall u: UserId, v: UserId | ValidToken(effects, u, presented, at) && ValidToken(effects, v, presented, at)
      ensures u == v
    {
      if u != v {
        CurrentTokensDiffer(crypto, events, u, v);
      }
    }
    RowIsFoundExactlyIfValid(crypto, users, effects, at, found, presented);
  }

  /** A refresh token is accepted at most once: after it was used it is nobody's valid token any more. */
  lemma {:induction false} RefreshedTokenIsSpent(
      crypto: Crypto, events: seq<Event>, at: int, u: UserId, presented: string, minted: string, later: int, v: UserId)
    requires Injective(crypto) && Admissible(crypto, events + [Refresh(at, Some(u), presented, minted)])
    requires FreshTokens(events + [Refresh(at, Some(u), presented, minted)])
    ensures !ValidToken(Run(crypto, events + [Refresh(at, Some(u), presented, minted)]).1, v, presented, later)
  {
    var e := Refresh(at, Some(u), presented, minted);
    var all := events + [e];
    assert all[..|all| - 1] == events;
    assert FreshTokens(events) by {
      forall i, j | 0 <= i < j < |events| && Generates(events[i]) && Generates(events[j])
        ensures events[i].minted != events[j].minted
      {
        assert all[i] == events[i] && all[j] == events[j];
      }
    }
    RefreshAcceptsExactlyTheValidToken(crypto, events, at, Some(u), presented);
    assert ValidToken(Run(crypto, events).1, u, presented, at);
    var i := CurrentWasGenerated(crypto, events, u);
    assert all[i].minted == presented && all[|events|] == e;
    OneMore(Run(crypto, events).1, Issued(u, minted, at), v);
    if v != u && Current(Run(crypto, events).1, v).Some? {
      CurrentTokensDiffer(crypto, events, u, v);
    }
  }

  ghost predicate EmailUnused(effects: seq<Effect>, email: string) {
    forall u: UserId :: EmailOf(effects, u) != Some(email)
  }

  /** `u` joined with the email, and the password matches the last one `u` chose. */
  predicate MayLogIn(crypto: Crypto, effects: seq<Effect>, u: UserId, email: string, password: string) {
    && EmailOf(effects, u) == Some(email)
    && LastPassword(effects, u).Some? && crypto.matches(password, crypto.bcrypt(LastPassword(effects, u).value))
  }

  /** The one-time password is the last one sent to `u`, is unexpired at `at`, and was not used since. */
  predicate ValidOtp(effects: seq<Effect>, u: UserId, email: string, otp: string, at: int) {
    && EmailOf(effects, u) == Some(email)
    && CurrentOtp(effects, u).Some?
    && CurrentOtp(effects, u).value.0 == otp && CurrentOtp(effects, u).value.1 + 600000 > at
  }

  /** The presented one-time password is accepted exactly if it is valid for some user, and `found` is that user. */
  ghost predicate ResetOnlyBy(
      effects: seq<Effect>, email: string, otp: string, at: int, accepted: bool, found: Option<UserId>)
  {
    forall u: UserId :: ValidOtp(effects, u, email, otp, at) <==> accepted && found == Some(u)
  }

  /** Where rows match the history, an email and a password lead to exactly the user they belong to. */
  lemma {:induction false} LoginAcceptsExactly(
      crypto: Crypto, users: Users, effects: seq<Effect>, found: Option<UserId>, email: string, password: string)
    requires RowsMatch(crypto, users, effects) && ByEmail(users, found, email)
    ensures forall u: UserId :: MayLogIn(crypto, effects, u, email, password) <==>
      found == Some(u) && crypto.matches(password, users[u].password)
  {
    forall u: UserId
      ensures EmailOf(effects, u) == Some(email) <==> found == Some(u)
    {
      assert UserMatches(crypto, users, effects, u);
      if found.Some? {
        assert UserMatches(crypto, users, effects, found.value);
      }
    }
    forall u: UserId
      ensures u in users ==>
        LastPassword(effects, u).Some? && users[u].password == crypto.bcrypt(LastPassword(effects, u).value)
    {
      assert UserMatches(crypto, users, effects, u);
    }
  }

  /** Where rows match the history, an email and a one-time password lead to exactly the user the password is valid
      for. */
  lemma {:induction false} ResetAcceptsExactly(
      crypto: Crypto, users: Users, effects: seq<Effect>, at: int, found: Option<UserId>, email: string, otp: string)
    requires Injective(crypto) && RowsMatch(crypto, users, effects) && ByEmail(users, found, email)
    ensures forall u: UserId :: ValidOtp(effects, u, email, otp, at) <==>
      found == Some(u) && OtpAccepted(crypto, users[u], otp, at)
  {
    forall u: UserId
      ensures ValidOtp(effects, u, email, otp, at) <==> found == Some(u) && OtpAccepted(crypto, users[u], otp, at)
    {
      assert UserMatches(crypto, users, effects, u);
      if found.Some? {
        assert UserMatches(crypto, users, effects, found.value);
      }
    }
  }

  // ---- Every effect is determined by the earlier ones

  /** What a request does, given the effects of the requests before it: who joins, gets a token, is sent a one-time
      password or replaces a password, with which values; and that every other request does nothing. */
  ghost predicate Determined(crypto: Crypto, before: seq<Effect>, e: Event, effect: Effect) {
    match e
    case SignUp(at, id, email, newPassword, minted) =>
      effect == if EmailUnused(before, email) then Joined(id, email, newPassword, minted, at) else Nothing
    case Login(at, found, email, password, minted) =>
      if found.Some? && MayLogIn(crypto, before, found.value, email, password)
      then effect == Issued(found.value, minted, at)
      else effect == Nothing && forall u: UserId :: !MayLogIn(crypto, before, u, email, password)
    case Refresh(at, found, _, minted) =>
      effect == if found.Some? then Issued(found.value, minted, at) else Nothing
    case Forget(at, found, email, newOtp) =>
      if found.Some? then effect == OtpSent(found.value, newOtp, at) && EmailOf(before, found.value) == Some(email)
      else effect == Nothing && EmailUnused(before, email)
    case Reset(at, found, email, presentedOtp, newPassword) =>
      if found.Some? && ValidOtp(before, found.value, email, presentedOtp, at)
      then effect == PasswordReset(found.value, newPassword)
      else effect == Nothing && forall u: UserId :: !ValidOtp(before, u, email, presentedOtp, at)
    case Change(_, id, password, newPassword) =>
      && LastPassword(before, id).Some?
      && effect == if crypto.matches(password, crypto.bcrypt(LastPassword(before, id).value))
                   then PasswordChanged(id, newPassword) else Nothing
  }

  lemma {:induction false} EmailLeadsToUser(
      crypto: Crypto, users: Users, effects: seq<Effect>, found: Option<UserId>, email: string)
    requires RowsMatch(crypto, users, effects) && ByEmail(users, found, email)
    ensures found.None? <==> EmailUnused(effects, email)
    ensures forall u: UserId :: EmailOf(effects, u) == Some(email) <==> found == Some(u)
  {
    forall u: UserId
      ensures EmailOf(effects, u) == Some(email) <==> found == Some(u)
    {
      assert UserMatches(crypto, users, effects, u);
      if found.Some? {
        assert UserMatches(crypto, users, effects, found.value);
      }
    }
  }

  lemma {:induction false} StepIsDetermined(crypto: Crypto, users: Users, effects: seq<Effect>, e: Event)
    requires Injective(crypto) && RowsMatch(crypto, users, effects) && Enabled(crypto, users, e)
    ensures Determined(crypto, effects, e, Apply(crypto, users, e).1)
  {
    match e
    case SignUp(_, _, email, _, _) =>
      if u :| u in users && users[u].email == email {
        EmailLeadsToUser(crypto, users, effects, Some(u), email);
      } else {
        EmailLeadsToUser(crypto, users, effects, None, email);
      }
    case Login(_, found, email, password, _) => LoginAcceptsExactly(crypto, users, effects, found, email, password);
    case Refresh(_, _, _, _) =>
    case Forget(_, found, email, _) => EmailLeadsToUser(crypto, users, effects, found, email);
    case Reset(at, found, email, otp, _) => ResetAcceptsExactly(crypto, users, effects, at, found, email, otp);
    case Change(_, id, _, _) =>
      assert UserMatches(crypto, users, effects, id);
  }

  lemma {:induction false} PrefixRun(crypto: Crypto, events: seq<Event>, n: nat)
    requires Admissible(crypto, events) && n <= |events|
    ensures Admissible(crypto, events[..n])
    ensures n <= |Run(crypto, events).1| == |events| && Run(crypto, events[..n]).1 == Run(crypto, events).1[..n]
    decreases |events|
  {
    EffectPerEvent(crypto, events);
    if n == |events| {
      assert events[..n] == events;
      assert Run(crypto, events).1[..n] == Run(crypto, events).1;
    } else {
      var front := events[..|events| - 1];
      PrefixRun(crypto, front, n);
      assert front[..n] == events[..n];
      assert Run(crypto, events).1[..|front|] == Run(crypto, front).1;
    }
  }

  /** Over any run, what each request did is determined by the effects of the earlier ones; and a refresh request found
      exactly the user whose valid token was presented. */
  lemma {:induction false} EveryEffectIsDetermined(crypto: Crypto, events: seq<Event>, i: nat)
    requires Injective(crypto) && Admissible(crypto, events) && FreshTokens(events) && i < |events|
    ensures i < |Run(crypto, events).1|
    ensures var effects, e := Run(crypto, events).1, events[i];
      && Determined(crypto, effects[..i], e, effects[i])
      && (e.Refresh? ==> FoundByToken(effects[..i], e.presented, e.at, e.found))
  {
    PrefixRun(crypto, events, i);
    PrefixRun(crypto, events, i + 1);
    var before, through := events[..i], events[..i + 1];
    assert through[..i] == before;
    RunKeepsRows(crypto, before);
    var (users, effects) := Run(crypto, before);
    StepIsDetermined(crypto, users, effects, events[i]);
    assert Run(crypto, through).1[i] == Run(crypto, events).1[i];
    if events[i].Refresh? {
      FreshPrefix(events, i);
      RefreshAcceptsExactlyTheValidToken(crypto, before, events[i].at, events[i].found, events[i].presented);
    }
  }

  lemma {:induction false} FreshPrefix(events: seq<Event>, n: nat)
    requires FreshTokens(events) && n <= |events|
    ensures FreshTokens(events[..n])
  {
  }

  lemma {:induction false} RunOneMore(crypto: Crypto, events: seq<Event>, e: Event)
    requires Admissible(crypto, events) && Enabled(crypto, Run(crypto, events).0, e)
    ensures Admissible(crypto, events + [e])
    ensures var (users, effects) := Run(crypto, events);
      var (users', effect) := Apply(crypto, users, e);
      Run(crypto, events + [e]) == (users', effects + [effect])
  {
    assert (events + [e])[..|events|] == events;
  }

  /** Between two histories the current tokens of all users but one are the same. */
  ghost predicate SameTokensBut(before: seq<Effect>, after: seq<Effect>, except: Option<UserId>) {
    forall u: UserId :: except != Some(u) ==> Current(after, u) == Current(before, u)
  }

  /** Between two histories everything about all users but one is the same. */
  ghost predicate SameStandingBut(before: seq<Effect>, after: seq<Effect>, except: Option<UserId>) {
    forall u: UserId :: except != Some(u) ==>
      && Current(after, u) == Current(before, u) && CurrentOtp(after, u) == CurrentOtp(before, u)
      && LastPassword(after, u) == LastPassword(before, u) && EmailOf(after, u) == EmailOf(before, u)
  }

  function EffectUser(e: Effect): Option<UserId> {
    if e.Nothing? then None else Some(e.user)
  }

  /** What an effect means for the history of a user, and that it leaves all others alone. */
  lemma {:induction false} EffectMeans(effects: seq<Effect>, e: Effect)
    ensures SameTokensBut(effects, effects + [e], TokenOwner(e))
    ensures SameStandingBut(effects, effects + [e], EffectUser(e))
    ensures e.Joined? || e.Issued? ==> Current(effects + [e], e.user) == Some((e.token, e.at))
    ensures e.PasswordReset? || e.PasswordChanged? ==> Current(effects + [e], e.user).None?
    ensures e.Joined? || e.PasswordReset? || e.PasswordChanged? ==>
      LastPassword(effects + [e], e.user) == Some(e.password)
    ensures e.Joined? ==> EmailOf(effects + [e], e.user) == Some(e.email)
    ensures e.OtpSent? ==> CurrentOtp(effects + [e], e.user) == Some((e.otp, e.at))
    ensures e.PasswordReset? ==> CurrentOtp(effects + [e], e.user).None?
  {
    forall u: UserId
      ensures TokenOwner(e) != Some(u) ==> Current(effects + [e], u) == Current(effects, u)
      ensures EffectUser(e) != Some(u) ==>
        && Current(effects + [e], u) == Current(effects, u) && CurrentOtp(effects + [e], u) == CurrentOtp(effects, u)
        && LastPassword(effects + [e], u) == LastPassword(effects, u)
        && EmailOf(effects + [e], u) == EmailOf(effects, u)
    {
      OneMore(effects, e, u);
    }
    if !e.Nothing? {
      OneMore(effects, e, e.user);
    }
  }

  /** The user whose token an effect replaces or revokes. */
  function TokenOwner(e: Effect): Option<UserId> {
    if e.Nothing? || e.OtpSent? then None else Some(e.user)
  }

  // ---- Rows before and after

  /** All rows but that of `id` are as they were. */
  predicate OnlyRowDiffers(before: Users, after: Users, id: UserId) {
    id in before && after.Keys == before.Keys && forall u :: u in before && u != id ==> after[u] == before[u]
  }

  /** The row of `id` holds a new token for 7 days; email, password and one-time password are kept. */
  predicate TokenReplaced(before: Users, after: Users, id: UserId, hash: string, at: int) {
    && OnlyRowDiffers(before, after, id)
    && after[id].refreshToken == Some(hash) && after[id].refreshTokenExpires == Some(at + 604800000)
    && after[id].email == before[id].email && after[id].password == before[id].password
    && after[id].otp == before[id].otp && after[id].otpExpires == before[id].otpExpires
  }

  /** The row of `id` holds a new one-time password for 10 minutes; email, password and token are kept. */
  predicate OtpReplaced(before: Users, after: Users, id: UserId, hash: string, at: int) {
    && OnlyRowDiffers(before, after, id)
    && after[id].otp == Some(hash) && after[id].otpExpires == Some(at + 600000)
    && after[id].email == before[id].email && after[id].password == before[id].password
    && after[id].refreshToken == before[id].refreshToken
    && after[id].refreshTokenExpires == before[id].refreshTokenExpires
  }

  /** The row of `id` holds a new password and no token; the email is kept. */
  predicate PasswordReplaced(before: Users, after: Users, id: UserId, hash: string) {
    && OnlyRowDiffers(before, after, id)
    && after[id].password == hash && after[id].refreshToken.None? && after[id].refreshTokenExpires.None?
    && after[id].email == before[id].email
  }
}
