/** The handlers of the auth routes, each tied to the history of requests. */
module AuthControllers {
  import opened Options
  import opened AuthTokens

  /** The users table and the handlers that update it. `events` is the history of requests. */
  class AuthController {
    var users: Users
    const crypto: Crypto
    ghost var events: seq<Event>

    /** The table is the one the history leads to. */
    ghost predicate Valid()
      reads this
    {
      Admissible(crypto, events) && users == Run(crypto, events).0
    }

    ghost function Effects(): seq<Effect>
      reads this
      requires Valid()
    {
      Run(crypto, events).1
    }

    constructor (crypto: Crypto)
      ensures Valid() && this.crypto == crypto && events == []
    {
      this.crypto, users, events := crypto, map[], [];
    }

    method SaveRefreshToken(id: UserId, token: string, at: int)
      requires id in users
      modifies this
      ensures users == old(users)[id := WithToken(crypto, old(users)[id], token, at)] && events == old(events)
    {
      users := users[id := users[id].(refreshToken := Some(crypto.hash(token)))];
      users := users[id := users[id].(refreshTokenExpires := Some(at + REFRESH_TTL))];
    }

    method FindByEmail(email: string) returns (found: Option<UserId>)
      ensures ByEmail(users, found, email)
    {
      if exists u :: u in users && users[u].email == email {
        var u :| u in users && users[u].email == email;
        return Some(u);
      }
      return None;
    }

    /** A user is created exactly when nobody joined with the email before, and then the minted token is theirs. */
    method SignUpUser(at: int, id: UserId, email: string, password: string, minted: string) returns (created: bool)
      requires Valid() && id !in users
      modifies this
      ensures Valid() && events == old(events) + [SignUp(at, id, email, password, minted)]
      ensures created <==> EmailUnused(old(Effects()), email)
      ensures created ==> Current(Effects(), id) == Some((minted, at))
      ensures created ==> LastPassword(Effects(), id) == Some(password) && EmailOf(Effects(), id) == Some(email)
      ensures SameStandingBut(old(Effects()), Effects(), if created then Some(id) else None)
      ensures !created ==> users == old(users)
      ensures created ==> users == old(users)[id := User(email, crypto.bcrypt(password),
        Some(crypto.hash(minted)), Some(at + 604800000), None, None)]
    {
      var e := SignUp(at, id, email, password, minted);
      ghost var before, effect := Effects(), Apply(crypto, users, e).1;
      Foresee(e);
      var existing := FindByEmail(email);
      EmailLeadsTo(existing, email);
      if existing.Some? {
        created := false;
      } else {
        users := users[id := User(email, crypto.bcrypt(password), None, None, None, None)];
        ghost var row := users[id];
        SaveRefreshToken(id, minted, at);
        assert users == old(users)[id := WithToken(crypto, row, minted, at)];
        created := true;
      }
      events := events + [e];
      EffectMeans(before, effect);
    }

    /** A token is issued exactly when the email is a user's and the password is the last one that user chose. */
    method LoginUser(at: int, email: string, password: string, minted: string)
      returns (found: Option<UserId>, accepted: bool)
      requires Valid()
      modifies this
      ensures Valid() && events == old(events) + [Login(at, found, email, password, minted)]
      ensures forall u: UserId :: MayLogIn(crypto, old(Effects()), u, email, password) <==> accepted && found == Some(u)
      ensures accepted ==> found.Some? && Current(Effects(), found.value) == Some((minted, at))
      ensures SameStandingBut(old(Effects()), Effects(), if accepted then found else None)
      ensures !accepted ==> users == old(users)
      ensures accepted ==> TokenReplaced(old(users), users, found.value, crypto.hash(minted), at)
    {
      found := FindByEmail(email);
      var e := Login(at, found, email, password, minted);
      ghost var before, effect := Effects(), Apply(crypto, users, e).1;
      Foresee(e);
      RunKeepsRows(crypto, events);
      LoginAcceptsExactly(crypto, users, Effects(), found, email, password);
      accepted := false;
      if found.Some? && crypto.matches(password, users[found.value].password) {
        SaveRefreshToken(found.value, minted, at);
        accepted := true;
      }
      events := events + [e];
      EffectMeans(before, effect);
    }

    /** A token is accepted exactly when the history says that it is some user's valid token; it is then replaced. */
    method RefreshTokens(at: int, token: string, minted: string) returns (found: Option<UserId>)
      requires Valid()
      modifies this
      ensures Valid() && events == old(events) + [Refresh(at, found, token, minted)]
      ensures Injective(crypto) && FreshTokens(old(events)) ==>
        FoundByToken(old(Effects()), token, at, found)
      ensures found.Some? ==> Current(Effects(), found.value) == Some((minted, at))
      ensures SameStandingBut(old(Effects()), Effects(), found)
      ensures found.None? ==> users == old(users)
      ensures found.Some? ==> TokenReplaced(old(users), users, found.value, crypto.hash(minted), at)
    {
      var hash := crypto.hash(token);
      if exists u :: u in users && HoldsToken(users[u], hash, at) {
        var u :| u in users && HoldsToken(users[u], hash, at);
        found := Some(u);
      } else {
        found := None;
      }
      var e := Refresh(at, found, token, minted);
      ghost var before, effect := Effects(), Apply(crypto, users, e).1;
      Foresee(e);
      TokenLeadsTo(at, found, token);
      if found.Some? {
        SaveRefreshToken(found.value, minted, at);
      }
      events := events + [e];
      EffectMeans(before, effect);
    }

    /** The one-time password sent is the one the user's next reset needs. Tokens stay as they are. */
    method ForgetPassword(at: int, email: string, newOtp: string) returns (found: Option<UserId>)
      requires Valid()
      modifies this
      ensures Valid() && events == old(events) + [Forget(at, found, email, newOtp)]
      ensures forall u: UserId :: EmailOf(old(Effects()), u) == Some(email) <==> found == Some(u)
      ensures found.Some? ==> CurrentOtp(Effects(), found.value) == Some((newOtp, at))
      ensures SameTokensBut(old(Effects()), Effects(), None) && SameStandingBut(old(Effects()), Effects(), found)
      ensures found.None? ==> users == old(users)
      ensures found.Some? ==> OtpReplaced(old(users), users, found.value, crypto.hash(newOtp), at)
    {
      found := FindByEmail(email);
      var e := Forget(at, found, email, newOtp);
      ghost var before, effect := Effects(), Apply(crypto, users, e).1;
      Foresee(e);
      EmailLeadsTo(found, email);
      if found.Some? {
        users := users[found.value := users[found.value].(
          otp := Some(crypto.hash(newOtp)), otpExpires := Some(at + OTP_TTL))];
      }
      events := events + [e];
      EffectMeans(before, effect);
    }

    /** A reset is accepted exactly for the user whose valid one-time password was presented; it uses that password up
        and revokes the user's token. */
    method ResetPassword(at: int, email: string, otp: string, newPassword: string)
      returns (found: Option<UserId>, accepted: bool)
      requires Valid()
      modifies this
      ensures Valid() && events == old(events) + [Reset(at, found, email, otp, newPassword)]
      ensures Injective(crypto) ==> ResetOnlyBy(old(Effects()), email, otp, at, accepted, found)
      ensures accepted ==> found.Some? && LastPassword(Effects(), found.value) == Some(newPassword)
      ensures accepted ==> Current(Effects(), found.value).None? && CurrentOtp(Effects(), found.value).None?
      ensures SameStandingBut(old(Effects()), Effects(), if accepted then found else None)
      ensures !accepted ==> users == old(users)
      ensures accepted ==> PasswordReplaced(old(users), users, found.value, crypto.bcrypt(newPassword))
      ensures accepted ==> users[found.value].otp.None? && users[found.value].otpExpires.None?
    {
      found := FindByEmail(email);
      var e := Reset(at, found, email, otp, newPassword);
      ghost var before, effect := Effects(), Apply(crypto, users, e).1;
      Foresee(e);
      OtpLeadsTo(at, found, email, otp);
      accepted := found.Some? && OtpAccepted(crypto, users[found.value], otp, at);
      if accepted {
        users := users[found.value := users[found.value].(
          password := crypto.bcrypt(newPassword),
          otp := None, otpExpires := None, refreshToken := None, refreshTokenExpires := None)];
      }
      events := events + [e];
      EffectMeans(before, effect);
    }

    /** A change is accepted exactly when the old password is the last one the user chose; it revokes the token. */
    method ChangePassword(at: int, id: UserId, password: string, newPassword: string) returns (accepted: bool)
      requires Valid() && id in users
      modifies this
      ensures Valid() && events == old(events) + [Change(at, id, password, newPassword)]
      ensures LastPassword(old(Effects()), id).Some?
      ensures accepted <==> crypto.matches(password, crypto.bcrypt(LastPassword(old(Effects()), id).value))
      ensures accepted ==> Current(Effects(), id).None? && LastPassword(Effects(), id) == Some(newPassword)
      ensures SameStandingBut(old(Effects()), Effects(), if accepted then Some(id) else None)
      ensures !accepted ==> users == old(users)
      ensures accepted ==> PasswordReplaced(old(users), users, id, crypto.bcrypt(newPassword))
      ensures id in users && users[id].otp == old(users)[id].otp && users[id].otpExpires == old(users)[id].otpExpires
    {
      var e := Change(at, id, password, newPassword);
      ghost var before, effect := Effects(), Apply(crypto, users, e).1;
      Foresee(e);
      RunKeepsRows(crypto, events);
      assert UserMatches(crypto, users, Effects(), id);
      accepted := crypto.matches(password, users[id].password);
      if accepted {
        users := users[id := users[id].(
          password := crypto.bcrypt(newPassword), refreshToken := None, refreshTokenExpires := None)];
      }
      events := events + [e];
      EffectMeans(before, effect);
    }

    /** The history after one more event. */
    lemma {:induction false} Foresee(e: Event)
      requires Valid() && Enabled(crypto, users, e)
      ensures Admissible(crypto, events + [e])
      ensures var (users', effect) := Apply(crypto, users, e);
        Run(crypto, events + [e]) == (users', Effects() + [effect])
    {
      RunOneMore(crypto, events, e);
    }

    lemma {:induction false} TokenLeadsTo(at: int, found: Option<UserId>, token: string)
      requires Valid() && ByToken(users, found, crypto.hash(token), at)
      ensures Injective(crypto) && FreshTokens(events) ==> FoundByToken(Effects(), token, at, found)
    {
      if Injective(crypto) && FreshTokens(events) {
        RefreshAcceptsExactlyTheValidToken(crypto, events, at, found, token);
      }
    }

    lemma {:induction false} OtpLeadsTo(at: int, found: Option<UserId>, email: string, otp: string)
      requires Valid() && ByEmail(users, found, email)
      ensures Injective(crypto) ==>
        ResetOnlyBy(Effects(), email, otp, at, found.Some? && OtpAccepted(crypto, users[found.value], otp, at), found)
    {
      if Injective(crypto) {
        RunKeepsRows(crypto, events);
        ResetAcceptsExactly(crypto, users, Effects(), at, found, email, otp);
      }
    }

    lemma {:induction false} EmailLeadsTo(found: Option<UserId>, email: string)
      requires Valid() && ByEmail(users, found, email)
      ensures found.None? <==> EmailUnused(Effects(), email)
      ensures forall u: UserId :: EmailOf(Effects(), u) == Some(email) <==> found == Some(u)
    {
      RunKeepsRows(crypto, events);
      EmailLeadsToUser(crypto, users, Effects(), found, email);
    }
  }
}
