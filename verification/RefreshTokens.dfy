/**
 Refresh-token rotation (auth.service.ts:82-120, 172-213), after section 4.14.2 of RFC 9700.
 A token's secret is its row number; a fresh secret is the next row. Times are milliseconds.
 */
module RefreshTokens {
  import opened Outcomes
  import opened Traces

  const LIFETIME: int := 30 * 86_400_000

  datatype Token = Token(family: nat, expiresAt: int, revoked: bool)

  datatype AuthError = InvalidRefreshToken | ReuseDetected

  predicate Usable(t: Token, now: int) {
    !t.revoked && now < t.expiresAt
  }

  predicate FreshFamily(tokens: seq<Token>, family: nat) {
    forall k :: 0 <= k < |tokens| ==> tokens[k].family != family
  }

  function Revoked(tokens: seq<Token>, secret: nat): seq<Token>
    requires secret < |tokens|
  {
    tokens[secret := tokens[secret].(revoked := true)]
  }

  function FamilyRevoked(tokens: seq<Token>, family: nat): (result: seq<Token>)
    ensures |result| == |tokens|
  {
    seq(|tokens|, k requires 0 <= k < |tokens| =>
          if tokens[k].family == family then tokens[k].(revoked := true) else tokens[k])
  }

  /** The transaction of a refresh: whatever the row holds by now, it is revoked and a successor added. */
  function Rotated(tokens: seq<Token>, secret: nat, now: int): seq<Token>
    requires secret < |tokens|
  {
    Revoked(tokens, secret) + [Token(tokens[secret].family, now + LIFETIME, false)]
  }

  function AfterRefresh(tokens: seq<Token>, secret: nat, now: int): seq<Token> {
    if secret >= |tokens| || tokens[secret].expiresAt <= now then tokens
    else if tokens[secret].revoked then FamilyRevoked(tokens, tokens[secret].family)
    else Rotated(tokens, secret, now)
  }

  class AuthService {
    var tokens: seq<Token>

    constructor ()
      ensures tokens == []
    {
      tokens := [];
    }

    /** family is the fresh id of the session. */
    method CreateSession(family: nat, now: int) returns (secret: nat)
      modifies this
      ensures secret == old(|tokens|) && tokens == old(tokens) + [Token(family, now + LIFETIME, false)]
    {
      secret := |tokens|;
      tokens := tokens + [Token(family, now + LIFETIME, false)];
    }

    method RevokeFamily(family: nat)
      modifies this
      ensures tokens == FamilyRevoked(old(tokens), family)
    {
      var k := 0;
      while k < |tokens|
        invariant 0 <= k <= |tokens| == old(|tokens|)
        invariant forall j :: 0 <= j < k ==> tokens[j] == FamilyRevoked(old(tokens), family)[j]
        invariant forall j :: k <= j < |tokens| ==> tokens[j] == old(tokens)[j]
      {
        if tokens[k].family == family && !tokens[k].revoked {
          tokens := tokens[k := tokens[k].(revoked := true)];
        }
        k := k + 1;
      }
    }

    method Refresh(secret: nat, now: int) returns (result: Result<nat, AuthError>)
      modifies this
      ensures tokens == AfterRefresh(old(tokens), secret, now)
      ensures result.Ok? <==> secret < old(|tokens|) && Usable(old(tokens)[secret], now)
      ensures result.Ok? ==> result.value == old(|tokens|) && Usable(tokens[result.value], now) && tokens[secret].revoked
      ensures result.Ok? <==> secret < old(|tokens|) && !old(tokens)[secret].revoked && now < old(tokens)[secret].expiresAt
    ensures result.Ok? ==>
      && tokens[..old(|tokens|)] == old(tokens)[secret := old(tokens)[secret].(revoked := true)]
      && tokens[old(|tokens|)..] == [Token(old(tokens)[secret].family, now + 30 * 24 * 3_600_000, false)]
    ensures result == Err(ReuseDetected) ==>
      && secret < |tokens| == old(|tokens|)
      && forall k :: 0 <= k < |tokens| ==>
           tokens[k] == if old(tokens)[k].family == old(tokens)[secret].family then old(tokens)[k].(revoked := true) else old(tokens)[k]
    ensures result == Err(InvalidRefreshToken) ==> tokens == old(tokens)
    ensures result == Err(ReuseDetected) <==>
              secret < old(|tokens|) && old(tokens)[secret].revoked && now < old(tokens)[secret].expiresAt
    {
      if secret >= |tokens| || tokens[secret].expiresAt <= now {
        return Err(InvalidRefreshToken);
      }
      var stored := tokens[secret];
      if stored.revoked {
        RevokeFamily(stored.family);
        return Err(ReuseDetected);
      }
      tokens := tokens[secret := tokens[secret].(revoked := true)];
      var next := CreateSession(stored.family, now);
      return Ok(next);
    }

    method Logout(secret: nat)
      modifies this
      ensures tokens == if secret < old(|tokens|) then Revoked(old(tokens), secret) else old(tokens)
    {
      if secret < |tokens| && !tokens[secret].revoked {
        tokens := tokens[secret := tokens[secret].(revoked := true)];
      } else if secret < |tokens| {
        assert tokens == Revoked(tokens, secret);
      }
    }
  }

  // ---------------------------------------------------------------- runs of interleaved requests

  /** looked holds the tokens some request found usable; its transaction may commit at any later time. */
  datatype System = System(tokens: seq<Token>, looked: set<nat>)

  datatype Move =
    | Login(family: nat, now: int)
    | Look(secret: nat, now: int)
    | Rotate(secret: nat, now: int)
    | Reuse(secret: nat, now: int)
    | Leave(secret: nat)

  predicate Step(s: System, m: Move, s': System) {
    match m
    case Login(family, now) =>
      FreshFamily(s.tokens, family) && s' == s.(tokens := s.tokens + [Token(family, now + LIFETIME, false)])
    case Look(secret, now) =>
      secret < |s.tokens| && Usable(s.tokens[secret], now) && s' == s.(looked := s.looked + {secret})
    case Rotate(secret, now) =>
      secret < |s.tokens| && secret in s.looked && s' == s.(tokens := Rotated(s.tokens, secret, now))
    case Reuse(secret, now) =>
      secret < |s.tokens| && s.tokens[secret].revoked && now < s.tokens[secret].expiresAt
      && s' == s.(tokens := FamilyRevoked(s.tokens, s.tokens[secret].family))
    case Leave(secret) => secret < |s.tokens| && s' == s.(tokens := Revoked(s.tokens, secret))
  }

  /** A refresh whose row was revoked after it was read: another refresh, a logout or a reuse came between. */
  predicate Overtaken(s: System, m: Move) {
    m.Rotate? && m.secret < |s.tokens| && s.tokens[m.secret].revoked
  }

  type Run = Trace<System, Move>

  ghost predicate Valid(run: Run) {
    && |run.states| == |run.labels| + 1
    && forall k :: 0 <= k < |run.labels| ==> Step(run.states[k], run.labels[k], run.states[k + 1])
  }

  ghost predicate NoneOvertaken(run: Run)
    requires |run.states| == |run.labels| + 1
  {
    forall k :: 0 <= k < |run.labels| ==> !Overtaken(run.states[k], run.labels[k])
  }

  lemma FrontIsValid(run: Run)
    requires Valid(run) && |run.labels| > 0
    ensures Valid(Front(run)) && Front(run).states[0] == run.states[0]
    ensures Step(Last(Front(run)), run.labels[|run.labels| - 1], Last(run))
    ensures NoneOvertaken(run) ==> NoneOvertaken(Front(run)) && !Overtaken(Last(Front(run)), run.labels[|run.labels| - 1])
  {
    var last := |run.labels| - 1;
    assert Step(run.states[last], run.labels[last], run.states[last + 1]);
    if NoneOvertaken(run) {
      assert !Overtaken(run.states[last], run.labels[last]);
      assert forall k :: 0 <= k < last ==> Front(run).states[k] == run.states[k];
    }
  }

  /** All tokens of a family but the newest are revoked. */
  ghost predicate OnlyNewestLive(tokens: seq<Token>) {
    forall i, j :: 0 <= i < j < |tokens| && tokens[i].family == tokens[j].family ==> tokens[i].revoked
  }

  ghost predicate Dead(tokens: seq<Token>, family: nat) {
    forall k :: 0 <= k < |tokens| && tokens[k].family == family ==> tokens[k].revoked
  }

  predicate Born(tokens: seq<Token>, family: nat) {
    !FreshFamily(tokens, family)
  }

  lemma StepKeepsOnlyNewestLive(s: System, m: Move, s': System)
    requires Step(s, m, s') && OnlyNewestLive(s.tokens) && !Overtaken(s, m)
    ensures OnlyNewestLive(s'.tokens)
  {
  }

  /** In every run in which no refresh is overtaken, at most one token of a family is usable at any time. */
  lemma {:induction false} AtMostOneUsable(run: Run)
    requires Valid(run) && run.states[0].tokens == [] && NoneOvertaken(run)
    ensures OnlyNewestLive(Last(run).tokens)
    ensures forall i, j, now ::
              (0 <= i < |Last(run).tokens| && 0 <= j < |Last(run).tokens|
               && Last(run).tokens[i].family == Last(run).tokens[j].family
               && Usable(Last(run).tokens[i], now) && Usable(Last(run).tokens[j], now)) ==> i == j
    decreases |run.labels|
  {
    if |run.labels| > 0 {
      FrontIsValid(run);
      AtMostOneUsable(Front(run));
      StepKeepsOnlyNewestLive(Last(Front(run)), run.labels[|run.labels| - 1], Last(run));
    }
  }

  lemma StepKeepsDead(s: System, m: Move, s': System, family: nat)
    requires Step(s, m, s') && Dead(s.tokens, family) && Born(s.tokens, family) && !Overtaken(s, m)
    ensures Dead(s'.tokens, family) && Born(s'.tokens, family)
  {
    var k :| 0 <= k < |s.tokens| && s.tokens[k].family == family;
    assert s'.tokens[k].family == family;
  }

  /** A family without a live token never has one again, if no refresh is overtaken. */
  lemma {:induction false} DeadFamiliesStayDead(run: Run, family: nat)
    requires Valid(run) && NoneOvertaken(run)
    requires Dead(run.states[0].tokens, family) && Born(run.states[0].tokens, family)
    ensures Dead(Last(run).tokens, family) && Born(Last(run).tokens, family)
    decreases |run.labels|
  {
    if |run.labels| > 0 {
      FrontIsValid(run);
      DeadFamiliesStayDead(Front(run), family);
      StepKeepsDead(Last(Front(run)), run.labels[|run.labels| - 1], Last(run), family);
    }
  }

  /** An unexpired revoked token is presented, or the newest of its family logged out. */
  ghost predicate Kills(s: System, m: Move) {
    && (m.Reuse? || m.Leave?) && m.secret < |s.tokens|
    && (m.Leave? ==> forall k :: m.secret < k < |s.tokens| ==> s.tokens[k].family != s.tokens[m.secret].family)
  }

  lemma ReuseAndLogoutKill(s: System, m: Move, s': System)
    requires Step(s, m, s') && OnlyNewestLive(s.tokens) && Kills(s, m)
    ensures Dead(s'.tokens, s.tokens[m.secret].family) && Born(s'.tokens, s.tokens[m.secret].family)
  {
    assert s'.tokens[m.secret].family == s.tokens[m.secret].family;
  }

  /** After that nothing a client does with the family is answered with tokens again. */
  lemma KilledForEver(run: Run, secret: nat, now: int)
    requires Valid(run) && |run.labels| > 0 && NoneOvertaken(run) && OnlyNewestLive(run.states[0].tokens)
    requires Kills(run.states[0], run.labels[0])
    requires secret < |Last(run).tokens|
    requires Last(run).tokens[secret].family == run.states[0].tokens[run.labels[0].secret].family
    ensures !Usable(Last(run).tokens[secret], now)
  {
    var rest := Trace(run.states[1..], run.labels[1..]);
    assert Step(run.states[0], run.labels[0], run.states[1]);
    ReuseAndLogoutKill(run.states[0], run.labels[0], run.states[1]);
    Parts(run, 1);
    DeadFamiliesStayDead(rest, run.states[0].tokens[run.labels[0].secret].family);
  }

  /** Requests are served one at a time: a refresh commits right after it looked. */
  ghost predicate OneAtATime(run: Run) {
    forall k :: 0 <= k < |run.labels| && run.labels[k].Rotate? ==>
      k > 0 && run.labels[k - 1].Look? && run.labels[k - 1].secret == run.labels[k].secret
  }

  /** Such a look and rotation are one call of Refresh. */
  lemma LookAndRotateIsARefresh(before: System, look: Move, s: System, rotate: Move, after: System)
    requires Step(before, look, s) && look.Look? && Step(s, rotate, after) && rotate.Rotate?
    requires rotate.secret == look.secret && rotate.now == look.now
    ensures after.tokens == AfterRefresh(before.tokens, look.secret, look.now)
  {
  }

  /** Presenting a revoked token that has not expired is one call of Refresh as well. */
  lemma ReuseIsARefresh(s: System, reuse: Move, after: System)
    requires Step(s, reuse, after) && reuse.Reuse?
    ensures after.tokens == AfterRefresh(s.tokens, reuse.secret, reuse.now) && after.looked == s.looked
    ensures Dead(after.tokens, s.tokens[reuse.secret].family)
  {
  }

  /** A rotation is always of a token that its request found usable at some time before. */
  lemma {:induction false} RotationsWereLookedAt(run: Run, secret: nat)
    requires Valid(run) && run.states[0].looked == {} && secret in Last(run).looked
    ensures exists j :: WasFoundUsable(run, j, secret)
    decreases |run.labels|
  {
    var last := |run.labels| - 1;
    if last >= 0 {
      FrontIsValid(run);
      if secret in Last(Front(run)).looked {
        RotationsWereLookedAt(Front(run), secret);
        var j :| WasFoundUsable(Front(run), j, secret);
        assert WasFoundUsable(run, j, secret);
      } else {
        assert WasFoundUsable(run, last, secret);
      }
    }
  }

  ghost predicate WasFoundUsable(run: Run, j: int, secret: nat) {
    && 0 <= j < |run.labels| && j < |run.states| && run.labels[j].Look? && run.labels[j].secret == secret
    && secret < |run.states[j].tokens| && Usable(run.states[j].tokens[secret], run.labels[j].now)
  }

  lemma ARotationFollowsALook(run: Run, k: nat)
    requires Valid(run) && run.states[0].looked == {} && k < |run.labels| && run.labels[k].Rotate?
    ensures exists j :: WasFoundUsable(run, j, run.labels[k].secret) && j < k
  {
    var before := Trace(run.states[..k + 1], run.labels[..k]);
    assert Step(run.states[k], run.labels[k], run.states[k + 1]);
    forall i | 0 <= i < k
      ensures Step(before.states[i], before.labels[i], before.states[i + 1])
    {
      assert Step(run.states[i], run.labels[i], run.states[i + 1]);
    }
    RotationsWereLookedAt(before, run.labels[k].secret);
    var j :| WasFoundUsable(before, j, run.labels[k].secret);
    assert WasFoundUsable(run, j, run.labels[k].secret);
  }

  lemma OneAtATimeIsNeverOvertaken(run: Run)
    requires Valid(run) && OneAtATime(run)
    ensures NoneOvertaken(run)
  {
    forall k | 0 <= k < |run.labels|
      ensures !Overtaken(run.states[k], run.labels[k])
    {
      if run.labels[k].Rotate? {
        assert Step(run.states[k - 1], run.labels[k - 1], run.states[k]);
      }
    }
  }

  /**
   In every run of requests served one at a time, all tokens of a family but the newest are revoked and at most one
   is usable; and once a revoked token is presented, or the newest logged out, none ever is again.
   */
  lemma SequentialRotationIsSafe(run: Run)
    requires Valid(run) && run.states[0].tokens == [] && OneAtATime(run)
    ensures OnlyNewestLive(Last(run).tokens)
    ensures forall i, j, now ::
              (0 <= i < |Last(run).tokens| && 0 <= j < |Last(run).tokens|
               && Last(run).tokens[i].family == Last(run).tokens[j].family
               && Usable(Last(run).tokens[i], now) && Usable(Last(run).tokens[j], now)) ==> i == j
    ensures forall k, secret, now ::
              (0 <= k < |run.labels| && Kills(run.states[k], run.labels[k])
               && 0 <= secret < |Last(run).tokens|
               && Last(run).tokens[secret].family == run.states[k].tokens[run.labels[k].secret].family)
              ==> !Usable(Last(run).tokens[secret], now)
  {
    OneAtATimeIsNeverOvertaken(run);
    AtMostOneUsable(run);
    forall k, secret, now |
      && 0 <= k < |run.labels| && Kills(run.states[k], run.labels[k]) && 0 <= secret < |Last(run).tokens|
      && Last(run).tokens[secret].family == run.states[k].tokens[run.labels[k].secret].family
      ensures !Usable(Last(run).tokens[secret], now)
    {
      KilledDuringTheRun(run, k, secret, now);
    }
  }

  lemma KilledDuringTheRun(run: Run, k: nat, secret: nat, now: int)
    requires Valid(run) && run.states[0].tokens == [] && NoneOvertaken(run)
    requires k < |run.labels| && Kills(run.states[k], run.labels[k])
    requires secret < |Last(run).tokens|
    requires Last(run).tokens[secret].family == run.states[k].tokens[run.labels[k].secret].family
    ensures !Usable(Last(run).tokens[secret], now)
  {
    var start := Trace(run.states[..k + 1], run.labels[..k]);
    var rest := Trace(run.states[k..], run.labels[k..]);
    Parts(run, k);
    AtMostOneUsable(start);
    KilledForEver(rest, secret, now);
  }

  lemma Parts(run: Run, k: nat)
    requires Valid(run) && NoneOvertaken(run) && k <= |run.labels|
    ensures var start := Trace(run.states[..k + 1], run.labels[..k]); Valid(start) && NoneOvertaken(start)
    ensures var rest := Trace(run.states[k..], run.labels[k..]); Valid(rest) && NoneOvertaken(rest)
  {
    forall i | 0 <= i < |run.labels|
      ensures Step(run.states[i], run.labels[i], run.states[i + 1]) && !Overtaken(run.states[i], run.labels[i])
    {
    }
    var rest := Trace(run.states[k..], run.labels[k..]);
    forall i | 0 <= i < |rest.labels|
      ensures Step(rest.states[i], rest.labels[i], rest.states[i + 1]) && !Overtaken(rest.states[i], rest.labels[i])
    {
      assert rest.states[i] == run.states[k + i] && rest.labels[i] == run.labels[k + i];
      assert rest.states[i + 1] == run.states[k + i + 1];
    }
  }

  /**
   Exactly when rotation is safe: the commit of a refresh keeps one live token per family and revives no dead
   family if and only if its row is still unrevoked, which the transaction does not check.
   */
  lemma RotationIsSafeIffNotOvertaken(s: System, m: Move, s': System)
    requires Step(s, m, s') && m.Rotate? && OnlyNewestLive(s.tokens)
    ensures !Overtaken(s, m) <==>
            && OnlyNewestLive(s'.tokens)
            && (Dead(s.tokens, s.tokens[m.secret].family) ==> Dead(s'.tokens, s.tokens[m.secret].family))
  {
    var family := s.tokens[m.secret].family;
    var n := |s.tokens|;
    assert s'.tokens[n].family == family && !s'.tokens[n].revoked;
    if Overtaken(s, m) && !Dead(s.tokens, family) {
      var k :| 0 <= k < n && s.tokens[k].family == family && !s.tokens[k].revoked;
      assert k != m.secret;
      assert s'.tokens[k] == s.tokens[k];
    }
    if !Overtaken(s, m) {
      StepKeepsOnlyNewestLive(s, m, s');
    }
  }

  /** Two requests that present one token together both succeed, and the family then has two usable tokens. */
  lemma ConcurrentRefreshesForkTheFamily(now: int) returns (run: Run)
    ensures Valid(run) && run.states[0] == System([], {})
    ensures var tokens := Last(run).tokens;
            |tokens| == 3 && tokens[1].family == tokens[2].family && Usable(tokens[1], now) && Usable(tokens[2], now)
  {
    var t := Token(0, now + LIFETIME, false);
    var s0 := System([], {});
    var s1 := System([t], {});
    var s2 := System([t], {0});
    var s3 := System([t.(revoked := true), t], {0});
    var s4 := System([t.(revoked := true), t, t], {0});
    assert s3.tokens == Rotated(s2.tokens, 0, now);
    assert s4.tokens == Rotated(s3.tokens, 0, now);
    run := Trace([s0, s1, s2, s2, s3, s4], [Login(0, now), Look(0, now), Look(0, now), Rotate(0, now), Rotate(0, now)]);
    assert Step(s0, run.labels[0], s1) && Step(s1, run.labels[1], s2) && Step(s2, run.labels[2], s2);
    assert Step(s2, run.labels[3], s3) && Step(s3, run.labels[4], s4);
  }
}
