/** What the Manager answers: the credentials and cookies that were put in, for as long as they last, and
    nothing else. Stated through its lookups over every run of lock regions. */
module TunnelAnswers {
  import opened Prelude
  import opened TunnelManager

  /** The operation does not close, clear or replace the tunnel `sid` of this key. */
  predicate Leaves(op: Op, key: ConnectionKey, sid: SessionId) {
    op != OpShut(sid) && op != OpClear(sid) && (op.OpRegister? ==> op.tunnel.key != key)
  }

  /** A refresh of the tunnel's credential that is accepted. */
  predicate Refreshes(s: State, op: Op, sid: SessionId) {
    && op.OpCredential? && op.sid == sid
    && AcceptsCredential(s, op.key, op.owner, op.desktopId, op.sid, op.credential, op.now)
  }

  ghost predicate Undisturbed(s: State, ops: seq<Op>, key: ConnectionKey, sid: SessionId) {
    forall i :: 0 <= i < |ops| ==> Leaves(ops[i], key, sid) && !Refreshes(Run(s, ops[..i]), ops[i], sid)
  }

  /** The live tunnel of the key, its owner and desktop, and its credential. */
  predicate Serves(
    s: State, key: ConnectionKey, sid: SessionId, owner: string, desktopId: string, c: Option<Credential>)
  {
    && Live(s, key) == Some(sid) && s.tunnels[sid].owner == owner && s.tunnels[sid].desktopId == desktopId
    && s.tunnels[sid].credential == c
  }

  lemma OpKeepsServing(
    s: State, op: Op, key: ConnectionKey, sid: SessionId, owner: string, desktopId: string, c: Option<Credential>)
    requires Serves(s, key, sid, owner, desktopId, c)
    requires Enabled(s, op) && Leaves(op, key, sid) && !Refreshes(s, op, sid)
    ensures Serves(Apply(s, op), key, sid, owner, desktopId, c)
  {
  }

  lemma {:induction false} RunKeepsServing(
    s: State, ops: seq<Op>, key: ConnectionKey, sid: SessionId, owner: string, desktopId: string,
    c: Option<Credential>)
    requires Serves(s, key, sid, owner, desktopId, c)
    requires AllEnabled(s, ops) && Undisturbed(s, ops, key, sid)
    ensures Serves(Run(s, ops), key, sid, owner, desktopId, c)
  {
    if ops != [] {
      var n := |ops| - 1;
      PrefixEnabled(s, ops);
      assert forall i :: 0 <= i < n ==> ops[..n][..i] == ops[..i];
      RunKeepsServing(s, ops[..n], key, sid, owner, desktopId, c);
      OpKeepsServing(Run(s, ops[..n]), ops[n], key, sid, owner, desktopId, c);
    }
  }

  /** After an accepted refresh the lookup answers that credential at every time before its expiry, and
      none after, until the tunnel is closed, cleared or replaced or its credential is refreshed again. */
  lemma AcceptedRefreshIsServed(s: State, refresh: Op, ops: seq<Op>, later: int)
    requires refresh.OpCredential? && Refreshes(s, refresh, refresh.sid)
    requires AllEnabled(Apply(s, refresh), ops) && Undisturbed(Apply(s, refresh), ops, refresh.key, refresh.sid)
    ensures CredentialFor(Run(Apply(s, refresh), ops), refresh.key, refresh.owner, refresh.desktopId, later)
            == if later < refresh.credential.expiresAt then Some(refresh.credential) else None
  {
    RunKeepsServing(Apply(s, refresh), ops, refresh.key, refresh.sid, refresh.owner, refresh.desktopId,
                    Some(refresh.credential));
  }

  /** The same for the credential a new tunnel brings, if it brings one. */
  lemma FirstCredentialIsServed(s: State, sid: SessionId, t: Tunnel, ops: seq<Op>, later: int)
    requires Enabled(s, OpRegister(sid, t))
    requires AllEnabled(Register(s, sid, t), ops) && Undisturbed(Register(s, sid, t), ops, t.key, sid)
    ensures CredentialFor(Run(Register(s, sid, t), ops), t.key, t.owner, t.desktopId, later)
            == if t.credential.Some? && later < t.credential.value.expiresAt then t.credential else None
  {
    RunKeepsServing(Register(s, sid, t), ops, t.key, sid, t.owner, t.desktopId, t.credential);
  }

  /** A refused refresh changes no answer, and an accepted one no cookie and no other key's credential. */
  lemma RefreshIsExact(
    s: State, refresh: Op, key: ConnectionKey, owner: string, desktopId: string, cookie: string, later: int)
    requires Inverses(s) && refresh.OpCredential?
    ensures var s' := Apply(s, refresh);
            && Live(s', key) == Live(s, key)
            && CookieFor(s', key, owner, cookie, later) == CookieFor(s, key, owner, cookie, later)
            && (!Refreshes(s, refresh, refresh.sid) || key != refresh.key ==>
                  CredentialFor(s', key, owner, desktopId, later) == CredentialFor(s, key, owner, desktopId, later))
  {
  }

  /** A refresh is accepted exactly if its credential is fresh, the session is the live one of its key,
      owner and desktop, and at no time does the lookup answer a credential of another platform device
      or one that the new credential would cut short. */
  lemma RefreshIsAcceptedExactly(s: State, refresh: Op)
    requires refresh.OpCredential?
    ensures var key, owner, desktopId, c := refresh.key, refresh.owner, refresh.desktopId, refresh.credential;
            Refreshes(s, refresh, refresh.sid) <==>
              && c.platformDeviceId != "" && |c.token| <= MAX_CREDENTIAL_TOKEN_BYTES && refresh.now < c.expiresAt
              && Live(s, key) == Some(refresh.sid)
              && s.tunnels[refresh.sid].owner == owner && s.tunnels[refresh.sid].desktopId == desktopId
              && forall t: int :: CredentialFor(s, key, owner, desktopId, t).Some? ==>
                    t < c.expiresAt &&
                    CredentialFor(s, key, owner, desktopId, t).value.platformDeviceId == c.platformDeviceId
  {
    if refresh.sid in s.tunnels && s.tunnels[refresh.sid].credential.Some? {
      var last := s.tunnels[refresh.sid].credential.value.expiresAt - 1;
      var c := CredentialFor(s, refresh.key, refresh.owner, refresh.desktopId, last);
    }
  }

  // The same for cookies.

  /** Neither issues nor revokes this secret, and happens no later than `later`. */
  predicate LeavesCookie(op: Op, key: ConnectionKey, secret: string, later: int) {
    op != OpRevokeCookie(key, secret) && (op.OpCookie? ==> op.secret != secret && op.now <= later)
  }

  /** The tunnel holds the cookie session, which may be purged once it has expired. */
  predicate Keeps(s: State, key: ConnectionKey, sid: SessionId, secret: string, c: CookieSession, later: int) {
    && Live(s, key) == Some(sid) && s.tunnels[sid].owner == c.owner
    && (later < c.expiresAt ==> secret in s.tunnels[sid].cookies)
    && (secret in s.tunnels[sid].cookies ==> s.tunnels[sid].cookies[secret] == c)
  }

  lemma CreationKeepsCookie(
    s: State, op: Op, key: ConnectionKey, sid: SessionId, secret: string, c: CookieSession, later: int)
    requires Keeps(s, key, sid, secret, c, later) && op.OpCookie? && LeavesCookie(op, key, secret, later)
    ensures Keeps(Apply(s, op), key, sid, secret, c, later)
  {
    if MayCreateCookie(s, op.key, op.owner, op.token, op.now) && Live(s, op.key) == Some(sid) {
      assert later < c.expiresAt ==> secret in Unexpired(s.tunnels[sid].cookies, op.now);
    }
  }

  lemma OpKeepsCookie(
    s: State, op: Op, key: ConnectionKey, sid: SessionId, secret: string, c: CookieSession, later: int)
    requires Inverses(s) && Keeps(s, key, sid, secret, c, later)
    requires Enabled(s, op) && Leaves(op, key, sid) && LeavesCookie(op, key, secret, later)
    ensures Keeps(Apply(s, op), key, sid, secret, c, later)
  {
    if op.OpCookie? { CreationKeepsCookie(s, op, key, sid, secret, c, later); }
  }

  lemma {:induction false} RunKeepsCookie(
    s: State, ops: seq<Op>, key: ConnectionKey, sid: SessionId, secret: string, c: CookieSession, later: int)
    requires Inverses(s) && Keeps(s, key, sid, secret, c, later) && AllEnabled(s, ops)
    requires forall op <- ops :: Leaves(op, key, sid) && LeavesCookie(op, key, secret, later)
    ensures Inverses(Run(s, ops)) && Keeps(Run(s, ops), key, sid, secret, c, later)
  {
    if ops != [] {
      var n := |ops| - 1;
      PrefixEnabled(s, ops);
      RunKeepsCookie(s, ops[..n], key, sid, secret, c, later);
      ApplyKeepsInverses(Run(s, ops[..n]), ops[n]);
      OpKeepsCookie(Run(s, ops[..n]), ops[n], key, sid, secret, c, later);
    }
  }

  /** A created cookie session resolves to its credential's token at every time before its expiry, and
      at none after, whatever refreshes, purges and other sessions come in between. It expires with the
      credential or with the principal it was created for, whichever is earlier. */
  lemma CreatedCookieResolves(s: State, create: Op, ops: seq<Op>, expires: int, later: int)
    requires Inverses(s) && create.OpCookie? && AllEnabled(Apply(s, create), ops) && Live(s, create.key).Some?
    requires CreateCookie(s, create.key, create.owner, create.principalExpiry, create.token, create.secret,
                          create.now).1 == Some(expires)
    requires forall op <- ops :: Leaves(op, create.key, Live(s, create.key).value)
    requires forall op <- ops :: LeavesCookie(op, create.key, create.secret, later)
    ensures CookieFor(Run(Apply(s, create), ops), create.key, create.owner, create.secret, later)
            == if later < expires then Some(create.token) else None
    ensures var c := s.tunnels[Live(s, create.key).value].credential;
            c.Some? && c.value.token == create.token && expires == Min(c.value.expiresAt, create.principalExpiry)
  {
    ApplyKeepsInverses(s, create);
    RunKeepsCookie(Apply(s, create), ops, create.key, Live(s, create.key).value, create.secret,
                   CookieSession(create.owner, create.token, expires), later);
  }

  /** The cookies that resolve under a key for an owner. */
  ghost function Resolving(s: State, key: ConnectionKey, owner: string, now: int): (r: set<string>)
    ensures forall id :: id in r <==> CookieFor(s, key, owner, id, now).Some?
  {
    if Live(s, key).Some? then
      set id | id in s.tunnels[Live(s, key).value].cookies && CookieFor(s, key, owner, id, now).Some?
    else {}
  }

  /** A cookie session is created exactly if the token is that of the credential answered now and fewer
      than 64 cookies resolve. */
  lemma CookieIsCreatedExactly(s: State, create: Op)
    requires Valid(s) && create.OpCookie?
    ensures CreateCookie(s, create.key, create.owner, create.principalExpiry, create.token, create.secret,
                         create.now).1.Some? <==>
              && |Resolving(s, create.key, create.owner, create.now)| < 64
              && exists d :: CredentialFor(s, create.key, create.owner, d, create.now).Some? &&
                             CredentialFor(s, create.key, create.owner, d, create.now).value.token == create.token
  {
    var live := Live(s, create.key);
    if live.Some? && s.tunnels[live.value].owner == create.owner {
      var t := s.tunnels[live.value];
      assert CookiesBounded(t);
      assert Unexpired(t.cookies, create.now).Keys == Resolving(s, create.key, create.owner, create.now);
      assert |Unexpired(t.cookies, create.now)| == |Unexpired(t.cookies, create.now).Keys|;
      var c := CredentialFor(s, create.key, create.owner, t.desktopId, create.now);
    }
  }

  /** Creating changes one tunnel, and of that one nothing but its cookies. */
  lemma CreationIsLocal(s: State, create: Op, sid: SessionId)
    requires create.OpCookie? && sid in s.tunnels
    ensures var s' := Apply(s, create);
            && s'.active == s.active && s'.tunnels.Keys == s.tunnels.Keys
            && s'.tunnels[sid] == s.tunnels[sid].(cookies := s'.tunnels[sid].cookies)
            && (Live(s, create.key) != Some(sid) ==> s'.tunnels[sid] == s.tunnels[sid])
  {
  }

  /** From then on no other cookie and no credential answers differently. */
  lemma CookieCreationIsExact(
    s: State, create: Op, key: ConnectionKey, owner: string, desktopId: string, cookie: string, later: int)
    requires Inverses(s) && create.OpCookie? && create.now <= later
    ensures var made := CreateCookie(s, create.key, create.owner, create.principalExpiry, create.token, create.secret,
                                     create.now).1.Some?;
            && (!(made && key == create.key && cookie == create.secret) ==>
                  CookieFor(Apply(s, create), key, owner, cookie, later) == CookieFor(s, key, owner, cookie, later))
            && CredentialFor(Apply(s, create), key, owner, desktopId, later)
               == CredentialFor(s, key, owner, desktopId, later)
  {
    if key in s.active {
      CreationIsLocal(s, create, s.active[key]);
      assert key != create.key && create.key in s.active ==> s.active[key] != s.active[create.key];
    }
  }

  /** A revoked cookie no longer resolves under its key, and every other cookie does as before. */
  lemma CookieRevocationIsExact(
    s: State, key: ConnectionKey, secret: string, other: ConnectionKey, owner: string, cookie: string, now: int)
    requires Inverses(s)
    ensures CookieFor(RevokeCookie(s, key, secret), other, owner, cookie, now)
            == if other == key && cookie == secret then None else CookieFor(s, other, owner, cookie, now)
  {
  }
}
