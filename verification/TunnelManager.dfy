/** The relay's `Manager`: live tunnels, their platform credential and their cookie sessions.

    First the state as values, with one function per lock region; then what every run keeps;
    then the classes, whose methods are proved against those functions. Times are nanoseconds. */
module TunnelManager {
  import opened Prelude
  import opened DeviceRegistry

  type SessionId = string

  datatype ConnectionKey = AgentKey(tokenId: string) | DesktopKey(device: DeviceKey)

  datatype Credential = Credential(token: string, platformDeviceId: string, expiresAt: int)

  datatype CookieSession = CookieSession(owner: string, token: string, expiresAt: int)

  const MAX_COOKIE_SESSIONS := 64
  const MAX_CREDENTIAL_TOKEN_BYTES := 16384

  /** `open` is the yamux session not being closed. */
  datatype Tunnel = Tunnel(
    key: ConnectionKey, owner: string, desktopId: string, open: bool,
    credential: Option<Credential>, cookies: map<string, CookieSession>)

  /** `tunnels` holds every tunnel ever registered; the two other maps are the Manager's own. */
  datatype State = State(
    tunnels: map<SessionId, Tunnel>,
    active: map<ConnectionKey, SessionId>,
    keyBySession: map<SessionId, ConnectionKey>)

  const EMPTY := State(map[], map[], map[])

  predicate IsOpen(s: State, sid: SessionId) {
    sid in s.tunnels && s.tunnels[sid].open
  }

  /** The open tunnel under a key, as every lookup of the Manager sees it. */
  function Live(s: State, key: ConnectionKey): Option<SessionId> {
    if key in s.active && IsOpen(s, s.active[key]) then Some(s.active[key]) else None
  }

  /** The locked part of SetActive. */
  function Register(s: State, sid: SessionId, t: Tunnel): State {
    var keys := if t.key in s.active then s.keyBySession - {s.active[t.key]} else s.keyBySession;
    State(s.tunnels[sid := t], s.active[t.key := sid], keys[sid := t.key])
  }

  /** Closing a yamux session. */
  function Shut(s: State, sid: SessionId): State {
    if sid in s.tunnels then s.(tunnels := s.tunnels[sid := s.tunnels[sid].(open := false)]) else s
  }

  function Clear(s: State, sid: SessionId): State {
    if sid !in s.keyBySession then s else
    var key := s.keyBySession[sid];
    var s' := s.(keyBySession := s.keyBySession - {sid});
    if key in s.active && s.active[key] == sid then s'.(active := s.active - {key}) else s'
  }

  /** The locked part of CloseSession: the tunnel it is about to close, if any. */
  function CloseTarget(s: State, sid: SessionId): Option<SessionId> {
    if sid in s.keyBySession then Live(s, s.keyBySession[sid]) else None
  }

  /** The fields of a credential that are checked without looking into its token. */
  predicate CredentialFresh(c: Credential, now: int) {
    c.platformDeviceId != "" && |c.token| <= MAX_CREDENTIAL_TOKEN_BYTES && c.expiresAt > now
  }

  predicate AcceptsCredential(
    s: State, key: ConnectionKey, owner: string, desktopId: string, sid: SessionId, c: Credential, now: int)
  {
    && CredentialFresh(c, now)
    && Live(s, key) == Some(sid)
    && s.tunnels[sid].owner == owner && s.tunnels[sid].desktopId == desktopId
    && (s.tunnels[sid].credential.Some? ==>
          c.platformDeviceId == s.tunnels[sid].credential.value.platformDeviceId &&
          s.tunnels[sid].credential.value.expiresAt <= c.expiresAt)
  }

  function UpdateCredential(
    s: State, key: ConnectionKey, owner: string, desktopId: string, sid: SessionId, c: Credential, now: int): State
  {
    if AcceptsCredential(s, key, owner, desktopId, sid, c, now)
    then s.(tunnels := s.tunnels[sid := s.tunnels[sid].(credential := Some(c))])
    else s
  }

  function CredentialFor(s: State, key: ConnectionKey, owner: string, desktopId: string, now: int): Option<Credential> {
    var live := Live(s, key);
    if live.Some? && s.tunnels[live.value].owner == owner && s.tunnels[live.value].desktopId == desktopId &&
       s.tunnels[live.value].credential.Some? && s.tunnels[live.value].credential.value.expiresAt > now
    then s.tunnels[live.value].credential
    else None
  }

  function Unexpired(cookies: map<string, CookieSession>, now: int): map<string, CookieSession> {
    map id | id in cookies && cookies[id].expiresAt > now :: cookies[id]
  }

  predicate MayCreateCookie(s: State, key: ConnectionKey, owner: string, token: string, now: int) {
    var live := Live(s, key);
    && live.Some?
    && s.tunnels[live.value].owner == owner
    && s.tunnels[live.value].credential.Some?
    && s.tunnels[live.value].credential.value.token == token
    && s.tunnels[live.value].credential.value.expiresAt > now
  }

  /** Purges expired cookie sessions even when it then refuses because 64 are left. */
  function CreateCookie(
    s: State, key: ConnectionKey, owner: string, principalExpiry: int, token: string, secret: string, now: int)
    : (State, Option<int>)
  {
    if !MayCreateCookie(s, key, owner, token, now) then (s, None) else
    var sid := Live(s, key).value;
    var t := s.tunnels[sid];
    var kept := Unexpired(t.cookies, now);
    if |kept| >= MAX_COOKIE_SESSIONS then (s.(tunnels := s.tunnels[sid := t.(cookies := kept)]), None) else
    var expires := Min(t.credential.value.expiresAt, principalExpiry);
    var cookies := kept[secret := CookieSession(owner, token, expires)];
    (s.(tunnels := s.tunnels[sid := t.(cookies := cookies)]), Some(expires))
  }

  function CookieFor(s: State, key: ConnectionKey, owner: string, cookie: string, now: int): Option<string> {
    var live := Live(s, key);
    if live.Some? && s.tunnels[live.value].owner == owner && cookie in s.tunnels[live.value].cookies &&
       s.tunnels[live.value].cookies[cookie].owner == owner && s.tunnels[live.value].cookies[cookie].expiresAt > now
    then Some(s.tunnels[live.value].cookies[cookie].token)
    else None
  }

  function RevokeCookie(s: State, key: ConnectionKey, secret: string): State {
    if key !in s.active || s.active[key] !in s.tunnels then s else
    var sid := s.active[key];
    s.(tunnels := s.tunnels[sid := s.tunnels[sid].(cookies := s.tunnels[sid].cookies - {secret})])
  }

  // ---------------------------------------------------------------- what every run keeps

  /** One entry per lock region, plus the closing of a yamux session by anyone. */
  datatype Op =
    | OpRegister(sid: SessionId, tunnel: Tunnel)
    | OpShut(sid: SessionId)
    | OpClear(sid: SessionId)
    | OpCredential(
        key: ConnectionKey, owner: string, desktopId: string, sid: SessionId, credential: Credential, now: int)
    | OpCookie(key: ConnectionKey, owner: string, principalExpiry: int, token: string, secret: string, now: int)
    | OpRevokeCookie(key: ConnectionKey, secret: string)

  /** Session ids are fresh and a tunnel starts open and without cookie sessions. */
  predicate Enabled(s: State, op: Op) {
    op.OpRegister? ==> op.sid !in s.tunnels && op.tunnel.open && op.tunnel.cookies == map[]
  }

  function Apply(s: State, op: Op): State {
    match op
    case OpRegister(sid, t) => Register(s, sid, t)
    case OpShut(sid) => Shut(s, sid)
    case OpClear(sid) => Clear(s, sid)
    case OpCredential(key, owner, desktopId, sid, c, now) => UpdateCredential(s, key, owner, desktopId, sid, c, now)
    case OpCookie(key, owner, exp, token, secret, now) => CreateCookie(s, key, owner, exp, token, secret, now).0
    case OpRevokeCookie(key, secret) => RevokeCookie(s, key, secret)
  }

  /** `active` and `keyBySession` are exact inverses, and name registered tunnels. */
  ghost predicate Inverses(s: State) {
    && (forall k :: k in s.active ==>
          s.active[k] in s.tunnels && s.tunnels[s.active[k]].key == k &&
          s.active[k] in s.keyBySession && s.keyBySession[s.active[k]] == k)
    && (forall sid :: sid in s.keyBySession ==>
          s.keyBySession[sid] in s.active && s.active[s.keyBySession[sid]] == sid)
  }

  /** A cookie session never outlives the credential of its tunnel, and 64 is the limit. */
  ghost predicate CookiesBounded(t: Tunnel) {
    && |t.cookies| <= MAX_COOKIE_SESSIONS
    && (forall id :: id in t.cookies ==>
          && t.credential.Some? && t.cookies[id].expiresAt <= t.credential.value.expiresAt
          && t.cookies[id].owner == t.owner)
  }

  ghost predicate Valid(s: State) {
    Inverses(s) && forall sid :: sid in s.tunnels ==> CookiesBounded(s.tunnels[sid])
  }

  lemma UnexpiredSize(cookies: map<string, CookieSession>, now: int)
    ensures |Unexpired(cookies, now)| <= |cookies|
  {
    var kept := Unexpired(cookies, now);
    SubsetSize(kept.Keys, cookies.Keys);
  }

  lemma SubsetSize<T>(a: set<T>, b: set<T>)
    requires a <= b
    ensures |a| <= |b|
  {
    if a != {} {
      var x :| x in a;
      SubsetSize(a - {x}, b - {x});
    }
  }

  lemma ApplyKeepsInverses(s: State, op: Op)
    requires Inverses(s) && Enabled(s, op)
    ensures Inverses(Apply(s, op))
  {
  }

  lemma OneCookieMore(cookies: map<string, CookieSession>, id: string, c: CookieSession)
    ensures |cookies[id := c]| <= |cookies| + 1
  {
    assert cookies[id := c].Keys == cookies.Keys + {id};
  }

  lemma CreateKeepsCookies(
    s: State, key: ConnectionKey, owner: string, principalExpiry: int, token: string, secret: string, now: int,
    sid: SessionId)
    requires sid in s.tunnels && CookiesBounded(s.tunnels[sid])
    ensures CookiesBounded(CreateCookie(s, key, owner, principalExpiry, token, secret, now).0.tunnels[sid])
  {
    if MayCreateCookie(s, key, owner, token, now) && Live(s, key) == Some(sid) {
      var t := s.tunnels[sid];
      UnexpiredSize(t.cookies, now);
      var expires := Min(t.credential.value.expiresAt, principalExpiry);
      OneCookieMore(Unexpired(t.cookies, now), secret, CookieSession(owner, token, expires));
    }
  }

  lemma RevokeKeepsCookies(s: State, key: ConnectionKey, secret: string, sid: SessionId)
    requires sid in s.tunnels && CookiesBounded(s.tunnels[sid])
    ensures CookiesBounded(RevokeCookie(s, key, secret).tunnels[sid])
  {
    SubsetSize(RevokeCookie(s, key, secret).tunnels[sid].cookies.Keys, s.tunnels[sid].cookies.Keys);
  }

  lemma ApplyKeepsCookies(s: State, op: Op, sid: SessionId)
    requires Enabled(s, op)
    requires sid in s.tunnels ==> CookiesBounded(s.tunnels[sid])
    ensures sid in Apply(s, op).tunnels ==> CookiesBounded(Apply(s, op).tunnels[sid])
  {
    if sid in s.tunnels {
      match op
      case OpCookie(key, owner, exp, token, secret, now) =>
        CreateKeepsCookies(s, key, owner, exp, token, secret, now, sid);
      case OpRevokeCookie(key, secret) => RevokeKeepsCookies(s, key, secret, sid);
      case _ =>
    }
  }

  /** Within one tunnel: identity is fixed, closing is final, the platform device is fixed once
      known, and the credential expiry never decreases. */
  predicate Succeeds(t: Tunnel, t': Tunnel) {
    && t'.key == t.key && t'.owner == t.owner && t'.desktopId == t.desktopId
    && (!t.open ==> !t'.open)
    && (t.credential.Some? ==>
          t'.credential.Some? &&
          t'.credential.value.platformDeviceId == t.credential.value.platformDeviceId &&
          t.credential.value.expiresAt <= t'.credential.value.expiresAt)
  }

  lemma ApplySucceeds(s: State, op: Op, sid: SessionId)
    requires Enabled(s, op) && sid in s.tunnels
    ensures sid in Apply(s, op).tunnels && Succeeds(s.tunnels[sid], Apply(s, op).tunnels[sid])
  {
  }

  function Run(s: State, ops: seq<Op>): State {
    if ops == [] then s else Apply(Run(s, ops[..|ops| - 1]), ops[|ops| - 1])
  }

  ghost predicate AllEnabled(s: State, ops: seq<Op>) {
    forall i :: 0 <= i < |ops| ==> Enabled(Run(s, ops[..i]), ops[i])
  }

  /** Validity on every run. */
  lemma {:induction false} RunKeepsValid(s: State, ops: seq<Op>)
    requires Valid(s) && AllEnabled(s, ops)
    ensures Valid(Run(s, ops))
  {
    if ops != [] {
      var n := |ops| - 1;
      PrefixEnabled(s, ops);
      RunKeepsValid(s, ops[..n]);
      var m := Run(s, ops[..n]);
      ApplyKeepsInverses(m, ops[n]);
      forall sid | sid in Apply(m, ops[n]).tunnels ensures CookiesBounded(Apply(m, ops[n]).tunnels[sid]) {
        ApplyKeepsCookies(m, ops[n], sid);
      }
    }
  }

  lemma PrefixEnabled(s: State, ops: seq<Op>)
    requires ops != [] && AllEnabled(s, ops)
    ensures AllEnabled(s, ops[..|ops| - 1])
    ensures Enabled(Run(s, ops[..|ops| - 1]), ops[|ops| - 1])
  {
    var prefix := ops[..|ops| - 1];
    forall i | 0 <= i < |prefix| ensures Enabled(Run(s, prefix[..i]), prefix[i]) {
      assert prefix[..i] == ops[..i];
    }
  }

  /** On every run the credential of a registered tunnel only moves forward. */
  lemma {:induction false} CredentialsOnlyMoveForward(s: State, ops: seq<Op>, sid: SessionId)
    requires AllEnabled(s, ops) && sid in s.tunnels
    ensures sid in Run(s, ops).tunnels && Succeeds(s.tunnels[sid], Run(s, ops).tunnels[sid])
  {
    if ops != [] {
      var n := |ops| - 1;
      PrefixEnabled(s, ops);
      CredentialsOnlyMoveForward(s, ops[..n], sid);
      ApplySucceeds(Run(s, ops[..n]), ops[n], sid);
    }
  }

  /** In every reachable state a cookie that resolves at `now` has a live tunnel whose current
      credential, whatever refreshes came in between, is unexpired at `now`. */
  lemma ResolvingCookieHasLiveCredential(ops: seq<Op>, key: ConnectionKey, owner: string, cookie: string, now: int)
    requires AllEnabled(EMPTY, ops)
    requires CookieFor(Run(EMPTY, ops), key, owner, cookie, now).Some?
    ensures var s := Run(EMPTY, ops);
            && Live(s, key).Some?
            && |s.tunnels[Live(s, key).value].cookies| <= MAX_COOKIE_SESSIONS
            && CredentialFor(s, key, owner, s.tunnels[Live(s, key).value].desktopId, now).Some?
  {
    RunKeepsValid(EMPTY, ops);
  }

  lemma StaysGone(s: State, op: Op, sid: SessionId)
    requires Enabled(s, op) && sid in s.tunnels && sid !in s.keyBySession
    ensures sid in Apply(s, op).tunnels && sid !in Apply(s, op).keyBySession
  {
  }

  lemma GoneIsInactive(s: State, sid: SessionId)
    requires Inverses(s) && sid !in s.keyBySession
    ensures forall k :: k in s.active ==> s.active[k] != sid
  {
  }

  /** Once a tunnel is replaced or cleared it is out of `active` for good: its key resolves to
      another tunnel or to none on every continuation. */
  lemma {:induction false} GoneStaysGone(s: State, ops: seq<Op>, sid: SessionId)
    requires Inverses(s) && AllEnabled(s, ops)
    requires sid in s.tunnels && sid !in s.keyBySession
    ensures var s' := Run(s, ops);
            && sid in s'.tunnels && sid !in s'.keyBySession && Inverses(s')
            && forall k :: k in s'.active ==> s'.active[k] != sid
  {
    if ops != [] {
      var n := |ops| - 1;
      PrefixEnabled(s, ops);
      GoneStaysGone(s, ops[..n], sid);
      var m := Run(s, ops[..n]);
      ApplyKeepsInverses(m, ops[n]);
      StaysGone(m, ops[n], sid);
    }
    GoneIsInactive(Run(s, ops), sid);
  }

  /** After a replacement no cookie of the old tunnel resolves under the key, and no
      credential is left but the one the new connection brought. */
  lemma ReplacementDropsOldSecrets(
    s: State, sid: SessionId, t: Tunnel, owner: string, desktopId: string, cookie: string, now: int)
    requires Inverses(s) && Enabled(s, OpRegister(sid, t))
    ensures var s' := Register(s, sid, t);
            && CookieFor(s', t.key, owner, cookie, now).None?
            && (CredentialFor(s', t.key, owner, desktopId, now).Some? ==>
                  CredentialFor(s', t.key, owner, desktopId, now) == t.credential)
            && (t.key in s.active ==> s.active[t.key] !in s'.keyBySession)
  {
  }

  /** Clearing a session takes exactly that session out, and nothing when it was replaced before: a
      late Clear never evicts the replacement. What resolved under the keys that are left still
      does, and nothing resolves under the key that is gone. */
  lemma ClearIsExact(
    s: State, sid: SessionId, key: ConnectionKey, owner: string, desktopId: string, cookie: string, now: int)
    requires Inverses(s)
    ensures var s' := Clear(s, sid);
            && s'.tunnels == s.tunnels
            && (sid !in s.keyBySession ==> s' == s)
            && (key in s'.active <==> key in s.active && s.active[key] != sid)
            && (key in s'.active ==> s'.active[key] == s.active[key])
            && CookieFor(s', key, owner, cookie, now)
               == (if key in s'.active then CookieFor(s, key, owner, cookie, now) else None)
            && CredentialFor(s', key, owner, desktopId, now)
               == (if key in s'.active then CredentialFor(s, key, owner, desktopId, now) else None)
  {
  }

  lemma {:induction false} RunAppend(s: State, a: seq<Op>, b: seq<Op>)
    ensures Run(s, a + b) == Run(Run(s, a), b)
    decreases |b|
  {
    if b == [] {
      assert a + b == a;
    } else {
      RunAppend(s, a, b[..|b| - 1]);
      assert (a + b)[..|a + b| - 1] == a + b[..|b| - 1];
    }
  }

  lemma EnabledAppend(s: State, a: seq<Op>, b: seq<Op>)
    requires AllEnabled(s, a + b)
    ensures AllEnabled(s, a) && AllEnabled(Run(s, a), b)
  {
    forall i | 0 <= i < |a|
      ensures Enabled(Run(s, a[..i]), a[i])
    {
      assert (a + b)[..i] == a[..i];
    }
    forall i | 0 <= i < |b|
      ensures Enabled(Run(Run(s, a), b[..i]), b[i])
    {
      RunAppend(s, a, b[..i]);
      assert (a + b)[..|a| + i] == a + b[..i];
      assert Enabled(Run(s, (a + b)[..|a| + i]), (a + b)[|a| + i]);
    }
  }

  /** Step i of a run gives `secret` out for a cookie session of the tunnel `sid`. */
  predicate IssuedTo(ops: seq<Op>, i: nat, sid: SessionId, secret: string) {
    && i < |ops| && ops[i].OpCookie? && ops[i].secret == secret
    && Live(Run(EMPTY, ops[..i]), ops[i].key) == Some(sid)
  }

  /** Cookie secrets are random: no two are the same. */
  predicate DistinctSecrets(ops: seq<Op>) {
    forall i, j :: 0 <= i < j < |ops| && ops[i].OpCookie? && ops[j].OpCookie? ==> ops[i].secret != ops[j].secret
  }

  lemma NewCookie(s: State, op: Op, sid: SessionId, secret: string)
    requires Enabled(s, op) && sid in Apply(s, op).tunnels && secret in Apply(s, op).tunnels[sid].cookies
    requires sid in s.tunnels ==> secret !in s.tunnels[sid].cookies
    ensures op.OpCookie? && op.secret == secret && Live(s, op.key) == Some(sid)
  {
  }

  /** Whatever cookie a tunnel holds was once issued to that tunnel. */
  lemma {:induction false} CookiesAreIssued(ops: seq<Op>, sid: SessionId, secret: string) returns (i: nat)
    requires AllEnabled(EMPTY, ops)
    requires sid in Run(EMPTY, ops).tunnels && secret in Run(EMPTY, ops).tunnels[sid].cookies
    ensures IssuedTo(ops, i, sid, secret)
  {
    var n := |ops| - 1;
    PrefixEnabled(EMPTY, ops);
    var m := Run(EMPTY, ops[..n]);
    if sid in m.tunnels && secret in m.tunnels[sid].cookies {
      i := CookiesAreIssued(ops[..n], sid, secret);
      assert ops[..n][..i] == ops[..i];
    } else {
      NewCookie(m, ops[n], sid, secret);
      i := n;
    }
  }

  /** Only the tunnel a secret was issued to ever holds it. */
  lemma IssuedIsHeld(ops: seq<Op>, more: seq<Op>, sid: SessionId, i: nat, secret: string, other: SessionId)
    requires AllEnabled(EMPTY, ops + more) && DistinctSecrets(ops + more) && IssuedTo(ops, i, sid, secret)
    requires other in Run(EMPTY, ops + more).tunnels && secret in Run(EMPTY, ops + more).tunnels[other].cookies
    ensures other == sid
  {
    var j := CookiesAreIssued(ops + more, other, secret);
    assert (ops + more)[..i] == ops[..i];
    assert IssuedTo(ops + more, i, sid, secret);
    assert i == j;
  }

  /** Once a tunnel is replaced or cleared, no cookie ever issued to it resolves again, under any key
      and on any continuation, and a credential that resolves is that of another, open tunnel. */
  lemma GoneSecretsNeverResolve(
    ops: seq<Op>, more: seq<Op>, sid: SessionId, i: nat, secret: string,
    key: ConnectionKey, owner: string, desktopId: string, now: int)
    requires AllEnabled(EMPTY, ops + more) && DistinctSecrets(ops + more)
    requires sid in Run(EMPTY, ops).tunnels && sid !in Run(EMPTY, ops).keyBySession
    requires IssuedTo(ops, i, sid, secret)
    ensures var s := Run(EMPTY, ops + more);
            && CookieFor(s, key, owner, secret, now).None?
            && (CredentialFor(s, key, owner, desktopId, now).Some? ==>
                  && Live(s, key).Some? && Live(s, key).value != sid
                  && CredentialFor(s, key, owner, desktopId, now) == s.tunnels[Live(s, key).value].credential)
  {
    var s := Run(EMPTY, ops + more);
    RunAppend(EMPTY, ops, more);
    EnabledAppend(EMPTY, ops, more);
    RunKeepsValid(EMPTY, ops);
    GoneStaysGone(Run(EMPTY, ops), more, sid);
    if CookieFor(s, key, owner, secret, now).Some? {
      IssuedIsHeld(ops, more, sid, i, secret, s.active[key]);
    }
  }

  /** CloseSession closes the session named, or nothing; nothing exactly when that session is
      no longer an open active tunnel. */
  lemma CloseTargetIsTheSessionNamed(s: State, sid: SessionId)
    requires Inverses(s)
    ensures CloseTarget(s, sid) == if sid in s.keyBySession && IsOpen(s, sid) then Some(sid) else None
  {
  }

  // ---------------------------------------------------------------- the objects

  class ActiveTunnel {
    const sessionId: SessionId
    const key: ConnectionKey
    const owner: string
    const desktopId: string
    var open: bool
    var credential: Option<Credential>
    var cookies: map<string, CookieSession>

    function View(): Tunnel reads this {
      Tunnel(key, owner, desktopId, open, credential, cookies)
    }

    constructor (
      sessionId: SessionId, key: ConnectionKey, owner: string, desktopId: string, credential: Option<Credential>)
      ensures this.sessionId == sessionId
      ensures View() == Tunnel(key, owner, desktopId, true, credential, map[])
    {
      this.sessionId := sessionId;
      this.key := key;
      this.owner := owner;
      this.desktopId := desktopId;
      this.open := true;
      this.credential := credential;
      this.cookies := map[];
    }

    method Close()
      modifies this
      ensures View() == old(View()).(open := false)
    {
      open := false;
    }
  }

  class Manager {
    var active: map<ConnectionKey, ActiveTunnel>
    var keyBySession: map<SessionId, ConnectionKey>
    /** Every tunnel ever handed to SetActive. */
    ghost var registered: map<SessionId, ActiveTunnel>

    ghost predicate Consistent()
      reads this, registered.Values
    {
      && (forall sid :: sid in registered ==> registered[sid].sessionId == sid)
      && (forall k :: k in active ==> active[k].sessionId in registered && registered[active[k].sessionId] == active[k])
    }

    ghost function View(): State
      reads this, registered.Values
    {
      State(map sid | sid in registered :: registered[sid].View(),
            map k | k in active :: active[k].sessionId,
            keyBySession)
    }

    constructor ()
      ensures Consistent() && View() == EMPTY && registered == map[]
    {
      active := map[];
      keyBySession := map[];
      registered := map[];
    }

    /** Changing one registered tunnel changes that entry of the view and no other. */
    twostate lemma OneTunnelChanged(t: ActiveTunnel)
      requires old(Consistent()) && old(t.sessionId in registered && registered[t.sessionId] == t)
      requires unchanged(this)
      requires forall o :: o in registered.Values && o != t ==> o.View() == old(o.View())
      ensures Consistent()
      ensures View() == old(View()).(tunnels := old(View()).tunnels[t.sessionId := t.View()])
    {
      forall sid | sid in registered ensures registered[sid] == t <==> sid == t.sessionId {
      }
      var m := View().tunnels;
      forall sid | sid in m ensures m[sid] == old(View()).tunnels[t.sessionId := t.View()][sid] {
        if sid != t.sessionId { assert registered[sid] in registered.Values; }
      }
    }

    /** Adding a tunnel to the maps adds its two entries to the view. */
    twostate lemma TunnelInstalled(tunnel: ActiveTunnel)
      requires old(Consistent()) && tunnel.sessionId !in old(registered)
      requires registered == old(registered)[tunnel.sessionId := tunnel]
      requires active == old(active)[tunnel.key := tunnel]
      requires forall o <- old(registered).Values :: o.View() == old(o.View())
      ensures Consistent()
      ensures View().tunnels == old(View().tunnels)[tunnel.sessionId := tunnel.View()]
      ensures View().active == old(View().active)[tunnel.key := tunnel.sessionId]
    {
      TunnelRegistered(tunnel);
      forall k | k in active && k != tunnel.key
        ensures active[k].sessionId in registered && registered[active[k].sessionId] == active[k]
      {
        assert k in old(active);
      }
    }

    twostate lemma TunnelRegistered(tunnel: ActiveTunnel)
      requires tunnel.sessionId !in old(registered)
      requires registered == old(registered)[tunnel.sessionId := tunnel]
      requires forall o <- old(registered).Values :: o.View() == old(o.View())
      ensures View().tunnels == old(View().tunnels)[tunnel.sessionId := tunnel.View()]
    {
      var before := old(View().tunnels);
      var after := View().tunnels;
      assert after.Keys == before.Keys + {tunnel.sessionId};
      forall sid | sid in before ensures after[sid] == before[sid] {
        assert sid != tunnel.sessionId;
        assert old(registered)[sid] in old(registered).Values;
      }
    }

    /** The locked part of SetActive. */
    method Install(tunnel: ActiveTunnel) returns (replaced: Option<ActiveTunnel>)
      requires Consistent() && tunnel.sessionId !in registered
      modifies this
      ensures Consistent() && registered == old(registered)[tunnel.sessionId := tunnel]
      ensures View() == Register(old(View()), tunnel.sessionId, tunnel.View())
      ensures replaced == Get(old(active), tunnel.key)
      ensures replaced.Some? ==>
                && replaced.value.sessionId in old(registered)
                && old(registered)[replaced.value.sessionId] == replaced.value
    {
      replaced := Get(active, tunnel.key);
      if replaced.Some? {
        keyBySession := keyBySession - {replaced.value.sessionId};
      }
      active := active[tunnel.key := tunnel];
      keyBySession := keyBySession[tunnel.sessionId := tunnel.key];
      registered := registered[tunnel.sessionId := tunnel];
      TunnelInstalled(tunnel);
    }

    method SetActive(tunnel: ActiveTunnel)
      requires Consistent() && tunnel.sessionId !in registered
      modifies this, registered.Values
      ensures Consistent() && registered == old(registered)[tunnel.sessionId := tunnel]
      ensures var s := old(View());
              View() == if tunnel.key in s.active
                        then Shut(Register(s, tunnel.sessionId, old(tunnel.View())), s.active[tunnel.key])
                        else Register(s, tunnel.sessionId, old(tunnel.View()))
    {
      var replaced := Install(tunnel);
      if replaced.Some? {
        label locked:
        var t := replaced.value;
        assert t in old(registered).Values;
        if t.open {
          t.Close();
        }
        OneTunnelChanged@locked(t);
      }
    }

    method ClearSession(sid: SessionId)
      requires Consistent()
      modifies this
      ensures Consistent() && registered == old(registered)
      ensures View() == Clear(old(View()), sid)
    {
      if sid !in keyBySession {
        return;
      }
      var key := keyBySession[sid];
      keyBySession := keyBySession - {sid};
      if key in active && active[key].sessionId == sid {
        active := active - {key};
      }
    }

    method CloseSession(sid: SessionId) returns (found: bool)
      requires Consistent()
      modifies registered.Values
      ensures Consistent()
      ensures found == CloseTarget(old(View()), sid).Some?
      ensures View() == if found then Shut(old(View()), CloseTarget(old(View()), sid).value) else old(View())
    {
      if sid !in keyBySession || keyBySession[sid] !in active || !active[keyBySession[sid]].open {
        return false;
      }
      var target := active[keyBySession[sid]];
      assert target in registered.Values;
      target.Close();
      OneTunnelChanged(target);
      return true;
    }

    method ActiveFor(key: ConnectionKey) returns (r: Option<SessionId>)
      requires Consistent()
      ensures r == Live(View(), key)
    {
      if key !in active || !active[key].open {
        return None;
      }
      return Some(active[key].sessionId);
    }

    method UpdatePlatformCredential(
      key: ConnectionKey, owner: string, desktopId: string, sid: SessionId, c: Credential, now: int) returns (ok: bool)
      requires Consistent()
      modifies registered.Values
      ensures Consistent()
      ensures ok == AcceptsCredential(old(View()), key, owner, desktopId, sid, c, now)
      ensures View() == UpdateCredential(old(View()), key, owner, desktopId, sid, c, now)
    {
      if c.platformDeviceId == "" || |c.token| > MAX_CREDENTIAL_TOKEN_BYTES || c.expiresAt <= now || key !in active {
        return false;
      }
      var a := active[key];
      assert a in registered.Values;
      if !a.open || a.sessionId != sid || a.owner != owner || a.desktopId != desktopId {
        return false;
      }
      if a.credential.Some? {
        if a.credential.value.platformDeviceId != c.platformDeviceId {
          return false;
        }
        if c.expiresAt < a.credential.value.expiresAt {
          return false;
        }
      }
      a.credential := Some(c);
      OneTunnelChanged(a);
      return true;
    }

    method PlatformCredentialFor(
      key: ConnectionKey, owner: string, desktopId: string, now: int) returns (r: Option<Credential>)
      requires Consistent()
      ensures r == CredentialFor(View(), key, owner, desktopId, now)
    {
      if key !in active || !active[key].open || active[key].owner != owner || active[key].desktopId != desktopId ||
         active[key].credential.None? || active[key].credential.value.expiresAt <= now {
        return None;
      }
      return active[key].credential;
    }

    method CreateMobileWebAppSession(
      key: ConnectionKey, owner: string, principalExpiry: int, token: string, secret: string, now: int)
      returns (expires: Option<int>)
      requires Consistent()
      modifies registered.Values
      ensures Consistent()
      ensures (View(), expires) == CreateCookie(old(View()), key, owner, principalExpiry, token, secret, now)
    {
      if key !in active {
        return None;
      }
      var a := active[key];
      assert a in registered.Values;
      if !a.open || a.owner != owner || a.credential.None? || a.credential.value.token != token ||
         a.credential.value.expiresAt <= now {
        return None;
      }
      var ids := a.cookies.Keys;
      while ids != {}
        invariant ids <= old(a.cookies).Keys
        invariant a.cookies.Keys <= old(a.cookies).Keys
        invariant forall id :: id in old(a.cookies) ==>
                    (id in a.cookies <==> id in ids || old(a.cookies)[id].expiresAt > now)
        invariant forall id :: id in a.cookies ==> a.cookies[id] == old(a.cookies)[id]
        invariant a.View() == old(a.View()).(cookies := a.cookies)
        modifies a
      {
        var id :| id in ids;
        ids := ids - {id};
        if a.cookies[id].expiresAt <= now {
          a.cookies := a.cookies - {id};
        }
      }
      assert a.cookies == Unexpired(old(a.cookies), now);
      if |a.cookies| >= MAX_COOKIE_SESSIONS {
        OneTunnelChanged(a);
        return None;
      }
      var e := a.credential.value.expiresAt;
      if principalExpiry < e {
        e := principalExpiry;
      }
      a.cookies := a.cookies[secret := CookieSession(owner, token, e)];
      OneTunnelChanged(a);
      return Some(e);
    }

    method MobileWebAppSessionFor(
      key: ConnectionKey, owner: string, cookie: string, now: int) returns (token: Option<string>)
      requires Consistent()
      ensures token == CookieFor(View(), key, owner, cookie, now)
    {
      if key !in active || !active[key].open || active[key].owner != owner {
        return None;
      }
      var a := active[key];
      if cookie in a.cookies && a.cookies[cookie].owner == owner && a.cookies[cookie].expiresAt > now {
        return Some(a.cookies[cookie].token);
      }
      return None;
    }

    method RevokeMobileWebAppSession(key: ConnectionKey, secret: string)
      requires Consistent()
      modifies registered.Values
      ensures Consistent()
      ensures View() == RevokeCookie(old(View()), key, secret)
    {
      if key in active {
        var a := active[key];
        assert a in registered.Values;
        a.cookies := a.cookies - {secret};
        OneTunnelChanged(a);
      }
    }
  }
}
