/** Why a tunnel closes: in every interleaving a registered session that is no longer open has a reason
    among the steps, and a session without one stays the live tunnel of its key. */
module TunnelUptime {
  import opened Prelude
  import opened TunnelLifecycle
  import D = DeviceRegistry
  import M = TunnelManager

  // ---------------------------------------------------------------- the reasons

  /** The step makes the device, active before, a revoked one. */
  predicate Revokes(s: Sys, step: Step, device: D.DeviceKey) {
    && step.Advance? && !step.dbFails && step.tid in s.threads && s.threads[step.tid] == RevokeWriting(device)
    && D.IsActive(s.table, device) && !D.IsActive(Next(s, step).table, device)
  }

  /** The handler `tid` has revoked the device in this run. */
  predicate HasRevoked(s0: Sys, steps: seq<Step>, tid: nat, device: D.DeviceKey) {
    && steps != []
    && var n := |steps| - 1;
       HasRevoked(s0, steps[..n], tid, device) ||
       (steps[n].Advance? && steps[n].tid == tid && Revokes(Run(s0, steps[..n]), steps[n], device))
  }

  /** A tunnel is registered under the key while `sid` is already registered. */
  predicate Replaces(s: Sys, step: Step, sid: SessionId, key: M.ConnectionKey) {
    && step.Advance? && step.tid in s.threads && s.threads[step.tid].Registering?
    && s.threads[step.tid].tunnel.key == key && sid in s.manager.tunnels
  }

  /** The database fails while the handshake of `sid`, or a refresh of its credential, checks the device. */
  predicate RecheckErrs(s: Sys, step: Step, sid: SessionId, device: D.DeviceKey) {
    && step.Advance? && step.dbFails && step.tid in s.threads
    && (s.threads[step.tid] == Rechecking(sid, device) || s.threads[step.tid] == RefreshRechecking(device, sid))
  }

  /** A revocation whose database part is done looks for a tunnel of the device and finds `sid`. */
  predicate FoundByRevoker(s: Sys, step: Step, sid: SessionId, device: D.DeviceKey) {
    && step.Advance? && step.tid in s.threads && s.threads[step.tid] == RevokeFinding(device)
    && M.Live(s.manager, M.DesktopKey(device)) == Some(sid)
  }

  /** The step is a reason to close the session `sid` of this key: it disconnects; its key is registered
      again; the database fails while its device is rechecked; its device is revoked once the session id is
      given out; or a handler that has revoked the device before finds the session. */
  predicate IsReason(s: Sys, step: Step, sid: SessionId, key: M.ConnectionKey, hasRevoked: bool) {
    || step == Disconnect(sid)
    || Replaces(s, step, sid, key)
    || (&& key.DesktopKey?
        && (|| RecheckErrs(s, step, sid, key.device)
            || (sid in s.issued && Revokes(s, step, key.device))
            || (hasRevoked && FoundByRevoker(s, step, sid, key.device))))
  }

  predicate MoverHasRevoked(s0: Sys, steps: seq<Step>, step: Step, key: M.ConnectionKey) {
    key.DesktopKey? && step.Advance? && HasRevoked(s0, steps, step.tid, key.device)
  }

  /** A reason is among the steps. */
  predicate HasReason(s0: Sys, steps: seq<Step>, sid: SessionId, key: M.ConnectionKey) {
    && steps != []
    && var n := |steps| - 1;
       || HasReason(s0, steps[..n], sid, key)
       || IsReason(Run(s0, steps[..n]), steps[n], sid, key, MoverHasRevoked(s0, steps[..n], steps[n], key))
  }

  // ---------------------------------------------------------------- what the handlers know

  predicate KeyIs(m: M.State, sid: SessionId, key: M.ConnectionKey) {
    sid in m.tunnels && m.tunnels[sid].key == key
  }

  /** The sessions a handler names are registered, under the key it thinks they have. */
  predicate Names(m: M.State, t: Thread) {
    match t
    case ClosingReplaced(x, key, replaced) => KeyIs(m, x, key) && (replaced.Some? ==> KeyIs(m, replaced.value, key))
    case Rechecking(x, device) => KeyIs(m, x, M.DesktopKey(device))
    case Rejecting(x, device) => KeyIs(m, x, M.DesktopKey(device))
    case RefreshRechecking(device, x) => KeyIs(m, x, M.DesktopKey(device))
    case Serving(x) => x in m.tunnels
    case CloseLookup(x) => x in m.tunnels
    case CloseKill(x) => x in m.tunnels
    case _ => true
  }

  ghost predicate AllName(s: Sys) {
    forall tid :: tid in s.threads ==> Names(s.manager, s.threads[tid])
  }

  lemma AdvanceNames(s: Sys, tid: nat, now: int, dbFails: bool)
    requires M.Inverses(s.manager) && tid in s.threads && Names(s.manager, s.threads[tid])
    ensures Names(AdvanceThread(s, tid, now, dbFails).manager, AdvanceThread(s, tid, now, dbFails).threads[tid])
  {
    if s.threads[tid].CloseLookup? { M.CloseTargetIsTheSessionNamed(s.manager, s.threads[tid].sid); }
  }

  lemma StepKeepsNames(s: Sys, step: Step)
    requires IdsFresh(s) && M.Inverses(s.manager) && AllName(s)
    ensures AllName(Next(s, step))
  {
    var s' := Next(s, step);
    StepDelta(s, step);
    forall tid | tid in s'.threads
      ensures Names(s'.manager, s'.threads[tid])
    {
      if step.Advance? && step.tid == tid {
        AdvanceNames(s, tid, step.now, step.dbFails);
      } else if tid in s.threads {
        StepMovesNoOther(s, step, tid);
        assert Names(s.manager, s.threads[tid]);
      }
    }
  }

  /** The handler is about to close `sid`, or has decided to look it up for that. */
  predicate Aims(t: Thread, sid: SessionId) {
    match t
    case ClosingReplaced(_, _, replaced) => replaced == Some(sid)
    case Rejecting(x, _) => x == sid
    case CloseLookup(x) => x == sid
    case CloseKill(x) => x == sid
    case _ => false
  }

  /** The session is registered or about to be. */
  ghost predicate Held(s: Sys, sid: SessionId, key: M.ConnectionKey) {
    || KeyIs(s.manager, sid, key)
    || exists tid :: tid in s.threads && s.threads[tid].Registering? && s.threads[tid].sid == sid &&
                     s.threads[tid].tunnel.key == key
  }

  /** Closed, aimed at, or of an inactive device: each has a reason. */
  ghost predicate Reasoned(s: Sys, sid: SessionId, key: M.ConnectionKey, reason: bool) {
    && (KeyIs(s.manager, sid, key) && !M.IsOpen(s.manager, sid) ==> reason)
    && (KeyIs(s.manager, sid, key) ==> forall tid :: tid in s.threads && Aims(s.threads[tid], sid) ==> reason)
    && (key.DesktopKey? && Held(s, sid, key) && !D.IsActive(s.table, key.device) ==> reason)
  }

  /** Every revoker that is looking for a tunnel has revoked its device. */
  ghost predicate RevokersRevoked(s0: Sys, steps: seq<Step>) {
    forall tid :: tid in Run(s0, steps).threads && Run(s0, steps).threads[tid].RevokeFinding? ==>
      HasRevoked(s0, steps, tid, Run(s0, steps).threads[tid].device)
  }

  lemma AdvanceRevokes(s: Sys, step: Step)
    requires step.Advance? && step.tid in s.threads && Next(s, step).threads[step.tid].RevokeFinding?
    ensures Revokes(s, step, Next(s, step).threads[step.tid].device)
  {
  }

  lemma StepKeepsRevokers(s0: Sys, steps: seq<Step>)
    requires steps != [] && RevokersRevoked(s0, steps[..|steps| - 1])
    ensures RevokersRevoked(s0, steps)
  {
    var n := |steps| - 1;
    var s, s' := Run(s0, steps[..n]), Run(s0, steps);
    forall tid | tid in s'.threads && s'.threads[tid].RevokeFinding?
      ensures HasRevoked(s0, steps, tid, s'.threads[tid].device)
    {
      if steps[n].Advance? && steps[n].tid == tid {
        AdvanceRevokes(s, steps[n]);
      } else if tid in s.threads {
        StepMovesNoOther(s, steps[n], tid);
      }
    }
  }

  // ---------------------------------------------------------------- one step

  lemma OpCloses(m: M.State, op: M.Op, sid: SessionId)
    requires M.Enabled(m, op) && M.IsOpen(m, sid) && !M.IsOpen(M.Apply(m, op), sid)
    ensures op == M.OpShut(sid)
  {
  }

  /** A session is closed only by its disconnect or by a handler that aims at it. */
  lemma StepCloses(s: Sys, step: Step, sid: SessionId)
    requires IdsFresh(s) && M.IsOpen(s.manager, sid) && !M.IsOpen(Next(s, step).manager, sid)
    ensures step == Disconnect(sid) || (step.Advance? && step.tid in s.threads && Aims(s.threads[step.tid], sid))
  {
    StepsAreManagerOps(s, step);
    OpCloses(s.manager, ManagerStep(s, step).value, sid);
  }

  /** A handler comes to aim at a session only for one of the reasons, or aimed at it before. */
  lemma AdvanceAims(s: Sys, tid: nat, now: int, dbFails: bool, sid: SessionId, key: M.ConnectionKey)
    requires M.Inverses(s.manager) && tid in s.threads && Names(s.manager, s.threads[tid])
    requires KeyIs(s.manager, sid, key) && Aims(AdvanceThread(s, tid, now, dbFails).threads[tid], sid)
    ensures var step := Advance(tid, now, dbFails);
            || Aims(s.threads[tid], sid)
            || Replaces(s, step, sid, key)
            || (&& key.DesktopKey?
                && (|| RecheckErrs(s, step, sid, key.device)
                    || !D.IsActive(s.table, key.device)
                    || FoundByRevoker(s, step, sid, key.device)))
  {
    if s.threads[tid].CloseLookup? { M.CloseTargetIsTheSessionNamed(s.manager, s.threads[tid].sid); }
  }

  /** A session is held only if it was before, or if its device is active now. */
  lemma StepHolds(s: Sys, step: Step, sid: SessionId, key: M.ConnectionKey)
    requires IdsFresh(s) && Held(Next(s, step), sid, key) && !Held(s, sid, key) && key.DesktopKey?
    ensures D.IsActive(Next(s, step).table, key.device)
  {
    var s' := Next(s, step);
    if KeyIs(s'.manager, sid, key) {
      StepDelta(s, step);
      StepIssued(s, step);
    } else {
      var tid :| tid in s'.threads && s'.threads[tid].Registering? && s'.threads[tid].sid == sid &&
        s'.threads[tid].tunnel.key == key;
      StepRegistering(s, step, tid);
    }
  }

  lemma HeldIsIssued(s: Sys, sid: SessionId, key: M.ConnectionKey)
    requires IdsFresh(s) && Held(s, sid, key)
    ensures sid in s.issued
  {
  }

  lemma ClosedHasReason(s: Sys, step: Step, sid: SessionId, key: M.ConnectionKey, reason: bool, hasRevoked: bool)
    requires IdsFresh(s) && Reasoned(s, sid, key, reason)
    requires KeyIs(Next(s, step).manager, sid, key) && !M.IsOpen(Next(s, step).manager, sid)
    ensures reason || IsReason(s, step, sid, key, hasRevoked)
  {
    StepDelta(s, step);
    StepIssued(s, step);
    if M.IsOpen(s.manager, sid) { StepCloses(s, step, sid); }
  }

  /** Nobody aims at a session in the step that registers it. */
  lemma NewIsNotAimedAt(s: Sys, step: Step, sid: SessionId, tid: nat)
    requires Inv(s) && AllName(s) && sid !in s.manager.tunnels && sid in Next(s, step).manager.tunnels
    requires tid in Next(s, step).threads
    ensures !Aims(Next(s, step).threads[tid], sid)
  {
    StepDelta(s, step);
    StepIssued(s, step);
    if tid != step.tid {
      StepMovesNoOther(s, step, tid);
      assert Names(s.manager, s.threads[tid]);
    }
  }

  lemma AimHasReason(
    s: Sys, step: Step, sid: SessionId, key: M.ConnectionKey, reason: bool, hasRevoked: bool, tid: nat)
    requires M.Inverses(s.manager) && AllName(s) && Reasoned(s, sid, key, reason) && KeyIs(s.manager, sid, key)
    requires key.DesktopKey? && step.Advance? && Get(s.threads, step.tid) == Some(RevokeFinding(key.device)) ==>
               hasRevoked
    requires tid in Next(s, step).threads && Aims(Next(s, step).threads[tid], sid)
    ensures reason || IsReason(s, step, sid, key, hasRevoked)
  {
    if step.Advance? && step.tid == tid {
      AdvanceAims(s, tid, step.now, step.dbFails, sid, key);
    } else if tid in s.threads {
      StepMovesNoOther(s, step, tid);
    }
  }

  lemma InactiveHasReason(s: Sys, step: Step, sid: SessionId, key: M.ConnectionKey, reason: bool, hasRevoked: bool)
    requires IdsFresh(s) && Reasoned(s, sid, key, reason)
    requires key.DesktopKey? && Held(Next(s, step), sid, key) && !D.IsActive(Next(s, step).table, key.device)
    ensures reason || IsReason(s, step, sid, key, hasRevoked)
  {
    if !Held(s, sid, key) {
      StepHolds(s, step, sid, key);
    } else if D.IsActive(s.table, key.device) {
      HeldIsIssued(s, sid, key);
      StepRevokes(s, step, key.device);
      AdvanceRevokes(s, step);
    }
  }

  lemma StepReasons(s: Sys, step: Step, sid: SessionId, key: M.ConnectionKey, reason: bool, hasRevoked: bool)
    requires Inv(s) && AllName(s) && Reasoned(s, sid, key, reason)
    requires key.DesktopKey? && step.Advance? && Get(s.threads, step.tid) == Some(RevokeFinding(key.device)) ==>
               hasRevoked
    ensures Reasoned(Next(s, step), sid, key, reason || IsReason(s, step, sid, key, hasRevoked))
  {
    var s' := Next(s, step);
    if KeyIs(s'.manager, sid, key) {
      if !M.IsOpen(s'.manager, sid) { ClosedHasReason(s, step, sid, key, reason, hasRevoked); }
      StepDelta(s, step);
      forall tid | tid in s'.threads && Aims(s'.threads[tid], sid)
        ensures reason || IsReason(s, step, sid, key, hasRevoked)
      {
        if sid in s.manager.tunnels {
          AimHasReason(s, step, sid, key, reason, hasRevoked, tid);
        } else {
          NewIsNotAimedAt(s, step, sid, tid);
        }
      }
    }
    if key.DesktopKey? && Held(s', sid, key) && !D.IsActive(s'.table, key.device) {
      InactiveHasReason(s, step, sid, key, reason, hasRevoked);
    }
  }

  lemma {:induction false} RunReasons(s0: Sys, steps: seq<Step>, sid: SessionId, key: M.ConnectionKey)
    requires Initial(s0)
    ensures AllName(Run(s0, steps)) && RevokersRevoked(s0, steps)
    ensures Reasoned(Run(s0, steps), sid, key, HasReason(s0, steps, sid, key))
  {
    if steps != [] {
      var n := |steps| - 1;
      RunReasons(s0, steps[..n], sid, key);
      RunKeepsInv(s0, steps[..n]);
      StepKeepsNames(Run(s0, steps[..n]), steps[n]);
      StepKeepsRevokers(s0, steps);
      StepReasons(Run(s0, steps[..n]), steps[n], sid, key, HasReason(s0, steps[..n], sid, key),
                  MoverHasRevoked(s0, steps[..n], steps[n], key));
    }
  }

  // ---------------------------------------------------------------- the main results

  /** In every interleaving a registered session that is not the live tunnel of its key, mid-flight or
      not, has a reason among the steps. */
  lemma EveryCloseHasAReason(s0: Sys, steps: seq<Step>, sid: SessionId)
    requires Initial(s0) && sid in Run(s0, steps).manager.tunnels
    ensures var m := Run(s0, steps).manager;
            M.Live(m, m.tunnels[sid].key) == Some(sid) || HasReason(s0, steps, sid, m.tunnels[sid].key)
  {
    var s := Run(s0, steps);
    RunReasons(s0, steps, sid, s.manager.tunnels[sid].key);
    RunKeepsInv(s0, steps);
    if M.IsOpen(s.manager, sid) && !ActiveAt(s.manager, sid) {
      assert SomeoneReplacing(s, sid);
    }
  }

  // ---------------------------------------------------------------- a whole handshake

  /** Where the handler of a desktop's connection can be. */
  predicate Shakes(s: Sys, tid: nat, sid: SessionId, device: D.DeviceKey) {
    && tid in s.threads
    && match s.threads[tid]
       case Registering(x, t) => x == sid && t.key == M.DesktopKey(device)
       case ClosingReplaced(x, key, _) => x == sid && key == M.DesktopKey(device) && KeyIs(s.manager, sid, key)
       case Rechecking(x, d) => x == sid && d == device && KeyIs(s.manager, sid, M.DesktopKey(device))
       case Rejecting(x, d) => x == sid && d == device && KeyIs(s.manager, sid, M.DesktopKey(device))
       case Serving(x) => x == sid && KeyIs(s.manager, sid, M.DesktopKey(device))
       case Finished => KeyIs(s.manager, sid, M.DesktopKey(device)) && !M.IsOpen(s.manager, sid)
       case _ => false
  }

  lemma AdvanceShakes(s: Sys, tid: nat, now: int, dbFails: bool, sid: SessionId, device: D.DeviceKey)
    requires Shakes(s, tid, sid, device)
    ensures Shakes(AdvanceThread(s, tid, now, dbFails), tid, sid, device)
  {
  }

  lemma StepShakes(s: Sys, step: Step, tid: nat, sid: SessionId, device: D.DeviceKey)
    requires IdsFresh(s) && Shakes(s, tid, sid, device)
    ensures Shakes(Next(s, step), tid, sid, device)
  {
    if step.Advance? && step.tid == tid {
      AdvanceShakes(s, tid, step.now, step.dbFails, sid, device);
    } else {
      StepMovesNoOther(s, step, tid);
      StepDelta(s, step);
    }
  }

  predicate Opens(s: Sys, step: Step) {
    step.OpenDesktop? && step.tid !in s.threads && step.sid !in s.issued && D.IsActive(s.table, step.device)
  }

  lemma {:induction false} RunShakes(s0: Sys, steps: seq<Step>, i: nat, open: Step)
    requires Initial(s0) && i < |steps| && steps[i] == open && Opens(Run(s0, steps[..i]), open)
    ensures Shakes(Run(s0, steps), open.tid, open.sid, open.device)
  {
    var n := |steps| - 1;
    if i < n {
      assert steps[..n][..i] == steps[..i];
      RunShakes(s0, steps[..n], i, open);
      assert IdsFresh(Run(s0, steps[..n])) by { RunKeepsInv(s0, steps[..n]); }
      StepShakes(Run(s0, steps[..n]), steps[n], open.tid, open.sid, open.device);
    }
  }

  /** A desktop of an active device that connects at step `i`, and whose handler has come to rest: unless
      there is a reason to close it, the handler serves it and it is the live tunnel of its key. */
  lemma UndisturbedDesktopStaysLive(s0: Sys, steps: seq<Step>, i: nat)
    requires Initial(s0) && i < |steps| && Opens(Run(s0, steps[..i]), steps[i])
    requires var threads, tid := Run(s0, steps).threads, steps[i].tid;
             tid in threads ==> threads[tid].Serving? || threads[tid].Finished?
    ensures var s, sid, key := Run(s0, steps), steps[i].sid, M.DesktopKey(steps[i].device);
            || HasReason(s0, steps, sid, key)
            || (M.Live(s.manager, key) == Some(sid) && Get(s.threads, steps[i].tid) == Some(Serving(sid)))
  {
    RunShakes(s0, steps, i, steps[i]);
    EveryCloseHasAReason(s0, steps, steps[i].sid);
  }

  /** And three more steps of its handler bring it there: whatever the state, they serve the new tunnel
      under its key with the credential it brought, and close the tunnel it replaced, if any. */
  lemma HandshakeGoesLive(s0: Sys, steps: seq<Step>, open: Step, now: int)
    requires Initial(s0) && Opens(Run(s0, steps), open)
    ensures var s, goOn := Run(s0, steps), Advance(open.tid, now, false);
            var s', key := Next(Next(Next(Next(s, open), goOn), goOn), goOn), M.DesktopKey(open.device);
            && s'.threads[open.tid] == Serving(open.sid)
            && M.Live(s'.manager, key) == Some(open.sid) && s'.manager.tunnels[open.sid].credential == open.opening
            && (key in s.manager.active ==> !M.IsOpen(s'.manager, s.manager.active[key]))
            && s'.table == s.table
  {
    RunKeepsInv(s0, steps);
    var s, goOn := Run(s0, steps), Advance(open.tid, now, false);
    var device, sid, key := open.device, open.sid, M.DesktopKey(open.device);
    var t := M.Tunnel(key, device.owner, device.deviceId, true, open.opening, map[]);
    var joining := Next(s, open);
    assert joining.manager == s.manager && joining.threads[open.tid] == Registering(sid, t);
    var registered := Next(joining, goOn);
    assert registered.manager == M.Register(s.manager, sid, t) && registered.table == s.table;
    assert registered.threads[open.tid] == ClosingReplaced(sid, key, Get(s.manager.active, key));
    var closed := Next(registered, goOn);
    assert closed.threads[open.tid] == Rechecking(sid, device) && closed.table == s.table;
    RegisteredIsLive(s.manager, sid, t);
  }

  /** Registering a tunnel and closing the one it replaced. */
  lemma RegisteredIsLive(m: M.State, sid: SessionId, t: M.Tunnel)
    requires M.Inverses(m) && sid !in m.tunnels && t.open
    ensures var m', replaced := M.Register(m, sid, t), Get(m.active, t.key);
            var m'' := if replaced.Some? then M.Shut(m', replaced.value) else m';
            && M.Live(m'', t.key) == Some(sid) && m''.tunnels[sid] == t
            && (replaced.Some? ==> !M.IsOpen(m'', replaced.value))
  {
  }

  /** A revocation that nobody interrupts leaves the device revoked at its own time and without a live
      tunnel; the rows and the live tunnels of all others are as before. */
  lemma RevocationTakesEffect(s0: Sys, steps: seq<Step>, tid: nat, device: D.DeviceKey, now: int)
    requires Initial(s0) && tid !in Run(s0, steps).threads && D.IsActive(Run(s0, steps).table, device)
    ensures var s, goOn := Run(s0, steps), Advance(tid, now, false);
            var s' := Next(Next(Next(Next(Next(s, StartRevoke(tid, device)), goOn), goOn), goOn), goOn);
            && s'.threads[tid].Finished?
            && device in s'.table.devices && s'.table.devices[device].revokedAt == Some(now)
            && M.Live(s'.manager, M.DesktopKey(device)) == None
            && (forall d :: d != device ==> Get(s'.table.devices, d) == Get(s.table.devices, d))
            && (forall key :: key != M.DesktopKey(device) ==> M.Live(s'.manager, key) == M.Live(s.manager, key))
  {
    var s, goOn := Run(s0, steps), Advance(tid, now, false);
    assert M.Inverses(s.manager) by { RunKeepsInv(s0, steps); }
    var live := M.Live(s.manager, M.DesktopKey(device));
    var written := Next(Next(s, StartRevoke(tid, device)), goOn);
    assert written.manager == s.manager && written.threads[tid] == RevokeFinding(device);
    assert device in written.table.devices && written.table.devices[device].revokedAt == Some(now);
    assert forall d :: d != device ==> Get(written.table.devices, d) == Get(s.table.devices, d);
    FindingCloses(written, tid, device, now);
  }

  lemma FindingCloses(s: Sys, tid: nat, device: D.DeviceKey, now: int)
    requires M.Inverses(s.manager) && Get(s.threads, tid) == Some(RevokeFinding(device))
    ensures var goOn := Advance(tid, now, false);
            var s' := Next(Next(Next(s, goOn), goOn), goOn);
            && s'.threads[tid].Finished? && s'.table == s.table
            && M.Live(s'.manager, M.DesktopKey(device)) == None
            && (forall key :: key != M.DesktopKey(device) ==> M.Live(s'.manager, key) == M.Live(s.manager, key))
  {
    var goOn, live := Advance(tid, now, false), M.Live(s.manager, M.DesktopKey(device));
    if live.Some? {
      M.CloseTargetIsTheSessionNamed(s.manager, live.value);
      assert Next(Next(s, goOn), goOn) == Put(s, tid, CloseKill(live.value));
      LiveShut(s.manager, M.DesktopKey(device));
    }
  }

  lemma LiveShut(m: M.State, key: M.ConnectionKey)
    requires M.Inverses(m) && M.Live(m, key).Some?
    ensures var m' := M.Shut(m, M.Live(m, key).value);
            M.Live(m', key) == None && forall k :: k != key ==> M.Live(m', k) == M.Live(m, k)
  {
  }

  /** A refresh that nobody interrupts and whose credential is acceptable puts that credential in place. */
  lemma RefreshTakesEffect(
    s0: Sys, steps: seq<Step>, tid: nat, device: D.DeviceKey, sid: SessionId, c: M.Credential, now: int, later: int)
    requires Initial(s0) && tid !in Run(s0, steps).threads && D.IsActive(Run(s0, steps).table, device)
    requires var key := M.DesktopKey(device);
             M.AcceptsCredential(Run(s0, steps).manager, key, device.owner, device.deviceId, sid, c, now)
    ensures var s, goOn, key := Run(s0, steps), Advance(tid, now, false), M.DesktopKey(device);
            var s' := Next(Next(Next(s, StartRefresh(tid, device, sid, c)), goOn), goOn);
            && s'.threads[tid].Finished? && s'.table == s.table
            && M.Live(s'.manager, key) == Some(sid)
            && M.CredentialFor(s'.manager, key, device.owner, device.deviceId, later)
               == (if later < c.expiresAt then Some(c) else None)
  {
    var s, goOn := Run(s0, steps), Advance(tid, now, false);
    var updated := Next(Next(s, StartRefresh(tid, device, sid, c)), goOn);
    assert updated.threads[tid] == RefreshRechecking(device, sid);
  }

  /** After a disconnect the next step of the handler that serves the session takes it out of both maps,
      and no live tunnel but its own is touched. */
  lemma DisconnectClears(s0: Sys, steps: seq<Step>, tid: nat, sid: SessionId, now: int)
    requires Initial(s0) && Get(Run(s0, steps).threads, tid) == Some(Serving(sid))
    ensures var s := Run(s0, steps);
            var s' := Next(Next(s, Disconnect(sid)), Advance(tid, now, false));
            && s'.threads[tid].Finished? && sid !in s'.manager.keyBySession
            && (forall key :: key in s'.manager.active ==> s'.manager.active[key] != sid)
            && (forall key :: M.Live(s.manager, key) != Some(sid) ==> M.Live(s'.manager, key) == M.Live(s.manager, key))
  {
    assert M.Inverses(Run(s0, steps).manager) by { RunKeepsInv(s0, steps); }
    ShutAndCleared(Run(s0, steps).manager, sid);
  }

  lemma ShutAndCleared(m: M.State, sid: SessionId)
    requires M.Inverses(m)
    ensures var m' := M.Clear(M.Shut(m, sid), sid);
            && sid !in m'.keyBySession && (forall key :: key in m'.active ==> m'.active[key] != sid)
            && (forall key :: M.Live(m, key) != Some(sid) ==> M.Live(m', key) == M.Live(m, key))
  {
  }
}
