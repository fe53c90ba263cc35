/** Handshakes, revocations, replacements, disconnects and credential refreshes in any interleaving.

    No lock spans the database and the Manager, so each handler is a thread with a program
    counter and each SQL statement or lock region is one step. */
module TunnelLifecycle {
  import opened Prelude
  import opened DeviceRegistry
  import M = TunnelManager

  type SessionId = M.SessionId

  datatype Thread =
    // HandleTunnel and serveTunnelSession
    | Registering(sid: SessionId, tunnel: M.Tunnel)
    | ClosingReplaced(sid: SessionId, key: M.ConnectionKey, replaced: Option<SessionId>)
    | Rechecking(sid: SessionId, device: DeviceKey)
    | Rejecting(sid: SessionId, device: DeviceKey)
    | Serving(sid: SessionId)
    // revokeAccountDesktop
    | RevokeWriting(device: DeviceKey)
    | RevokeFinding(device: DeviceKey)
    // the credential branch of handleRegister
    | RefreshUpdating(device: DeviceKey, sid: SessionId, credential: M.Credential)
    | RefreshRechecking(device: DeviceKey, sid: SessionId)
    // CloseSession, called by the two above: first the locked lookup, then the close
    | CloseLookup(sid: SessionId)
    | CloseKill(sid: SessionId)
    | Finished

  /** `issued` are the session ids given out so far. */
  datatype Sys = Sys(table: Table, manager: M.State, threads: map<nat, Thread>, issued: set<SessionId>)

  datatype Step =
    | OpenDesktop(tid: nat, device: DeviceKey, sid: SessionId, opening: Option<M.Credential>)
    | OpenAgent(tid: nat, tokenId: string, sid: SessionId)
    | StartRevoke(tid: nat, device: DeviceKey)
    | StartRefresh(tid: nat, device: DeviceKey, sid: SessionId, credential: M.Credential)
    | Advance(tid: nat, now: int, dbFails: bool)
    | Disconnect(sid: SessionId)
    | ManagerOp(op: M.Op)
    | Refresh(input: Input)
    | Insert(input: Input)
    | Rename(device: DeviceKey, name: string)

  function Put(s: Sys, tid: nat, t: Thread): Sys {
    s.(threads := s.threads[tid := t])
  }

  /** One step of one handler. A database error while rechecking counts as inactive. */
  function AdvanceThread(s: Sys, tid: nat, now: int, dbFails: bool): Sys
    requires tid in s.threads
  {
    var m := s.manager;
    match s.threads[tid]
    case Registering(sid, t) =>
      Put(s.(manager := M.Register(m, sid, t)), tid, ClosingReplaced(sid, t.key, Get(m.active, t.key)))
    case ClosingReplaced(sid, key, replaced) =>
      var m' := if replaced.Some? then M.Shut(m, replaced.value) else m;
      Put(s.(manager := m'), tid, if key.DesktopKey? then Rechecking(sid, key.device) else Serving(sid))
    case Rechecking(sid, device) =>
      Put(s, tid, if dbFails || !IsActive(s.table, device) then Rejecting(sid, device) else Serving(sid))
    case Rejecting(sid, _) =>
      Put(s.(manager := M.Shut(m, sid)), tid, Serving(sid))
    case Serving(sid) =>
      if M.IsOpen(m, sid) then s else Put(s.(manager := M.Clear(m, sid)), tid, Finished)
    case RevokeWriting(device) =>
      var t := RevokeRow(s.table, device, now);
      if dbFails || t.None? then Put(s, tid, Finished)
      else Put(s.(table := t.value), tid, RevokeFinding(device))
    case RevokeFinding(device) =>
      var live := M.Live(m, M.DesktopKey(device));
      Put(s, tid, if live.Some? then CloseLookup(live.value) else Finished)
    case RefreshUpdating(device, sid, c) =>
      var key := M.DesktopKey(device);
      if M.AcceptsCredential(m, key, device.owner, device.deviceId, sid, c, now)
      then Put(s.(manager := M.UpdateCredential(m, key, device.owner, device.deviceId, sid, c, now)),
               tid, RefreshRechecking(device, sid))
      else Put(s, tid, Finished)
    case RefreshRechecking(device, sid) =>
      Put(s, tid, if dbFails || !IsActive(s.table, device) then CloseLookup(sid) else Finished)
    case CloseLookup(sid) =>
      var target := M.CloseTarget(m, sid);
      Put(s, tid, if target.Some? then CloseKill(target.value) else Finished)
    case CloseKill(sid) =>
      Put(s.(manager := M.Shut(m, sid)), tid, Finished)
    case Finished => s
  }

  function Next(s: Sys, step: Step): Sys {
    match step
    case OpenDesktop(tid, device, sid, credential) =>
      if tid in s.threads || sid in s.issued || !IsActive(s.table, device) then s else
      var t := M.Tunnel(M.DesktopKey(device), device.owner, device.deviceId, true, credential, map[]);
      Put(s.(issued := s.issued + {sid}), tid, Registering(sid, t))
    case OpenAgent(tid, tokenId, sid) =>
      if tid in s.threads || sid in s.issued then s else
      var t := M.Tunnel(M.AgentKey(tokenId), "", "", true, None, map[]);
      Put(s.(issued := s.issued + {sid}), tid, Registering(sid, t))
    case StartRevoke(tid, device) =>
      if tid in s.threads || !IsActive(s.table, device) then s else Put(s, tid, RevokeWriting(device))
    case StartRefresh(tid, device, sid, c) =>
      if tid in s.threads || !IsActive(s.table, device) then s else Put(s, tid, RefreshUpdating(device, sid, c))
    case Advance(tid, now, dbFails) =>
      if tid in s.threads then AdvanceThread(s, tid, now, dbFails) else s
    case Disconnect(sid) => s.(manager := M.Shut(s.manager, sid))
    case ManagerOp(op) => if op.OpCookie? || op.OpRevokeCookie? then s.(manager := M.Apply(s.manager, op)) else s
    case Refresh(input) => s.(table := LockAndRefresh(s.table, input).0)
    case Insert(input) => s.(table := InsertNew(s.table, input).0)
    case Rename(device, name) => s.(table := RenameRow(s.table, device, name).GetOr(s.table))
  }

  function Run(s: Sys, steps: seq<Step>): Sys {
    if steps == [] then s else Next(Run(s, steps[..|steps| - 1]), steps[|steps| - 1])
  }

  // ---------------------------------------------------------------- the invariant

  /** The thread must still close `sid`, or look it up and close it, if `device` stays revoked. */
  predicate Owes(t: Thread, sid: SessionId, device: DeviceKey) {
    match t
    case ClosingReplaced(s, key, _) => s == sid && key == M.DesktopKey(device)
    case Rechecking(s, d) => s == sid && d == device
    case Rejecting(s, d) => s == sid && d == device
    case RevokeFinding(d) => d == device
    case CloseLookup(s) => s == sid
    case CloseKill(s) => s == sid
    case _ => false
  }

  ghost predicate SomeoneOwes(s: Sys, sid: SessionId, device: DeviceKey) {
    exists tid :: tid in s.threads && Owes(s.threads[tid], sid, device)
  }

  ghost predicate SomeoneReplacing(s: Sys, sid: SessionId) {
    exists tid :: tid in s.threads && s.threads[tid].ClosingReplaced? && s.threads[tid].replaced == Some(sid)
  }

  /** Ids of unregistered tunnels are unused and held once. */
  ghost predicate IdsFresh(s: Sys) {
    && s.manager.tunnels.Keys <= s.issued
    && (forall tid :: tid in s.threads && s.threads[tid].Registering? ==>
          s.threads[tid].sid in s.issued && s.threads[tid].sid !in s.manager.tunnels &&
          s.threads[tid].tunnel.open && s.threads[tid].tunnel.cookies == map[])
    && (forall i, j :: i in s.threads && j in s.threads && s.threads[i].Registering? && s.threads[j].Registering? ==>
          (s.threads[i].sid == s.threads[j].sid ==> i == j))
  }

  predicate ActiveAt(m: M.State, sid: SessionId)
    requires sid in m.tunnels
  {
    m.tunnels[sid].key in m.active && m.active[m.tunnels[sid].key] == sid
  }

  /** An open tunnel is the active one of its key unless its replacer is about to close it. */
  ghost predicate OpenIsActive(s: Sys) {
    forall sid :: M.IsOpen(s.manager, sid) ==>
      ActiveAt(s.manager, sid) ||
      SomeoneReplacing(s, sid)
  }

  /** An open active tunnel of a device that is not active has someone owing its close. */
  ghost predicate RevokedIsOwed(s: Sys) {
    forall device :: M.Live(s.manager, M.DesktopKey(device)).Some? && !IsActive(s.table, device) ==>
      SomeoneOwes(s, M.Live(s.manager, M.DesktopKey(device)).value, device)
  }

  ghost predicate Inv(s: Sys) {
    && M.Valid(s.manager) && IdsFresh(s) && OpenIsActive(s) && RevokedIsOwed(s)
  }

  ghost predicate Initial(s: Sys) {
    s.manager == M.EMPTY && s.threads == map[] && s.issued == {}
  }

  /** What a step does to the Manager is nothing or one enabled Manager operation. */
  function ManagerStep(s: Sys, step: Step): Option<M.Op> {
    match step
    case Disconnect(sid) => Some(M.OpShut(sid))
    case ManagerOp(op) => if op.OpCookie? || op.OpRevokeCookie? then Some(op) else None
    case Advance(tid, now, _) =>
      if tid !in s.threads then None else
      (match s.threads[tid]
       case Registering(sid, t) => Some(M.OpRegister(sid, t))
       case ClosingReplaced(_, _, replaced) => if replaced.Some? then Some(M.OpShut(replaced.value)) else None
       case Rejecting(sid, _) => Some(M.OpShut(sid))
       case Serving(sid) => if M.IsOpen(s.manager, sid) then None else Some(M.OpClear(sid))
       case RefreshUpdating(d, sid, c) => Some(M.OpCredential(M.DesktopKey(d), d.owner, d.deviceId, sid, c, now))
       case CloseKill(sid) => Some(M.OpShut(sid))
       case _ => None)
    case _ => None
  }

  /** Every fact about Manager runs holds of the Manager inside this system. */
  lemma StepsAreManagerOps(s: Sys, step: Step)
    requires IdsFresh(s)
    ensures var op := ManagerStep(s, step);
            && (op.None? ==> Next(s, step).manager == s.manager)
            && (op.Some? ==> M.Enabled(s.manager, op.value) && Next(s, step).manager == M.Apply(s.manager, op.value))
  {
  }

  lemma StepKeepsValid(s: Sys, step: Step)
    requires IdsFresh(s) && M.Valid(s.manager)
    ensures M.Valid(Next(s, step).manager)
  {
    StepsAreManagerOps(s, step);
    var op := ManagerStep(s, step);
    if op.Some? {
      M.ApplyKeepsInverses(s.manager, op.value);
      forall sid | sid in M.Apply(s.manager, op.value).tunnels
        ensures M.CookiesBounded(M.Apply(s.manager, op.value).tunnels[sid])
      {
        M.ApplyKeepsCookies(s.manager, op.value, sid);
      }
    }
  }

  /** What one Manager operation can change, without saying how. */
  ghost predicate Delta(m: M.State, m': M.State, op: Option<M.Op>) {
    && m'.tunnels.Keys == m.tunnels.Keys + (if op.Some? && op.value.OpRegister? then {op.value.sid} else {})
    && (forall sid :: sid in m.tunnels ==>
          m'.tunnels[sid].key == m.tunnels[sid].key && (m'.tunnels[sid].open ==> m.tunnels[sid].open))
    && (op.Some? && op.value.OpShut? ==> !M.IsOpen(m', op.value.sid))
    && (forall key :: key in m'.active ==>
          (op.Some? && op.value.OpRegister? && op.value.tunnel.key == key && m'.active[key] == op.value.sid) ||
          (key in m.active && m'.active[key] == m.active[key]))
    && (op.Some? && op.value.OpRegister? ==>
          op.value.sid !in m.tunnels && m'.tunnels[op.value.sid] == op.value.tunnel &&
          op.value.tunnel.key in m'.active && m'.active[op.value.tunnel.key] == op.value.sid)
    && (forall key :: key in m.active && key !in m'.active ==>
          op.Some? && op.value.OpClear? && op.value.sid == m.active[key])
  }

  lemma StepDelta(s: Sys, step: Step)
    requires IdsFresh(s)
    ensures Delta(s.manager, Next(s, step).manager, ManagerStep(s, step))
  {
    StepsAreManagerOps(s, step);
    var op := ManagerStep(s, step);
    if op.Some? { OpDelta(s.manager, op.value); }
  }

  lemma OpDelta(m: M.State, op: M.Op)
    requires M.Enabled(m, op)
    ensures Delta(m, M.Apply(m, op), Some(op))
  {
  }

  /** The thread a step starts or moves. */
  function Mover(step: Step): Option<nat> {
    if step.OpenDesktop? || step.OpenAgent? || step.StartRevoke? || step.StartRefresh? || step.Advance?
    then Some(step.tid) else None
  }

  /** A new handshake takes an id no one was given; a registering one becomes a replacer. */
  lemma StepRegistering(s: Sys, step: Step, tid: nat)
    requires IdsFresh(s)
    requires tid in Next(s, step).threads && Next(s, step).threads[tid].Registering?
    ensures var t := Next(s, step).threads[tid];
            || (tid in s.threads && s.threads[tid] == t && ManagerStep(s, step) != Some(M.OpRegister(t.sid, t.tunnel)))
            || (Mover(step) == Some(tid) && t.sid !in s.issued && t.sid in Next(s, step).issued
                && t.tunnel.open && t.tunnel.cookies == map[]
                && ManagerStep(s, step) == None)
  {
  }

  lemma StepIssued(s: Sys, step: Step)
    ensures s.issued <= Next(s, step).issued
    ensures ManagerStep(s, step).Some? && ManagerStep(s, step).value.OpRegister? ==>
              step.Advance? && step.tid in s.threads && Next(s, step).threads[step.tid].ClosingReplaced? &&
              s.threads[step.tid] == Registering(ManagerStep(s, step).value.sid, ManagerStep(s, step).value.tunnel)
  {
  }

  lemma StepKeepsIdsFresh(s: Sys, step: Step)
    requires IdsFresh(s)
    ensures IdsFresh(Next(s, step))
  {
    var s' := Next(s, step);
    StepDelta(s, step);
    StepIssued(s, step);
    IdsFreshCore(s, s', step);
  }

  lemma IdsFreshCore(s: Sys, s': Sys, step: Step)
    requires IdsFresh(s) && s' == Next(s, step)
    requires Delta(s.manager, s'.manager, ManagerStep(s, step))
    requires s.issued <= s'.issued
    requires ManagerStep(s, step).Some? && ManagerStep(s, step).value.OpRegister? ==>
               step.Advance? && step.tid in s.threads && s'.threads[step.tid].ClosingReplaced? &&
               s.threads[step.tid] == Registering(ManagerStep(s, step).value.sid, ManagerStep(s, step).value.tunnel)
    ensures IdsFresh(s')
  {
    forall tid | tid in s'.threads && s'.threads[tid].Registering?
      ensures s'.threads[tid].sid in s'.issued && s'.threads[tid].sid !in s'.manager.tunnels
      ensures s'.threads[tid].tunnel.open && s'.threads[tid].tunnel.cookies == map[]
    {
      StepRegistering(s, step, tid);
    }
    forall i, j | i in s'.threads && j in s'.threads && s'.threads[i].Registering? && s'.threads[j].Registering?
      ensures s'.threads[i].sid == s'.threads[j].sid ==> i == j
    {
      StepRegistering(s, step, i);
      StepRegistering(s, step, j);
    }
  }

  lemma StepReplacing(s: Sys, step: Step, tid: nat)
    requires IdsFresh(s) && tid in s.threads && s.threads[tid].ClosingReplaced? && s.threads[tid].replaced.Some?
    ensures tid in Next(s, step).threads
    ensures Next(s, step).threads[tid] == s.threads[tid] ||
            ManagerStep(s, step) == Some(M.OpShut(s.threads[tid].replaced.value))
  {
  }

  lemma StepRegisters(s: Sys, step: Step)
    ensures var op := ManagerStep(s, step);
            && (op.Some? && op.value.OpRegister? ==>
                  step.Advance? && step.tid in Next(s, step).threads &&
                  Next(s, step).threads[step.tid] ==
                    ClosingReplaced(op.value.sid, op.value.tunnel.key, Get(s.manager.active, op.value.tunnel.key)))
            && (op.Some? && op.value.OpClear? ==> !M.IsOpen(s.manager, op.value.sid))
  {
  }

  lemma StepKeepsOpenIsActive(s: Sys, step: Step)
    requires IdsFresh(s) && OpenIsActive(s)
    ensures OpenIsActive(Next(s, step))
  {
    var s' := Next(s, step);
    StepDelta(s, step);
    StepRegisters(s, step);
    forall sid | M.IsOpen(s'.manager, sid)
      ensures ActiveAt(s'.manager, sid) ||
              SomeoneReplacing(s', sid)
    {
      OpenStaysActive(s, s', step, sid);
    }
  }

  lemma OpenStaysActive(s: Sys, s': Sys, step: Step, sid: SessionId)
    requires IdsFresh(s) && OpenIsActive(s) && M.IsOpen(s'.manager, sid) && s' == Next(s, step)
    requires Delta(s.manager, s'.manager, ManagerStep(s, step))
    requires var op := ManagerStep(s, step);
            && (op.Some? && op.value.OpRegister? ==>
                  step.Advance? && step.tid in s'.threads &&
                  s'.threads[step.tid] ==
                    ClosingReplaced(op.value.sid, op.value.tunnel.key, Get(s.manager.active, op.value.tunnel.key)))
            && (op.Some? && op.value.OpClear? ==> !M.IsOpen(s.manager, op.value.sid))
    ensures ActiveAt(s'.manager, sid) ||
            SomeoneReplacing(s', sid)
  {
    if sid in s.manager.tunnels {
      assert M.IsOpen(s.manager, sid);
      if SomeoneReplacing(s, sid) {
        var tid :| tid in s.threads && s.threads[tid].ClosingReplaced? && s.threads[tid].replaced == Some(sid);
        StepReplacing(s, step, tid);
        assert s'.threads[tid].replaced == Some(sid);
      } else {
        var op := ManagerStep(s, step);
        if op.Some? && op.value.OpRegister? && op.value.tunnel.key == s.manager.tunnels[sid].key {
          assert s'.threads[step.tid].replaced == Some(sid);
        }
      }
    }
  }

  /** Only a revocation makes a device inactive, and then its revoker has still to look. */
  lemma StepRevokes(s: Sys, step: Step, device: DeviceKey)
    requires IsActive(s.table, device) && !IsActive(Next(s, step).table, device)
    ensures step.Advance? && step.tid in Next(s, step).threads
    ensures Next(s, step).threads[step.tid] == RevokeFinding(device)
  {
  }

  lemma StepMovesNoOther(s: Sys, step: Step, tid: nat)
    requires tid in s.threads && !(step.Advance? && step.tid == tid)
    ensures tid in Next(s, step).threads && Next(s, step).threads[tid] == s.threads[tid]
  {
  }

  lemma AdvanceKeepsOwing(s: Sys, tid: nat, now: int, dbFails: bool, sid: SessionId, device: DeviceKey)
    requires M.Inverses(s.manager)
    requires tid in s.threads && Owes(s.threads[tid], sid, device)
    requires M.Live(s.manager, M.DesktopKey(device)) == Some(sid)
    requires M.IsOpen(AdvanceThread(s, tid, now, dbFails).manager, sid)
    requires !IsActive(s.table, device)
    ensures tid in AdvanceThread(s, tid, now, dbFails).threads
    ensures Owes(AdvanceThread(s, tid, now, dbFails).threads[tid], sid, device)
  {
    M.CloseTargetIsTheSessionNamed(s.manager, sid);
  }

  /** A thread that owes a close of `sid` still owes it after a step, unless the step closed `sid`
      or found the device active. */
  lemma StepKeepsOwing(s: Sys, step: Step, tid: nat, sid: SessionId, device: DeviceKey)
    requires M.Inverses(s.manager)
    requires tid in s.threads && Owes(s.threads[tid], sid, device)
    requires M.Live(s.manager, M.DesktopKey(device)) == Some(sid)
    requires M.IsOpen(Next(s, step).manager, sid)
    requires !IsActive(s.table, device)
    ensures tid in Next(s, step).threads && Owes(Next(s, step).threads[tid], sid, device)
  {
    if step.Advance? && step.tid == tid {
      AdvanceKeepsOwing(s, tid, step.now, step.dbFails, sid, device);
    } else {
      StepMovesNoOther(s, step, tid);
    }
  }

  lemma StepKeepsRevokedIsOwed(s: Sys, step: Step)
    requires IdsFresh(s) && M.Valid(s.manager) && RevokedIsOwed(s)
    ensures RevokedIsOwed(Next(s, step))
  {
    var s' := Next(s, step);
    StepDelta(s, step);
    StepRegisters(s, step);
    forall device | M.Live(s'.manager, M.DesktopKey(device)).Some? && !IsActive(s'.table, device)
      ensures SomeoneOwes(s', M.Live(s'.manager, M.DesktopKey(device)).value, device)
    {
      RevokedStaysOwed(s, s', step, device);
    }
  }

  lemma RevokedStaysOwed(s: Sys, s': Sys, step: Step, device: DeviceKey)
    requires IdsFresh(s) && M.Valid(s.manager) && RevokedIsOwed(s) && s' == Next(s, step)
    requires Delta(s.manager, s'.manager, ManagerStep(s, step))
    requires var op := ManagerStep(s, step);
             op.Some? && op.value.OpRegister? ==>
                  step.Advance? && step.tid in s'.threads &&
                  s'.threads[step.tid] ==
                    ClosingReplaced(op.value.sid, op.value.tunnel.key, Get(s.manager.active, op.value.tunnel.key))
    requires M.Live(s'.manager, M.DesktopKey(device)).Some? && !IsActive(s'.table, device)
    ensures SomeoneOwes(s', M.Live(s'.manager, M.DesktopKey(device)).value, device)
  {
    var key := M.DesktopKey(device);
    var sid := M.Live(s'.manager, key).value;
    var op := ManagerStep(s, step);
    if op.Some? && op.value.OpRegister? && op.value.tunnel.key == key {
      assert Owes(s'.threads[step.tid], sid, device);
    } else {
      assert M.Live(s.manager, key) == Some(sid);
      if IsActive(s.table, device) {
        StepRevokes(s, step, device);
        assert Owes(s'.threads[step.tid], sid, device);
      } else {
        var tid :| tid in s.threads && Owes(s.threads[tid], sid, device);
        StepKeepsOwing(s, step, tid, sid, device);
      }
    }
  }

  lemma {:induction false} RunKeepsInv(s: Sys, steps: seq<Step>)
    requires Inv(s)
    ensures Inv(Run(s, steps))
  {
    if steps != [] {
      var n := |steps| - 1;
      RunKeepsInv(s, steps[..n]);
      var m := Run(s, steps[..n]);
      StepKeepsValid(m, steps[n]);
      StepKeepsIdsFresh(m, steps[n]);
      StepKeepsOpenIsActive(m, steps[n]);
      StepKeepsRevokedIsOwed(m, steps[n]);
    }
  }

  // ---------------------------------------------------------------- the main results

  /** No handler is between two of its steps: each has finished or waits for its tunnel to close. */
  predicate Quiescent(s: Sys) {
    forall tid :: tid in s.threads ==> s.threads[tid].Finished? || s.threads[tid].Serving?
  }

  /** At any moment, mid-flight or not, such a tunnel has a handshake that still owes its recheck
      or close, or a revocation or refresh that still owes a close of that very session. */
  lemma RevokedTunnelIsAlwaysOwed(s0: Sys, steps: seq<Step>, device: DeviceKey)
    requires Initial(s0)
    ensures var s := Run(s0, steps);
            M.Live(s.manager, M.DesktopKey(device)).Some? && !IsActive(s.table, device) ==>
              SomeoneOwes(s, M.Live(s.manager, M.DesktopKey(device)).value, device)
  {
    RunKeepsInv(s0, steps);
  }

  lemma NothingOwedAtRest(s: Sys, sid: SessionId, device: DeviceKey)
    requires Quiescent(s)
    ensures !SomeoneOwes(s, sid, device)
  {
  }

  /** At rest an open tunnel is the live one of its key, and its device, if it has one, is active. */
  lemma OpenAtRest(s: Sys, device: DeviceKey, sid: SessionId)
    requires Inv(s) && Quiescent(s)
    requires M.IsOpen(s.manager, sid) && s.manager.tunnels[sid].key == M.DesktopKey(device)
    ensures IsActive(s.table, device) && M.Live(s.manager, M.DesktopKey(device)) == Some(sid)
  {
    assert ActiveAt(s.manager, sid) || SomeoneReplacing(s, sid);
    NothingOwedAtRest(s, sid, device);
  }

  /** In every interleaving, once no handler is mid-flight no open tunnel ever registered belongs to
      a device that is revoked or unknown, and an open one is the live tunnel of its key. */
  lemma NoRevokedTunnelAtRest(s0: Sys, steps: seq<Step>, device: DeviceKey)
    requires Initial(s0)
    requires Quiescent(Run(s0, steps))
    ensures var s := Run(s0, steps);
            && (M.Live(s.manager, M.DesktopKey(device)).Some? ==> IsActive(s.table, device))
            && (forall sid :: M.IsOpen(s.manager, sid) && s.manager.tunnels[sid].key == M.DesktopKey(device) ==>
                  IsActive(s.table, device) && M.Live(s.manager, M.DesktopKey(device)) == Some(sid))
  {
    var s := Run(s0, steps);
    RunKeepsInv(s0, steps);
    forall sid | M.IsOpen(s.manager, sid) && s.manager.tunnels[sid].key == M.DesktopKey(device)
      ensures IsActive(s.table, device) && M.Live(s.manager, M.DesktopKey(device)) == Some(sid)
    {
      OpenAtRest(s, device, sid);
    }
    if M.Live(s.manager, M.DesktopKey(device)).Some? {
      OpenAtRest(s, device, M.Live(s.manager, M.DesktopKey(device)).value);
    }
  }

  /** Once every SetActive call has returned, each key has at most one open session among all
      sessions ever registered for it, and it is the active one. */
  lemma OneOpenSessionPerKey(s0: Sys, steps: seq<Step>, a: SessionId, b: SessionId)
    requires Initial(s0)
    requires forall tid :: tid in Run(s0, steps).threads ==> !Run(s0, steps).threads[tid].ClosingReplaced?
    requires M.IsOpen(Run(s0, steps).manager, a) && M.IsOpen(Run(s0, steps).manager, b)
    requires Run(s0, steps).manager.tunnels[a].key == Run(s0, steps).manager.tunnels[b].key
    ensures a == b && M.Live(Run(s0, steps).manager, Run(s0, steps).manager.tunnels[a].key) == Some(a)
  {
    RunKeepsInv(s0, steps);
  }

  /** Secrets inside the whole system: a cookie that resolves belongs to a tunnel whose current
      credential is unexpired, in every interleaving. */
  lemma CookieNeedsLiveCredential(
    s0: Sys, steps: seq<Step>, key: M.ConnectionKey, owner: string, cookie: string, now: int)
    requires Initial(s0)
    requires M.CookieFor(Run(s0, steps).manager, key, owner, cookie, now).Some?
    ensures var m := Run(s0, steps).manager;
            M.CredentialFor(m, key, owner, m.tunnels[M.Live(m, key).value].desktopId, now).Some?
  {
    RunKeepsInv(s0, steps);
  }
}
