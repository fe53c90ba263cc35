/** Desktop registrations: the `desktop_devices` table and the statements that change it.

    A registration is not one transaction when the device is unknown: two first
    registrations may both see no row, and the loser re-reads the winner's row.
    Threads below interleave at exactly those points. */
module DeviceRegistry {
  import opened Prelude

  /** The stored key is a digest of owner and device id; the digest is taken as injective. */
  datatype DeviceKey = DeviceKey(owner: string, deviceId: string)

  datatype Device = Device(name: string, publicHost: string, revokedAt: Option<int>)

  /** `routeHosts` are the hosts held by rows of the routes table. */
  datatype Table = Table(devices: map<DeviceKey, Device>, routeHosts: set<string>)

  datatype Input = Input(key: DeviceKey, name: string, host: string, sessionStartedAt: int)

  const MAX_NAME_LENGTH := 64
  const PUBLIC_HOST_RETRY_LIMIT := 8

  predicate IsActive(t: Table, k: DeviceKey) {
    k in t.devices && t.devices[k].revokedAt.None?
  }

  predicate HostHeld(t: Table, host: string) {
    exists k :: k in t.devices && t.devices[k].publicHost == host
  }

  predicate HostHeldByActive(t: Table, host: string) {
    exists k :: k in t.devices && t.devices[k].revokedAt.None? && t.devices[k].publicHost == host
  }

  datatype Outcome =
    | Registered(device: Device)
    | Refused
    | HostConflict
    | NoRow
    | DuplicateKey

  /** First half of a registration: lock the row and, when there is one, refresh it. */
  function LockAndRefresh(t: Table, input: Input): (Table, Outcome) {
    if input.key !in t.devices then
      (t, NoRow)
    else
      var d := t.devices[input.key];
      if d.revokedAt.Some? && input.sessionStartedAt <= d.revokedAt.value then
        (t, Refused)
      else
        var d' := d.(revokedAt := None, name := if d.name != "" then d.name else input.name);
        (t.(devices := t.devices[input.key := d']), Registered(d'))
  }

  /** Second half for an unknown device: the host check sees active rows only,
      the UNIQUE constraints see all of them. */
  function InsertNew(t: Table, input: Input): (Table, Outcome) {
    if input.host in t.routeHosts || HostHeldByActive(t, input.host) then
      (t, HostConflict)
    else if input.key in t.devices || HostHeld(t, input.host) then
      (t, DuplicateKey)
    else
      var d := Device(input.name, input.host, None);
      (t.(devices := t.devices[input.key := d]), Registered(d))
  }

  /** After a duplicate key the loser reads the winner's row, outside any transaction. */
  function Reread(t: Table, key: DeviceKey): Outcome {
    if IsActive(t, key) then Registered(t.devices[key]) else HostConflict
  }

  function RevokeRow(t: Table, key: DeviceKey, now: int): Option<Table> {
    if IsActive(t, key)
    then Some(t.(devices := t.devices[key := t.devices[key].(revokedAt := Some(now))]))
    else None
  }

  function RenameRow(t: Table, key: DeviceKey, name: string): Option<Table> {
    if name != "" && |name| <= MAX_NAME_LENGTH && IsActive(t, key)
    then Some(t.(devices := t.devices[key := t.devices[key].(name := name)]))
    else None
  }

  // ---------------------------------------------------------------- interleavings

  datatype Thread =
    | Locking(input: Input, attempt: nat)
    | Inserting(input: Input, attempt: nat)
    | Rereading(input: Input, attempt: nat)
    | Answered(key: DeviceKey, outcome: Outcome)

  datatype Sys = Sys(table: Table, threads: map<nat, Thread>)

  datatype Step =
    | Start(tid: nat, input: Input)
    | Advance(tid: nat, nextHost: string)
    | Rename(key: DeviceKey, name: string)
    | Revoke(key: DeviceKey, now: int)

  /** Where a thread goes after one attempt ended: conflicts are retried with a new host. */
  function AfterAttempt(input: Input, attempt: nat, outcome: Outcome, nextHost: string): Thread {
    if outcome == HostConflict && attempt + 1 < PUBLIC_HOST_RETRY_LIMIT
    then Locking(input.(host := nextHost), attempt + 1)
    else Answered(input.key, outcome)
  }

  function Next(s: Sys, step: Step): Sys {
    match step
    case Start(tid, input) =>
      if tid in s.threads then s else s.(threads := s.threads[tid := Locking(input, 0)])
    case Rename(key, name) =>
      s.(table := RenameRow(s.table, key, name).GetOr(s.table))
    case Revoke(key, now) =>
      s.(table := RevokeRow(s.table, key, now).GetOr(s.table))
    case Advance(tid, nextHost) =>
      if tid !in s.threads then s else
      match s.threads[tid]
      case Answered(_, _) => s
      case Locking(input, n) =>
        var (t, o) := LockAndRefresh(s.table, input);
        Sys(t, s.threads[tid := if o == NoRow then Inserting(input, n) else AfterAttempt(input, n, o, nextHost)])
      case Inserting(input, n) =>
        var (t, o) := InsertNew(s.table, input);
        Sys(t, s.threads[tid := if o == DuplicateKey then Rereading(input, n) else AfterAttempt(input, n, o, nextHost)])
      case Rereading(input, n) =>
        s.(threads := s.threads[tid := AfterAttempt(input, n, Reread(s.table, input.key), nextHost)])
  }

  function Run(s: Sys, steps: seq<Step>): Sys {
    if steps == [] then s else Next(Run(s, steps[..|steps| - 1]), steps[|steps| - 1])
  }

  /** The host column is UNIQUE. */
  ghost predicate HostsUnique(t: Table) {
    forall j, k :: j in t.devices && k in t.devices && t.devices[j].publicHost == t.devices[k].publicHost ==> j == k
  }

  ghost predicate Initial(s: Sys) {
    s.threads == map[] && HostsUnique(s.table)
  }

  lemma StepKeepsHostsUnique(s: Sys, step: Step)
    requires HostsUnique(s.table)
    ensures HostsUnique(Next(s, step).table)
  {
    var t' := Next(s, step).table;
    if step.Advance? && step.tid in s.threads && s.threads[step.tid].Inserting? {
      var input := s.threads[step.tid].input;
      if InsertNew(s.table, input).1.Registered? {
        forall k | k in s.table.devices ensures s.table.devices[k].publicHost != input.host {
          assert s.table.devices[k].publicHost == input.host ==> HostHeld(s.table, input.host);
        }
      }
    }
  }

  /** The step that can undo a revocation of `k` made at `r`. */
  predicate RestoresAfter(s: Sys, step: Step, k: DeviceKey, r: int) {
    step.Advance? && step.tid in s.threads && s.threads[step.tid].Locking? &&
    s.threads[step.tid].input.key == k && s.threads[step.tid].input.sessionStartedAt > r
  }

  lemma StepKeepsRevocation(s: Sys, step: Step, k: DeviceKey, r: int)
    requires k in s.table.devices && s.table.devices[k].revokedAt == Some(r)
    requires !RestoresAfter(s, step, k, r)
    ensures k in Next(s, step).table.devices && Next(s, step).table.devices[k].revokedAt == Some(r)
  {
  }

  predicate RestoredAt(s: Sys, steps: seq<Step>, i: nat, k: DeviceKey, r: int)
    requires i < |steps|
  {
    RestoresAfter(Run(s, steps[..i]), steps[i], k, r)
  }

  /** Over every run, a device revoked at `r` is active again only if some step in between
      was a registration of that device by a login that started strictly after `r`. */
  lemma {:induction false} RestorationNeedsLaterLogin(s: Sys, steps: seq<Step>, k: DeviceKey, r: int)
    requires k in s.table.devices && s.table.devices[k].revokedAt == Some(r)
    ensures (k in Run(s, steps).table.devices && Run(s, steps).table.devices[k].revokedAt == Some(r)) ||
            exists i: nat :: i < |steps| && RestoredAt(s, steps, i, k, r)
  {
    if steps != [] {
      var n := |steps| - 1;
      var prefix := steps[..n];
      RestorationNeedsLaterLogin(s, prefix, k, r);
      if i: nat :| i < |prefix| && RestoredAt(s, prefix, i, k, r) {
        assert prefix[..i] == steps[..i];
        assert RestoredAt(s, steps, i, k, r);
      } else if RestoresAfter(Run(s, prefix), steps[n], k, r) {
        assert RestoredAt(s, steps, n, k, r);
      } else {
        StepKeepsRevocation(Run(s, prefix), steps[n], k, r);
      }
    }
  }

  /** A registration step that does meet the guard restores the device: the condition is exact. */
  lemma LaterLoginRestores(s: Sys, step: Step, k: DeviceKey, r: int)
    requires k in s.table.devices && s.table.devices[k].revokedAt == Some(r)
    ensures RestoresAfter(s, step, k, r) <==> IsActive(Next(s, step).table, k)
  {
    if !RestoresAfter(s, step, k, r) { StepKeepsRevocation(s, step, k, r); }
  }

  predicate RenamesDevice(step: Step, k: DeviceKey) {
    step.Rename? && step.key == k
  }

  lemma StepKeepsIdentity(s: Sys, step: Step, k: DeviceKey)
    requires k in s.table.devices
    ensures var t' := Next(s, step).table;
            && k in t'.devices
            && t'.devices[k].publicHost == s.table.devices[k].publicHost
            && (s.table.devices[k].name != "" ==> t'.devices[k].name != "")
            && (s.table.devices[k].name != "" && !RenamesDevice(step, k) ==>
                  t'.devices[k].name == s.table.devices[k].name)
  {
  }

  /** Over every run: rows never disappear, keep their public host, keep hosts unique, and a
      non-empty name changes only by a rename. Lost inserts are included. */
  lemma {:induction false} RegistrationKeepsIdentity(s: Sys, steps: seq<Step>, k: DeviceKey)
    requires HostsUnique(s.table) && k in s.table.devices
    ensures var t' := Run(s, steps).table;
            && HostsUnique(t') && k in t'.devices
            && t'.devices[k].publicHost == s.table.devices[k].publicHost
            && (s.table.devices[k].name != "" ==> t'.devices[k].name != "")
            && (s.table.devices[k].name != "" && (forall step <- steps :: !RenamesDevice(step, k)) ==>
                  t'.devices[k].name == s.table.devices[k].name)
  {
    if steps != [] {
      var n := |steps| - 1;
      var prefix := steps[..n];
      RegistrationKeepsIdentity(s, prefix, k);
      var m := Run(s, prefix);
      StepKeepsHostsUnique(m, steps[n]);
      StepKeepsIdentity(m, steps[n], k);
      assert forall step :: step in prefix ==> step in steps;
      assert Run(s, steps) == Next(m, steps[n]);
    }
  }

  /** The device a thread was told it registered exists and keeps the host the thread was told. */
  ghost predicate ReportedDeviceExists(s: Sys) {
    forall tid :: tid in s.threads && s.threads[tid].Answered? && s.threads[tid].outcome.Registered? ==>
      var th := s.threads[tid];
      th.key in s.table.devices && s.table.devices[th.key].publicHost == th.outcome.device.publicHost
  }

  ghost predicate OutcomesSettled(s: Sys) {
    forall tid :: tid in s.threads && s.threads[tid].Answered? ==>
      !s.threads[tid].outcome.NoRow? && !s.threads[tid].outcome.DuplicateKey?
  }

  lemma StepKeepsReports(s: Sys, step: Step)
    requires ReportedDeviceExists(s) && OutcomesSettled(s)
    ensures ReportedDeviceExists(Next(s, step)) && OutcomesSettled(Next(s, step))
  {
    var s' := Next(s, step);
    forall tid | tid in s'.threads && s'.threads[tid].Answered? && s'.threads[tid].outcome.Registered?
      ensures s'.threads[tid].key in s'.table.devices
      ensures s'.table.devices[s'.threads[tid].key].publicHost == s'.threads[tid].outcome.device.publicHost
    {
      if step.Advance? && tid == step.tid && !s.threads[tid].Answered? { AnswerIsCurrent(s, step); }
    }
  }

  /** When a registration answers with a device, by any of its three paths (refreshed row, own
      insert, or the winner's row after a lost insert), that very row is active at that moment. */
  lemma AnswerIsCurrent(s: Sys, step: Step)
    requires step.Advance? && step.tid in s.threads && !s.threads[step.tid].Answered?
    ensures var s' := Next(s, step);
            var th := s'.threads[step.tid];
            th.Answered? && th.outcome.Registered? ==>
              IsActive(s'.table, th.key) && th.key == s.threads[step.tid].input.key &&
              s'.table.devices[th.key] == th.outcome.device
  {
    var th := s.threads[step.tid];
    match th
    case Locking(input, n) =>
      if input.key in s.table.devices { assert LockAndRefresh(s.table, input).1 != NoRow; }
    case Inserting(input, n) =>
    case Rereading(input, n) =>
  }

  /** Over every run from an idle system, every successful answer names a stored device,
      and no registration ends in an internal outcome. */
  lemma {:induction false} ReportsHoldOnEveryRun(s: Sys, steps: seq<Step>)
    requires Initial(s)
    ensures HostsUnique(Run(s, steps).table)
    ensures ReportedDeviceExists(Run(s, steps)) && OutcomesSettled(Run(s, steps))
  {
    if steps != [] {
      var n := |steps| - 1;
      ReportsHoldOnEveryRun(s, steps[..n]);
      StepKeepsHostsUnique(Run(s, steps[..n]), steps[n]);
      StepKeepsReports(Run(s, steps[..n]), steps[n]);
    }
  }

  // ---------------------------------------------------------------- what a step answers and stores

  /** The locking half on a known device: a login no later than the revocation is refused and changes
      nothing; any other is answered with the stored row, active from now on, with its host and with its
      own name if it has one. */
  lemma KnownDeviceIsAnswered(s: Sys, tid: nat, nextHost: string, other: DeviceKey)
    requires tid in s.threads && s.threads[tid].Locking? && s.threads[tid].input.key in s.table.devices
    ensures var input := s.threads[tid].input;
            var s', d := Next(s, Advance(tid, nextHost)), s.table.devices[input.key];
            && input.key in s'.table.devices
            && var d' := s'.table.devices[input.key];
            && (d.revokedAt.Some? && input.sessionStartedAt <= d.revokedAt.value ==>
                  s'.threads[tid] == Answered(input.key, Refused) && s'.table == s.table)
            && (d.revokedAt.Some? ==> input.sessionStartedAt > d.revokedAt.value ==>
                  s'.threads[tid] == Answered(input.key, Registered(d')) && d'.revokedAt == None)
            && (d.revokedAt.None? ==> s'.threads[tid] == Answered(input.key, Registered(d')) && d'.revokedAt == None)
            && d'.publicHost == d.publicHost
            && (s'.threads[tid].outcome.Registered? ==> d'.name == if d.name == "" then input.name else d.name)
            && (other != input.key ==> Get(s'.table.devices, other) == Get(s.table.devices, other))
  {
  }

  /** The inserting half on a device still unknown: it is registered under its name and host exactly if
      no route and no device holds the host. Otherwise nothing is stored; when only a revoked device holds
      the host the row is read again, else the next of eight attempts follows, if there is one left. */
  lemma UnknownDeviceIsInserted(s: Sys, tid: nat, nextHost: string, other: DeviceKey)
    requires tid in s.threads && s.threads[tid].Inserting? && s.threads[tid].input.key !in s.table.devices
    ensures var input := s.threads[tid].input;
            var s' := Next(s, Advance(tid, nextHost));
            var free := input.host !in s.table.routeHosts &&
                        forall k :: k in s.table.devices ==> s.table.devices[k].publicHost != input.host;
            && (free ==>
                  Get(s'.table.devices, input.key) == Some(Device(input.name, input.host, None)) &&
                  s'.threads[tid] == Answered(input.key, Registered(s'.table.devices[input.key])))
            && (!free ==> s'.table == s.table)
            && (!free && s'.threads[tid] != Rereading(input, s.threads[tid].attempt) ==>
                  s'.threads[tid] == if s.threads[tid].attempt < 7
                                     then Locking(input.(host := nextHost), s.threads[tid].attempt + 1)
                                     else Answered(input.key, HostConflict))
            && (s'.threads[tid] == Rereading(input, s.threads[tid].attempt) <==>
                  && input.host !in s.table.routeHosts && HostHeld(s.table, input.host)
                  && !HostHeldByActive(s.table, input.host))
            && (other != input.key ==> Get(s'.table.devices, other) == Get(s.table.devices, other))
  {
  }

  /** A revocation of an active device stores its own time and nothing else; and on every continuation in
      which no login later than that registers the device, every login up to that time is refused. */
  lemma RevocationRefusesOldLogins(
    s: Sys, key: DeviceKey, now: int, steps: seq<Step>, tid: nat, nextHost: string, other: DeviceKey)
    requires IsActive(s.table, key)
    requires var revoked := Next(s, Revoke(key, now));
             forall i: nat :: i < |steps| ==> !RestoredAt(revoked, steps, i, key, now)
    ensures var revoked := Next(s, Revoke(key, now));
            && Get(revoked.table.devices, key)
               == Some(Device(s.table.devices[key].name, s.table.devices[key].publicHost, Some(now)))
            && (other != key ==> Get(revoked.table.devices, other) == Get(s.table.devices, other))
            && revoked.threads == s.threads
    ensures var s' := Run(Next(s, Revoke(key, now)), steps);
            tid in s'.threads && s'.threads[tid].Locking? && s'.threads[tid].input.key == key &&
            s'.threads[tid].input.sessionStartedAt <= now ==>
              Next(s', Advance(tid, nextHost)).threads[tid] == Answered(key, Refused)
  {
    RestorationNeedsLaterLogin(Next(s, Revoke(key, now)), steps, key, now);
  }

  // ---------------------------------------------------------------- the table as an object

  /** The table behind the statements. Each method is one transaction. */
  class DeviceStore {
    var devices: map<DeviceKey, Device>
    var routeHosts: set<string>

    function Contents(): Table reads this { Table(devices, routeHosts) }

    constructor (routeHosts: set<string>)
      ensures Contents() == Table(map[], routeHosts)
    {
      devices := map[];
      this.routeHosts := routeHosts;
    }

    method RevokeAccountDesktop(key: DeviceKey, now: int) returns (found: bool)
      modifies this
      ensures found == RevokeRow(old(Contents()), key, now).Some?
      ensures Contents() == RevokeRow(old(Contents()), key, now).GetOr(old(Contents()))
    {
      found := key in devices && devices[key].revokedAt.None?;
      if found {
        devices := devices[key := devices[key].(revokedAt := Some(now))];
      }
    }

    method RenameAccountDesktop(key: DeviceKey, name: string) returns (found: bool)
      modifies this
      ensures found == RenameRow(old(Contents()), key, name).Some?
      ensures Contents() == RenameRow(old(Contents()), key, name).GetOr(old(Contents()))
    {
      if name == "" || |name| > MAX_NAME_LENGTH {
        return false;
      }
      found := key in devices && devices[key].revokedAt.None?;
      if found {
        devices := devices[key := devices[key].(name := name)];
      }
    }

    /** One registration with no other transaction in between: never a duplicate key, because
        the host check and the insert see the same rows unless a revoked row holds the host. */
    method RegisterDesktopDevice(input: Input) returns (outcome: Outcome)
      modifies this
      ensures input.key in old(Contents()).devices ==>
                (Contents(), outcome) == LockAndRefresh(old(Contents()), input)
      ensures input.key !in old(Contents()).devices ==>
                Contents() == InsertNew(old(Contents()), input).0 &&
                outcome == (if InsertNew(old(Contents()), input).1 == DuplicateKey then HostConflict
                            else InsertNew(old(Contents()), input).1)
    {
      if input.key !in devices {
        var takenByActive :=
          exists k :: k in devices && devices[k].revokedAt.None? && devices[k].publicHost == input.host;
        if input.host in routeHosts || takenByActive {
          return HostConflict;
        }
        var taken := exists k :: k in devices && devices[k].publicHost == input.host;
        if taken {
          return HostConflict;
        }
        var d := Device(input.name, input.host, None);
        devices := devices[input.key := d];
        return Registered(d);
      }
      var d := devices[input.key];
      if d.revokedAt.Some? {
        if input.sessionStartedAt <= d.revokedAt.value {
          return Refused;
        }
        d := d.(revokedAt := None);
      }
      if d.name == "" {
        d := d.(name := input.name);
      }
      devices := devices[input.key := d];
      return Registered(d);
    }

    /** The retry loop: a host conflict is the final answer exactly when the device is unknown
        and all eight drawn hosts were taken; then the table is unchanged. */
    method RegisterWithRetry(input: Input, hosts: seq<string>) returns (outcome: Outcome)
      requires |hosts| == PUBLIC_HOST_RETRY_LIMIT
      modifies this
      ensures outcome == HostConflict <==>
                input.key !in old(devices) &&
                forall h <- hosts :: h in old(routeHosts) || HostHeld(old(Contents()), h)
      ensures outcome == HostConflict ==> Contents() == old(Contents())
      ensures outcome.Registered? ==> IsActive(Contents(), input.key) && devices[input.key] == outcome.device
      // A known device never gets to a second attempt; an unknown one gets the first host that is free.
      ensures input.key in old(devices) ==> (Contents(), outcome) == LockAndRefresh(old(Contents()), input)
      ensures input.key !in old(devices) && outcome != HostConflict ==>
                exists i :: 0 <= i < |hosts| &&
                  (Contents(), outcome) == InsertNew(old(Contents()), input.(host := hosts[i])) &&
                  forall j :: 0 <= j < i ==> hosts[j] in old(routeHosts) || HostHeld(old(Contents()), hosts[j])
    {
      outcome := HostConflict;
      for attempt := 0 to |hosts|
        invariant Contents() == old(Contents())
        invariant outcome == HostConflict
        invariant attempt > 0 ==> input.key !in devices
        invariant forall i :: 0 <= i < attempt ==> hosts[i] in routeHosts || HostHeld(old(Contents()), hosts[i])
      {
        label before:
        outcome := RegisterDesktopDevice(input.(host := hosts[attempt]));
        if outcome != HostConflict {
          assert hosts[attempt] in hosts;
          return;
        }
        assert input.key !in old@before(devices);
        assert Contents() == old@before(Contents());
      }
    }
  }
}
