/** Uploads that go through: in every interleaving an upload that is in time loses nothing to the passes
    beside it, and what it published is served until its owner revokes it or its time is over. */
module ShareUploads {
  import opened Prelude
  import opened ShareLifecycle
  import T = ShareTables
  import F = ShareFiles

  // ---------------------------------------------------------------- an upload in time keeps its place

  /** While the upload is in time its stage is there and, once it made it, its share directory. */
  predicate PlaceIsThere(s: Sys, tid: nat) {
    tid in s.threads && (s.threads[tid].Writing? || s.threads[tid].Committing?) &&
    s.clock - s.threads[tid].touched <= HOUR ==>
      && s.threads[tid].stage in s.tree.staging
      && (s.threads[tid].Committing? ==> s.threads[tid].share in s.tree.shares)
  }

  lemma ProceedKeepsPlace(s: Sys, s': Sys, m: nat, tid: nat, sha: F.Content -> string)
    requires Proceeds(s, s', m) && m != tid && ThreadOk(s, m, sha) && ThreadOk(s, tid, sha) && PlaceIsThere(s, tid)
    ensures PlaceIsThere(s', tid)
  {
    match s.threads[m]
    case StageDeleting(_, _, _) =>
    case SweepDeleting(_, _, _) =>
    case Undoing(_) =>
    case _ =>
  }

  lemma RemoveSomeKeepsPlace(s: Sys, m: nat, kept: set<string>, tid: nat)
    requires PlaceIsThere(s, tid)
    ensures PlaceIsThere(RemoveSomeStep(s, m, kept), tid)
  {
  }

  lemma OtherWriteKeepsPlace(s: Sys, m: nat, res: string, body: F.Content, sha: F.Content -> string, tid: nat)
    requires m != tid && PlaceIsThere(s, tid)
    ensures PlaceIsThere(WriteStep(s, m, res, body, sha), tid)
  {
  }

  lemma OtherMakeDirKeepsPlace(s: Sys, m: nat, tid: nat)
    requires m != tid && PlaceIsThere(s, tid)
    ensures PlaceIsThere(MakeDirStep(s, m), tid)
  {
  }

  lemma OtherMoveInKeepsPlace(s: Sys, m: nat, commitFails: Option<F.CommitStep>, tid: nat, sha: F.Content -> string)
    requires m != tid && ThreadOk(s, m, sha) && ThreadOk(s, tid, sha) && PlaceIsThere(s, tid)
    ensures PlaceIsThere(MoveInStep(s, m, commitFails), tid)
  {
  }

  lemma OwnStepKeepsPlace(s: Sys, step: Step, tid: nat, sha: F.Content -> string)
    requires step.Write? || step.MakeDir? || step.MoveIn?
    requires step.tid == tid && PlaceIsThere(s, tid) && InTime(s, step)
    ensures PlaceIsThere(Next(s, step, sha), tid)
  {
    match step
    case Write(_, _, _) =>
    case MakeDir(_) =>
    case MoveIn(_, _) =>
  }

  lemma BeginKeepsPlace(s: Sys, m: nat, share: string, stage: string, tid: nat)
    requires PlaceIsThere(s, tid)
    ensures PlaceIsThere(BeginUploadStep(s, m, share, stage), tid)
  {
  }

  lemma InsertKeepsPlace(s: Sys, step: Step, tid: nat, sha: F.Content -> string)
    requires step.Insert? && PlaceIsThere(s, tid)
    ensures PlaceIsThere(Next(s, step, sha), tid)
  {
  }

  lemma OthersKeepPlace(s: Sys, step: Step, tid: nat, sha: F.Content -> string)
    requires step.Tick? || step.Visit? || step.StartRevoke? || step.StartPass?
    requires PlaceIsThere(s, tid)
    ensures PlaceIsThere(Next(s, step, sha), tid)
  {
    match step
    case Tick(_) =>
    case Visit(_, _, _) =>
    case StartRevoke(_, _, _) =>
    case StartPass(_) =>
  }

  lemma StepKeepsPlace(s: Sys, step: Step, tid: nat, sha: F.Content -> string)
    requires Inv(s, sha) && InTime(s, step) && PlaceIsThere(s, tid)
    ensures PlaceIsThere(Next(s, step, sha), tid)
  {
    match step
    case Proceed(m, pick, fails) =>
      if m in s.threads {
        ProceedProceeds(s, m, pick, fails);
        assert ThreadOk(s, m, sha) && ThreadOk(s, tid, sha);
        if m != tid { ProceedKeepsPlace(s, ProceedStep(s, m, pick, fails), m, tid, sha); }
      }
    case RemoveSome(m, kept) => RemoveSomeKeepsPlace(s, m, kept, tid);
    case BeginUpload(m, share, stage) => BeginKeepsPlace(s, m, share, stage, tid);
    case Insert(_, _, _, _, _, _) => InsertKeepsPlace(s, step, tid, sha);
    case Write(m, res, body) =>
      if m == tid { OwnStepKeepsPlace(s, step, tid, sha); } else { OtherWriteKeepsPlace(s, m, res, body, sha, tid); }
    case MakeDir(m) =>
      if m == tid { OwnStepKeepsPlace(s, step, tid, sha); } else { OtherMakeDirKeepsPlace(s, m, tid); }
    case MoveIn(m, commitFails) =>
      if m == tid {
        OwnStepKeepsPlace(s, step, tid, sha);
      } else {
        assert ThreadOk(s, m, sha) && ThreadOk(s, tid, sha);
        OtherMoveInKeepsPlace(s, m, commitFails, tid, sha);
      }
    case _ => OthersKeepPlace(s, step, tid, sha);
  }

  lemma PrefixTimely(s: Sys, steps: seq<Step>, timing: Timing, sha: F.Content -> string)
    requires steps != [] && AllTimely(s, steps, timing, sha)
    ensures AllTimely(s, steps[..|steps| - 1], timing, sha)
    ensures Timely(Run(s, steps[..|steps| - 1], sha), steps[|steps| - 1], timing)
  {
    var front := steps[..|steps| - 1];
    forall i | 0 <= i < |front|
      ensures Timely(Run(s, front[..i], sha), front[i], timing)
    {
      assert front[..i] == steps[..i];
    }
  }

  lemma {:induction false} RunKeepsPlace(
    clock: int, steps: seq<Step>, timing: Timing, sha: F.Content -> string, tid: nat)
    requires Sufficient(timing) && AllTimely(Start(clock), steps, timing, sha)
    ensures PlaceIsThere(Run(Start(clock), steps, sha), tid)
  {
    if steps != [] {
      var n := |steps| - 1;
      var s := Run(Start(clock), steps[..n], sha);
      PrefixTimely(Start(clock), steps, timing, sha);
      RunKeepsPlace(clock, steps[..n], timing, sha, tid);
      RunKeepsInv(clock, steps[..n], timing, sha);
      TimelyIsInTime(s, steps[n], timing, sha);
      StepKeepsPlace(s, steps[n], tid, sha);
    }
  }

  /** The next step of an upload, undisturbed by a fault of its own: a write of a new file, the making of
      the directory, a commit that does not fail, rows that the database takes. */
  predicate IsNext(t: Thread, step: Step) {
    match t
    case Writing(_, _, _, rows) => (step.Write? && step.res !in rows) || step.MakeDir?
    case Committing(_, _, _, _, _) => step.MoveIn? && step.commitFails == None
    case Inserting(_, _, _, _) =>
      step.Insert? && !step.dbFails && step.owner != "" &&
      (step.expiresAt.Some? ==> !step.singleUse && T.DatabaseTime(step.now) < T.DatabaseTime(step.expiresAt.value))
    case _ => false
  }

  /** In every run with sufficient timing, whatever revocations and passes do beside it: each such step of
      an upload succeeds. A written file counts with its length and hash, the commit puts exactly the
      files counted in place, and the rows are inserted for them. */
  lemma TimelyUploadGoesOn(clock: int, steps: seq<Step>, timing: Timing, sha: F.Content -> string, step: Step)
    requires Sufficient(timing) && AllTimely(Start(clock), steps, timing, sha)
    requires step.Write? || step.MakeDir? || step.MoveIn? || step.Insert?
    requires var s := Run(Start(clock), steps, sha);
             step.tid in s.threads && IsNext(s.threads[step.tid], step) && Timely(s, step, timing)
    requires var s := Run(Start(clock), steps, sha);
             step.MakeDir? ==> s.clock - s.threads[step.tid].touched <= HOUR
    ensures var s := Run(Start(clock), steps, sha);
            var t, s' := s.threads[step.tid], Next(s, step, sha);
            var t' := s'.threads[step.tid];
            && (step.Write? ==>
                  t' == Writing(t.share, t.stage, s.clock,
                                t.rows[step.res := T.Metadata(|step.body|, sha(step.body))]))
            && (step.MakeDir? ==> t' == Committing(t.share, t.stage, t.touched, s.clock, t.rows))
            && (step.MoveIn? ==>
                  t' == Inserting(t.share, t.started, s.clock, t.rows) && Intact(s'.tree, t.share, t.rows, sha))
            && (step.Insert? ==>
                  t'.Done? && t.share in s'.tables.shares && t.share !in s.tables.shares &&
                  (t.rows != map[] ==> Get(s'.tables.resources, t.share) == Some(t.rows)))
  {
    var s := Run(Start(clock), steps, sha);
    RunKeepsInv(clock, steps, timing, sha);
    RunKeepsPlace(clock, steps, timing, sha, step.tid);
    TimelyIsInTime(s, step, timing, sha);
    StepGoesOn(s, step, sha);
  }

  lemma StepGoesOn(s: Sys, step: Step, sha: F.Content -> string)
    requires Inv(s, sha) && InTime(s, step)
    requires step.Write? || step.MakeDir? || step.MoveIn? || step.Insert?
    requires step.tid in s.threads && PlaceIsThere(s, step.tid) && IsNext(s.threads[step.tid], step)
    ensures var t, s' := s.threads[step.tid], Next(s, step, sha);
            var t' := s'.threads[step.tid];
            && (step.Write? ==>
                  t' == Writing(t.share, t.stage, s.clock,
                                t.rows[step.res := T.Metadata(|step.body|, sha(step.body))]))
            && (step.MakeDir? ==> t' == Committing(t.share, t.stage, t.touched, s.clock, t.rows))
            && (step.MoveIn? ==>
                  t' == Inserting(t.share, t.started, s.clock, t.rows) && Intact(s'.tree, t.share, t.rows, sha))
            && (step.Insert? ==>
                  t'.Done? && t.share in s'.tables.shares && t.share !in s.tables.shares &&
                  (t.rows != map[] ==> Get(s'.tables.resources, t.share) == Some(t.rows)))
  {
    assert ThreadOk(s, step.tid, sha);
    var t := s.threads[step.tid];
    if step.Write? {
      assert RowsOf(s.tree.staging[t.stage].files, sha).Keys == s.tree.staging[t.stage].files.Keys;
    }
  }

  // ---------------------------------------------------------------- what was published is served

  /** The rows of an upload are inserted. */
  predicate Publishes(s: Sys, step: Step) {
    step.Insert? && step.tid in s.threads && s.threads[step.tid].Inserting? && IsNext(s.threads[step.tid], step)
  }

  /** The creation such a step makes. */
  function Creation(s: Sys, step: Step): T.Op
    requires Publishes(s, step)
  {
    T.Create(s.threads[step.tid].share, step.owner, s.threads[step.tid].rows, step.now, step.expiresAt, step.singleUse)
  }

  /** The share is stored as it was created and, unless it is dead, with its rows. */
  predicate Published(s: Sys, create: T.Op)
    requires create.Create?
  {
    && create.id in s.tables.shares
    && s.tables.shares[create.id].owner == create.owner && s.tables.shares[create.id].version == T.SNAPSHOT_VERSION
    && s.tables.shares[create.id].singleUse == create.singleUse
    && s.tables.shares[create.id].expiresAt
       == (if create.expiresAt.Some? then Some(T.DatabaseTime(create.expiresAt.value)) else None)
    && (Dead(s.tables, create.id, s.clock) || create.rows == map[] ||
        Get(s.tables.resources, create.id) == Some(create.rows))
  }

  /** The owner asks to revoke the share. */
  predicate AsksToRevoke(step: Step, create: T.Op)
    requires create.Create?
  {
    step.StartRevoke? && step.share == create.id && step.owner == create.owner
  }

  /** Whether the share is revoked, and the claim on it. */
  predicate SameFate(s: Sys, s': Sys, id: string) {
    && id in s.tables.shares && id in s'.tables.shares
    && s'.tables.shares[id].revokedAt == s.tables.shares[id].revokedAt
    && Get(s'.tables.claims, id) == Get(s.tables.claims, id)
  }

  lemma OpKeepsPublished(s: Sys, s': Sys, step: Step, create: T.Op, sha: F.Content -> string)
    requires create.Create? && Published(s, create) && s' == Next(s, step, sha)
    requires s'.tables == if TableOp(s, step).Some? then T.Apply(s.tables, TableOp(s, step).value) else s.tables
    requires WithinTables(s, s', ScopeOf(s, step).own)
    requires TableOp(s, step) == Some(T.Forget(create.id)) ==> Dead(s.tables, create.id, s.clock)
    ensures Published(s', create)
    ensures !AsksToRevoke(step, create) && s.tables.shares[create.id].revokedAt.None? ==>
              s'.tables.shares[create.id].revokedAt.None?
  {
    var op := TableOp(s, step);
    if op.Some? {
      T.CreatedStaysOnce(create, s.tables, op.value);
      assert op.value.Revoke? ==> step == StartRevoke(step.tid, op.value.id, op.value.owner);
      assert T.OwnerRevoked(create, [op.value]) ==> [op.value][0].Revoke?;
    }
  }

  lemma ForgetsTheDead(s: Sys, step: Step, id: string, sha: F.Content -> string)
    requires Inv(s, sha) && TableOp(s, step) == Some(T.Forget(id))
    ensures Dead(s.tables, id, s.clock)
  {
    assert ThreadOk(s, step.tid, sha);
  }

  lemma StepKeepsPublished(s: Sys, step: Step, create: T.Op, sha: F.Content -> string)
    requires create.Create? && Inv(s, sha) && Published(s, create)
    ensures Published(Next(s, step, sha), create)
    ensures !AsksToRevoke(step, create) && s.tables.shares[create.id].revokedAt.None? ==>
              Next(s, step, sha).tables.shares[create.id].revokedAt.None?
  {
    StepRunsTableOp(s, step, sha);
    StepStaysWithinTables(s, step, sha);
    if TableOp(s, step) == Some(T.Forget(create.id)) { ForgetsTheDead(s, step, create.id, sha); }
    OpKeepsPublished(s, Next(s, step, sha), step, create, sha);
  }

  lemma PublishingPublishes(s: Sys, step: Step, sha: F.Content -> string)
    requires Inv(s, sha) && Publishes(s, step)
    ensures Published(Next(s, step, sha), Creation(s, step))
    ensures Next(s, step, sha).tables.shares[Creation(s, step).id].revokedAt.None?
    ensures Creation(s, step).id !in Next(s, step, sha).tables.claims
  {
    assert ThreadOk(s, step.tid, sha);
  }

  predicate Unrevoked(s: Sys, id: string) {
    id in s.tables.shares && s.tables.shares[id].revokedAt.None?
  }

  // ---------------------------------------------------------------- the states of a run

  /** `states` are the states of a timely run of `steps`, from the first to the last. */
  ghost predicate IsHistory(
    clock: int, steps: seq<Step>, states: seq<Sys>, timing: Timing, sha: F.Content -> string)
  {
    && |states| == |steps| + 1
    && var n := |steps|;
       if n == 0 then states[0] == Start(clock) else
         && IsHistory(clock, steps[..n - 1], states[..n], timing, sha)
         && Timely(states[n - 1], steps[n - 1], timing) && states[n] == Next(states[n - 1], steps[n - 1], sha)
  }

  lemma {:induction false} HistoryIsRun(
    clock: int, steps: seq<Step>, states: seq<Sys>, timing: Timing, sha: F.Content -> string)
    requires IsHistory(clock, steps, states, timing, sha)
    ensures states[|steps|] == Run(Start(clock), steps, sha) && AllTimely(Start(clock), steps, timing, sha)
  {
    if steps != [] {
      var n := |steps| - 1;
      HistoryIsRun(clock, steps[..n], states[..n + 1], timing, sha);
      forall i | 0 <= i < |steps|
        ensures Timely(Run(Start(clock), steps[..i], sha), steps[i], timing)
      {
        if i < n { assert steps[..n][..i] == steps[..i] && steps[..n][i] == steps[i]; }
      }
    }
  }

  /** Every timely run has its history. */
  lemma {:induction false} RunHasHistory(clock: int, steps: seq<Step>, timing: Timing, sha: F.Content -> string)
    returns (states: seq<Sys>)
    requires AllTimely(Start(clock), steps, timing, sha)
    ensures IsHistory(clock, steps, states, timing, sha) && states[|steps|] == Run(Start(clock), steps, sha)
  {
    if steps == [] {
      states := [Start(clock)];
    } else {
      var n := |steps| - 1;
      PrefixTimely(Start(clock), steps, timing, sha);
      var front := RunHasHistory(clock, steps[..n], timing, sha);
      states := front + [Run(Start(clock), steps, sha)];
      assert states[..n + 1] == front;
    }
  }

  lemma {:induction false} HistoryStep(
    clock: int, steps: seq<Step>, states: seq<Sys>, timing: Timing, sha: F.Content -> string, k: nat)
    requires IsHistory(clock, steps, states, timing, sha) && k < |steps|
    ensures IsHistory(clock, steps[..k], states[..k + 1], timing, sha)
    ensures states[k + 1] == Next(states[k], steps[k], sha)
  {
    var n := |steps| - 1;
    if k < n {
      HistoryStep(clock, steps[..n], states[..n + 1], timing, sha, k);
      assert steps[..n][..k] == steps[..k] && states[..n + 1][..k + 1] == states[..k + 1];
    }
  }

  lemma HistoryKeepsInv(
    clock: int, steps: seq<Step>, states: seq<Sys>, timing: Timing, sha: F.Content -> string, k: nat)
    requires Sufficient(timing) && IsHistory(clock, steps, states, timing, sha) && k < |states|
    ensures Inv(states[k], sha)
  {
    if k < |steps| {
      HistoryStep(clock, steps, states, timing, sha, k);
    } else {
      assert steps[..k] == steps && states[..k + 1] == states;
    }
    HistoryIsRun(clock, steps[..k], states[..k + 1], timing, sha);
    RunKeepsInv(clock, steps[..k], timing, sha);
  }

  // ---------------------------------------------------------------- what becomes of a publication

  /** What one step leaves of a publication. */
  predicate Carries(s: Sys, step: Step, s': Sys, create: T.Op)
    requires create.Create?
  {
    Published(s, create) ==>
      Published(s', create) &&
      (Unrevoked(s, create.id) && !AsksToRevoke(step, create) ==> Unrevoked(s', create.id))
  }

  predicate Visits(step: Step, id: string) { step.Visit? && step.share == id }

  /** What one step leaves of the claim on a share. */
  predicate CarriesClaim(s: Sys, step: Step, s': Sys, id: string) {
    && (id in s.tables.claims ==> Get(s'.tables.claims, id) == Get(s.tables.claims, id))
    && (id !in s.tables.claims && !Visits(step, id) ==> id !in s'.tables.claims)
  }

  lemma StepCarries(s: Sys, step: Step, create: T.Op, sha: F.Content -> string)
    requires create.Create? && Inv(s, sha)
    ensures Carries(s, step, Next(s, step, sha), create) && CarriesClaim(s, step, Next(s, step, sha), create.id)
  {
    StepRunsTableOp(s, step, sha);
    if Published(s, create) { StepKeepsPublished(s, step, create, sha); }
  }

  /** The steps before `n` carry a publication on. */
  ghost predicate AllCarry(states: seq<Sys>, steps: seq<Step>, create: T.Op)
    requires create.Create?
  {
    |states| == |steps| + 1 &&
    forall k :: 0 <= k < |steps| ==>
      Carries(states[k], steps[k], states[k + 1], create) && CarriesClaim(states[k], steps[k], states[k + 1], create.id)
  }

  lemma HistoryCarries(
    clock: int, steps: seq<Step>, states: seq<Sys>, timing: Timing, sha: F.Content -> string, create: T.Op)
    requires Sufficient(timing) && IsHistory(clock, steps, states, timing, sha) && create.Create?
    ensures AllCarry(states, steps, create)
  {
    forall k | 0 <= k < |steps|
      ensures Carries(states[k], steps[k], states[k + 1], create)
      ensures CarriesClaim(states[k], steps[k], states[k + 1], create.id)
    {
      HistoryKeepsInv(clock, steps, states, timing, sha, k);
      HistoryStep(clock, steps, states, timing, sha, k);
      StepCarries(states[k], steps[k], create, sha);
    }
  }

  /** Nobody asks to revoke the share in the steps from `i` to `n`. */
  predicate NobodyAsks(steps: seq<Step>, i: nat, n: nat, create: T.Op)
    requires create.Create? && n <= |steps|
  {
    forall k :: i <= k < n ==> !AsksToRevoke(steps[k], create)
  }

  predicate NobodyVisits(steps: seq<Step>, i: nat, n: nat, id: string)
    requires n <= |steps|
  {
    forall k :: i <= k < n ==> !Visits(steps[k], id)
  }

  lemma {:induction false} CarriedOn(states: seq<Sys>, steps: seq<Step>, i: nat, n: nat, create: T.Op)
    requires create.Create? && AllCarry(states, steps, create) && i <= n <= |steps|
    requires Published(states[i], create) && Unrevoked(states[i], create.id) && NobodyAsks(steps, i, n, create)
    ensures Published(states[n], create) && Unrevoked(states[n], create.id)
    ensures create.id in states[i].tables.claims ==>
              Get(states[n].tables.claims, create.id) == Get(states[i].tables.claims, create.id)
    ensures create.id !in states[i].tables.claims && NobodyVisits(steps, i, n, create.id) ==>
              create.id !in states[n].tables.claims
    decreases n
  {
    if i < n {
      CarriedOn(states, steps, i, n - 1, create);
      assert Carries(states[n - 1], steps[n - 1], states[n], create);
    }
  }

  /** Step `i` publishes the share as `create` says. */
  predicate PublishesAt(states: seq<Sys>, steps: seq<Step>, i: nat, create: T.Op) {
    i < |steps| && i < |states| && Publishes(states[i], steps[i]) && create == Creation(states[i], steps[i])
  }

  lemma JustPublished(
    clock: int, steps: seq<Step>, states: seq<Sys>, timing: Timing, sha: F.Content -> string, i: nat, create: T.Op)
    requires Sufficient(timing) && IsHistory(clock, steps, states, timing, sha)
    requires PublishesAt(states, steps, i, create)
    ensures Published(states[i + 1], create) && Unrevoked(states[i + 1], create.id)
    ensures create.id !in states[i + 1].tables.claims
    ensures create.singleUse ==> create.expiresAt.None?
  {
    HistoryKeepsInv(clock, steps, states, timing, sha, i);
    HistoryStep(clock, steps, states, timing, sha, i);
    PublishingPublishes(states[i], steps[i], sha);
  }

  lemma ReadHasItsFile(
    clock: int, steps: seq<Step>, states: seq<Sys>, timing: Timing, sha: F.Content -> string,
    id: string, res: string, shown: T.Hash)
    requires Sufficient(timing) && IsHistory(clock, steps, states, timing, sha)
    requires var s := states[|steps|]; T.ReadResource(s.tables, id, res, s.clock, shown).Some?
    ensures var s := states[|steps|];
            var row := T.ReadResource(s.tables, id, res, s.clock, shown).value;
            F.Verifies(s.tree, id, res, row.size, row.sha256, sha)
  {
    HistoryIsRun(clock, steps, states, timing, sha);
    ReadableResourceHasItsFile(clock, steps, timing, sha, id, res, shown);
  }

  lemma OpenIsServed(s: Sys, create: T.Op, res: string, shown: T.Hash)
    requires create.Create? && !create.singleUse && res in create.rows
    requires Published(s, create) && Unrevoked(s, create.id)
    requires create.expiresAt.Some? ==> s.clock < T.DatabaseTime(create.expiresAt.value)
    ensures T.ReadResource(s.tables, create.id, res, s.clock, shown) == Some(create.rows[res])
  {
    if create.expiresAt.Some? { T.RoundingIsInvisible(T.DatabaseTime(create.expiresAt.value), s.clock); }
  }

  // ---------------------------------------------------------------- the main results

  /** What an upload for any number of visits published is served: at every later moment of every timely
      run, unless its owner asked to revoke it and before it expires, each of its attachments can be read
      with its own values and has its file with that length and hash. */
  lemma PublishedShareIsServed(
    clock: int, steps: seq<Step>, states: seq<Sys>, timing: Timing, sha: F.Content -> string,
    i: nat, create: T.Op, res: string, shown: T.Hash)
    requires Sufficient(timing) && IsHistory(clock, steps, states, timing, sha)
    requires PublishesAt(states, steps, i, create) && !create.singleUse && res in create.rows
    requires NobodyAsks(steps, i + 1, |steps|, create)
    requires create.expiresAt.Some? ==> states[|steps|].clock < T.DatabaseTime(create.expiresAt.value)
    ensures var s := states[|steps|];
            && T.ReadResource(s.tables, create.id, res, s.clock, shown) == Some(create.rows[res])
            && F.Verifies(s.tree, create.id, res, create.rows[res].size, create.rows[res].sha256, sha)
  {
    JustPublished(clock, steps, states, timing, sha, i, create);
    HistoryCarries(clock, steps, states, timing, sha, create);
    CarriedOn(states, steps, i + 1, |steps|, create);
    OpenIsServed(states[|steps|], create, res, shown);
    ReadHasItsFile(clock, steps, states, timing, sha, create.id, res, shown);
  }

  lemma VisitClaims(s: Sys, step: Step, create: T.Op, sha: F.Content -> string)
    requires create.Create? && create.singleUse && create.expiresAt.None?
    requires Visits(step, create.id) && |step.newHash| == T.HASH_LENGTH
    requires Published(s, create) && Unrevoked(s, create.id) && create.id !in s.tables.claims
    ensures Get(Next(s, step, sha).tables.claims, create.id)
            == Some(T.Claim(step.newHash, T.DatabaseTime(s.clock + T.SESSION_DURATION)))
  {
  }

  lemma ClaimedIsServed(s: Sys, create: T.Op, res: string, shown: T.Hash, drawn: T.Hash, until: int)
    requires create.Create? && create.singleUse && create.expiresAt.None? && res in create.rows
    requires Published(s, create) && Unrevoked(s, create.id)
    requires Get(s.tables.claims, create.id) == Some(T.Claim(drawn, until))
    requires |drawn| == T.HASH_LENGTH && T.Aligned(until) && s.clock < until
    ensures T.ReadResource(s.tables, create.id, res, s.clock, shown)
            == if shown == drawn then Some(create.rows[res]) else None
  {
    T.RoundingIsInvisible(until, s.clock);
  }

  lemma DatabaseTimesAreAligned(t: int)
    ensures T.Aligned(T.DatabaseTime(t))
  {
  }

  lemma AwaitsItsVisitor(
    clock: int, steps: seq<Step>, states: seq<Sys>, timing: Timing, sha: F.Content -> string,
    i: nat, create: T.Op, v: nat)
    requires Sufficient(timing) && IsHistory(clock, steps, states, timing, sha)
    requires PublishesAt(states, steps, i, create) && i < v <= |steps|
    requires NobodyVisits(steps, i + 1, v, create.id) && NobodyAsks(steps, i + 1, v, create)
    ensures Published(states[v], create) && Unrevoked(states[v], create.id)
    ensures create.id !in states[v].tables.claims && (create.singleUse ==> create.expiresAt.None?)
  {
    JustPublished(clock, steps, states, timing, sha, i, create);
    HistoryCarries(clock, steps, states, timing, sha, create);
    CarriedOn(states, steps, i + 1, v, create);
  }

  lemma ClaimedAt(
    clock: int, steps: seq<Step>, states: seq<Sys>, timing: Timing, sha: F.Content -> string, create: T.Op, v: nat)
    requires Sufficient(timing) && IsHistory(clock, steps, states, timing, sha) && v < |steps|
    requires create.Create? && create.singleUse && create.expiresAt.None?
    requires Published(states[v], create) && Unrevoked(states[v], create.id) && create.id !in states[v].tables.claims
    requires Visits(steps[v], create.id) && |steps[v].newHash| == T.HASH_LENGTH
    ensures Get(states[v + 1].tables.claims, create.id)
            == Some(T.Claim(steps[v].newHash, T.DatabaseTime(states[v].clock + T.SESSION_DURATION)))
  {
    HistoryStep(clock, steps, states, timing, sha, v);
    VisitClaims(states[v], steps[v], create, sha);
  }

  lemma ClaimCarriedOn(states: seq<Sys>, steps: seq<Step>, create: T.Op, v: nat)
    requires create.Create? && AllCarry(states, steps, create) && v < |steps| && NobodyAsks(steps, v, |steps|, create)
    requires Published(states[v], create) && Unrevoked(states[v], create.id)
    requires create.id in states[v + 1].tables.claims
    ensures Published(states[|steps|], create) && Unrevoked(states[|steps|], create.id)
    ensures Get(states[|steps|].tables.claims, create.id) == Get(states[v + 1].tables.claims, create.id)
  {
    CarriedOn(states, steps, v, v + 1, create);
    CarriedOn(states, steps, v + 1, |steps|, create);
  }

  lemma ClaimedByVisit(
    clock: int, steps: seq<Step>, states: seq<Sys>, timing: Timing, sha: F.Content -> string,
    i: nat, create: T.Op, v: nat)
    requires Sufficient(timing) && IsHistory(clock, steps, states, timing, sha)
    requires PublishesAt(states, steps, i, create) && create.singleUse
    requires i < v < |steps| && NobodyVisits(steps, i + 1, v, create.id) && NobodyAsks(steps, i + 1, |steps|, create)
    requires Visits(steps[v], create.id) && |steps[v].newHash| == T.HASH_LENGTH
    ensures var s := states[|steps|];
            && Published(s, create) && Unrevoked(s, create.id)
            && Get(s.tables.claims, create.id)
               == Some(T.Claim(steps[v].newHash, T.DatabaseTime(states[v].clock + T.SESSION_DURATION)))
  {
    AwaitsItsVisitor(clock, steps, states, timing, sha, i, create, v);
    ClaimedAt(clock, steps, states, timing, sha, create, v);
    HistoryCarries(clock, steps, states, timing, sha, create);
    ClaimCarriedOn(states, steps, create, v);
  }

  /** What an upload for one visitor published is served to that visitor: from the first visit on, at every
      moment of every timely run, unless its owner asked to revoke it and for 30 minutes, each of its
      attachments can be read with the hash drawn at that visit, and with no other. */
  lemma FirstVisitorIsServed(
    clock: int, steps: seq<Step>, states: seq<Sys>, timing: Timing, sha: F.Content -> string,
    i: nat, create: T.Op, v: nat, res: string, shown: T.Hash)
    requires Sufficient(timing) && IsHistory(clock, steps, states, timing, sha)
    requires PublishesAt(states, steps, i, create) && create.singleUse && res in create.rows
    requires i < v < |steps| && NobodyVisits(steps, i + 1, v, create.id) && NobodyAsks(steps, i + 1, |steps|, create)
    requires Visits(steps[v], create.id) && |steps[v].newHash| == T.HASH_LENGTH
    requires states[|steps|].clock < T.DatabaseTime(states[v].clock + T.SESSION_DURATION)
    ensures var s := states[|steps|];
            && T.ReadResource(s.tables, create.id, res, s.clock, shown)
               == (if shown == steps[v].newHash then Some(create.rows[res]) else None)
            && F.Verifies(s.tree, create.id, res, create.rows[res].size, create.rows[res].sha256, sha)
  {
    var s, drawn := states[|steps|], steps[v].newHash;
    var until := T.DatabaseTime(states[v].clock + T.SESSION_DURATION);
    DatabaseTimesAreAligned(states[v].clock + T.SESSION_DURATION);
    ClaimedByVisit(clock, steps, states, timing, sha, i, create, v);
    assert create.expiresAt.None? by { JustPublished(clock, steps, states, timing, sha, i, create); }
    ClaimedIsServed(s, create, res, shown, drawn, until);
    ClaimedIsServed(s, create, res, drawn, drawn, until);
    ReadHasItsFile(clock, steps, states, timing, sha, create.id, res, drawn);
  }

  // ---------------------------------------------------------------- removals that go through

  /** A revocation by the owner that nothing interrupts: the share is revoked now, its directory and its
      rows are gone, and every other share is as before. */
  lemma RevocationGoesThrough(s: Sys, tid: nat, share: string, pick: string, sha: F.Content -> string)
    requires tid !in s.threads && Unrevoked(s, share)
    ensures var owner := s.tables.shares[share].owner;
            var goOn := Proceed(tid, pick, false);
            var s' := Next(Next(Next(s, StartRevoke(tid, share, owner), sha), goOn, sha), goOn, sha);
            && s'.threads[tid].Done?
            && s'.tables.shares[share].revokedAt == Some(T.DatabaseTime(s.clock))
            && share !in s'.tree.shares && share !in s'.tables.resources
            && (forall id :: id != share ==>
                  && Get(s'.tree.shares, id) == Get(s.tree.shares, id)
                  && Get(s'.tables.resources, id) == Get(s.tables.resources, id)
                  && Get(s'.tables.shares, id) == Get(s.tables.shares, id))
  {
    var goOn := Proceed(tid, pick, false);
    var revoked := Next(s, StartRevoke(tid, share, s.tables.shares[share].owner), sha);
    assert revoked.threads[tid] == RevokeDeleting(share) && revoked.tree == s.tree;
    var deleted := Next(revoked, goOn, sha);
    assert deleted.threads[tid] == RevokeForgetting(share) && deleted.tables == revoked.tables;
  }

  /** A pass with nothing failing takes one share of its list after another, files first: in the end all
      of them have lost directory and rows, no other share has, and the listing is next. */
  lemma {:induction false} PassGoesThrough(s: Sys, tid: nat, now: int, todo: set<string>, sha: F.Content -> string)
    returns (steps: seq<Step>)
    requires Get(s.threads, tid) == Some(PassChoosing(now, todo))
    ensures forall step <- steps :: step.Proceed? && step.tid == tid && !step.fails
    ensures var s' := Run(s, steps, sha);
            && Get(s'.threads, tid) == Some(PassListing(now))
            && s'.tree.shares == s.tree.shares - todo && s'.tables.resources == s.tables.resources - todo
            && s'.tree.staging == s.tree.staging && s'.tables.shares == s.tables.shares
    decreases |todo|
  {
    if todo == {} {
      steps := [Proceed(tid, "", false)];
      assert steps[..0] == [];
    } else {
      var pick :| pick in todo;
      var taken := PassTakesOne(s, tid, now, todo, pick, sha);
      var rest := PassGoesThrough(Run(s, taken, sha), tid, now, todo - {pick}, sha);
      RunAppends(s, taken, rest, sha);
      steps := taken + rest;
      assert s.tree.shares - {pick} - (todo - {pick}) == s.tree.shares - todo;
      assert s.tables.resources - {pick} - (todo - {pick}) == s.tables.resources - todo;
    }
  }

  lemma PassTakesOne(s: Sys, tid: nat, now: int, todo: set<string>, pick: string, sha: F.Content -> string)
    returns (steps: seq<Step>)
    requires Get(s.threads, tid) == Some(PassChoosing(now, todo)) && pick in todo
    ensures forall step <- steps :: step.Proceed? && step.tid == tid && !step.fails
    ensures var s' := Run(s, steps, sha);
            && Get(s'.threads, tid) == Some(PassChoosing(now, todo - {pick}))
            && s'.tree.shares == s.tree.shares - {pick} && s'.tables.resources == s.tables.resources - {pick}
            && s'.tree.staging == s.tree.staging && s'.tables.shares == s.tables.shares
  {
    var goOn := Proceed(tid, pick, false);
    steps := [goOn, goOn, goOn];
    RunThree(s, goOn, sha);
    ThreeTakeOne(s, tid, now, todo, pick, sha);
  }

  lemma ThreeTakeOne(s: Sys, tid: nat, now: int, todo: set<string>, pick: string, sha: F.Content -> string)
    requires Get(s.threads, tid) == Some(PassChoosing(now, todo)) && pick in todo
    ensures var goOn := Proceed(tid, pick, false);
            var s' := Next(Next(Next(s, goOn, sha), goOn, sha), goOn, sha);
            && Get(s'.threads, tid) == Some(PassChoosing(now, todo - {pick}))
            && s'.tree.shares == s.tree.shares - {pick} && s'.tables.resources == s.tables.resources - {pick}
            && s'.tree.staging == s.tree.staging && s'.tables.shares == s.tables.shares
  {
    var goOn := Proceed(tid, pick, false);
    var chosen := Next(s, goOn, sha);
    assert chosen == Put(s, tid, PassDeleting(now, todo - {pick}, pick));
    var deleted := Next(chosen, goOn, sha);
    assert deleted == Put(RemoveDir(chosen, pick), tid, PassForgetting(now, todo - {pick}, pick));
    assert Next(deleted, goOn, sha).tables == T.DeleteMetadata(s.tables, pick);
  }

  lemma RunThree(s: Sys, step: Step, sha: F.Content -> string)
    ensures Run(s, [step, step, step], sha) == Next(Next(Next(s, step, sha), step, sha), step, sha)
  {
    var one, two, three := [step], [step, step], [step, step, step];
    assert one[..0] == [] && two[..1] == one && three[..2] == two;
    assert Run(s, one, sha) == Next(s, step, sha);
    assert Run(s, two, sha) == Next(Run(s, one, sha), step, sha);
  }

  lemma {:induction false} RunAppends(s: Sys, a: seq<Step>, b: seq<Step>, sha: F.Content -> string)
    ensures Run(s, a + b, sha) == Run(Run(s, a, sha), b, sha)
    decreases |b|
  {
    if b == [] {
      assert a + b == a;
    } else {
      RunAppends(s, a, b[..|b| - 1], sha);
      assert (a + b)[..|a + b| - 1] == a + b[..|b| - 1];
    }
  }
}
