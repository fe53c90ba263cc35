/** Uploads, revocations, claims and cleanup passes in any interleaving, over the database and
    the file tree at once.

    SQL transactions, mkdir and rename are single steps. Removing a directory is not: it takes files
    away bit by bit, from a share as from a stage. The removal of a stage holds the directory open, so
    it goes on even after the stage was renamed. `sha` stands for SHA-256 in hexadecimal. */
module ShareLifecycle {
  import opened Prelude
  import T = ShareTables
  import F = ShareFiles

  type Rows = map<string, T.Metadata>

  /** `touched` is when the upload last changed its stage, `started` when it made the share directory,
      `moved` when it renamed the stage into it. */
  datatype Thread =
    // handleCreateConversationShare
    | Writing(share: string, stage: string, touched: int, rows: Rows)
    | Committing(share: string, stage: string, touched: int, started: int, rows: Rows)
    | Inserting(share: string, started: int, moved: int, rows: Rows)
    | Undoing(share: string)
    // handleRevokeConversationShare, past its UPDATE
    | RevokeDeleting(share: string)
    | RevokeForgetting(share: string)
    // CleanupConversationShareResources; `now` is read once, at its start
    | PassSelecting(now: int)
    | PassChoosing(now: int, todo: set<string>)
    | PassDeleting(now: int, todo: set<string>, share: string)
    | PassForgetting(now: int, todo: set<string>, share: string)
    | PassListing(now: int)
    | Sweeping(now: int, valid: set<string>)
    | SweepDeleting(now: int, valid: set<string>, share: string)
    | StageDeleting(now: int, valid: set<string>, stage: string)
    | Done

  /** `uploader` and `stager` record which thread was given a share or stage id; ids are fresh.
      `placed` says which share a stage was renamed into. */
  datatype Sys = Sys(
    clock: int, tables: T.Tables, tree: F.Tree, threads: map<nat, Thread>,
    uploader: map<string, nat>, stager: map<string, nat>, placed: map<string, string>)

  datatype Step =
    | Tick(delta: nat)
    | BeginUpload(tid: nat, share: string, stage: string)
    | Write(tid: nat, res: string, body: F.Content)
    | MakeDir(tid: nat)
    | MoveIn(tid: nat, commitFails: Option<F.CommitStep>)
    | Insert(tid: nat, owner: string, now: int, expiresAt: Option<int>, singleUse: bool, dbFails: bool)
    | Visit(share: string, presented: T.Hash, newHash: T.Hash)
    | StartRevoke(tid: nat, share: string, owner: string)
    | StartPass(tid: nat)
    | Proceed(tid: nat, pick: string, fails: bool)
    | RemoveSome(tid: nat, kept: set<string>)

  function Put(s: Sys, tid: nat, t: Thread): Sys {
    s.(threads := s.threads[tid := t])
  }

  function RowsOf(files: F.Files, sha: F.Content -> string): Rows {
    map res | res in files :: T.Metadata(|files[res]|, sha(files[res]))
  }

  function BeginUploadStep(s: Sys, tid: nat, share: string, stage: string): Sys {
    if tid in s.threads || share in s.uploader || stage in s.stager then s else
    Put(s.(tree := s.tree.(staging := s.tree.staging[stage := F.StageDir(s.clock, map[])]),
           uploader := s.uploader[share := tid], stager := s.stager[stage := tid]),
        tid, Writing(share, stage, s.clock, map[]))
  }

  function WriteStep(s: Sys, tid: nat, res: string, body: F.Content, sha: F.Content -> string): Sys {
    if tid !in s.threads || !s.threads[tid].Writing? then s else
    var t := s.threads[tid];
    if t.stage !in s.tree.staging || res in s.tree.staging[t.stage].files then Put(s, tid, Done) else
    var dir := F.StageDir(s.clock, s.tree.staging[t.stage].files[res := body]);
    Put(s.(tree := s.tree.(staging := s.tree.staging[t.stage := dir])),
        tid, Writing(t.share, t.stage, s.clock, t.rows[res := T.Metadata(|body|, sha(body))]))
  }

  function MakeDirStep(s: Sys, tid: nat): Sys {
    if tid !in s.threads || !s.threads[tid].Writing? then s else
    var t := s.threads[tid];
    var made := F.Mkdir(s.tree, t.share, s.clock);
    if made.None? then Put(s, tid, Done)
    else Put(s.(tree := made.value), tid, Committing(t.share, t.stage, t.touched, s.clock, t.rows))
  }

  /** The rest of the commit. When it fails before or at the rename, the empty share directory is
      removed again if it is still there; when only the last sync fails, the files stay and the
      upload ends without rows. */
  function MoveInStep(s: Sys, tid: nat, commitFails: Option<F.CommitStep>): Sys {
    if tid !in s.threads || !s.threads[tid].Committing? then s else
    var t := s.threads[tid];
    var moved := F.RenameStage(s.tree, t.stage, t.share, s.clock);
    if moved.None? || !F.ReachesRename(commitFails)
    then Put(s.(tree := s.tree.(shares := s.tree.shares - {t.share})), tid, Done)
    else Put(s.(tree := moved.value, placed := s.placed[t.stage := t.share]),
             tid, if commitFails.None? then Inserting(t.share, t.started, s.clock, t.rows) else Done)
  }

  function InsertStep(
    s: Sys, tid: nat, owner: string, now: int, expiresAt: Option<int>, singleUse: bool, dbFails: bool): Sys
  {
    if tid !in s.threads || !s.threads[tid].Inserting? then s else
    var t := s.threads[tid];
    var inserted := T.CreateShare(s.tables, t.share, owner, t.rows, now, expiresAt, singleUse);
    if dbFails || inserted.None? then Put(s, tid, Undoing(t.share))
    else Put(s.(tables := inserted.value), tid, Done)
  }

  function RevokeStep(s: Sys, tid: nat, share: string, owner: string): Sys {
    if tid in s.threads then s else
    var revoked := T.RevokeShare(s.tables, share, owner, s.clock);
    if revoked.None? then Put(s, tid, Done)
    else Put(s.(tables := revoked.value), tid, RevokeDeleting(share))
  }

  function RemoveDir(s: Sys, share: string): Sys {
    s.(tree := s.tree.(shares := s.tree.shares - {share}))
  }

  /** One step of a sweep: `pick` is the entry looked at. */
  function SweepStep(s: Sys, tid: nat, pick: string, fails: bool): Sys
    requires tid in s.threads && s.threads[tid].Sweeping?
  {
    var now, valid := s.threads[tid].now, s.threads[tid].valid;
    if fails then Put(s, tid, Done)
    else if pick in s.tree.staging && s.tree.staging[pick].modified < now - HOUR then
      Put(s, tid, StageDeleting(now, valid, pick))
    else if pick in s.tree.shares && pick !in valid && s.tree.shares[pick].modified < now - HOUR then
      Put(s, tid, SweepDeleting(now, valid, pick))
    else s
  }

  /** The remaining steps of revocations, failed uploads and passes. `pick` is the next entry a pass
      looks at; `fails` lets the file or database operation of this step fail. */
  function ProceedStep(s: Sys, tid: nat, pick: string, fails: bool): Sys {
    if tid !in s.threads then s else
    match s.threads[tid]
    case Undoing(share) => Put(if fails then s else RemoveDir(s, share), tid, Done)
    case RevokeDeleting(share) =>
      if fails then Put(s, tid, Done) else Put(RemoveDir(s, share), tid, RevokeForgetting(share))
    case RevokeForgetting(share) =>
      Put(if fails then s else s.(tables := T.DeleteMetadata(s.tables, share)), tid, Done)
    case PassSelecting(now) =>
      Put(s, tid, if fails then Done else PassChoosing(now, T.CleanupIds(s.tables, now)))
    case PassChoosing(now, todo) =>
      if todo == {} then Put(s, tid, PassListing(now))
      else if pick in todo then Put(s, tid, PassDeleting(now, todo - {pick}, pick)) else s
    case PassDeleting(now, todo, share) =>
      if fails then Put(s, tid, PassChoosing(now, todo))
      else Put(RemoveDir(s, share), tid, PassForgetting(now, todo, share))
    case PassForgetting(now, todo, share) =>
      Put(if fails then s else s.(tables := T.DeleteMetadata(s.tables, share)), tid, PassChoosing(now, todo))
    case PassListing(now) =>
      Put(s, tid, if fails then Done else Sweeping(now, s.tables.resources.Keys))
    case Sweeping(_, _) => SweepStep(s, tid, pick, fails)
    case SweepDeleting(now, valid, share) =>
      if fails then Put(s, tid, Done) else Put(RemoveDir(s, share), tid, Sweeping(now, valid))
    case StageDeleting(now, valid, stage) =>
      if fails then Put(s, tid, Done)
      else Put(s.(tree := s.tree.(staging := s.tree.staging - {stage})), tid, Sweeping(now, valid))
    case _ => s
  }

  /** The share whose files a thread is removing. */
  function Target(s: Sys, t: Thread): Option<string> {
    match t
    case Undoing(share) => Some(share)
    case RevokeDeleting(share) => Some(share)
    case PassDeleting(_, _, share) => Some(share)
    case SweepDeleting(_, _, share) => Some(share)
    case StageDeleting(_, _, stage) => Get(s.placed, stage)
    case _ => None
  }

  function ThinStage(s: Sys, stage: string, kept: set<string>): Sys {
    if stage !in s.tree.staging then s else
    var dir := F.StageRemnant(s.tree.staging[stage], F.Cut(Some(kept), s.clock));
    s.(tree := s.tree.(staging := s.tree.staging[stage := dir]))
  }

  function ThinShare(s: Sys, share: string, kept: set<string>): Sys {
    if share !in s.tree.shares || s.tree.shares[share].resources.None? then s else
    var dir := F.ShareRemnant(s.tree.shares[share], F.Cut(Some(kept), s.clock));
    s.(tree := s.tree.(shares := s.tree.shares[share := dir]))
  }

  /** A removal under way takes files away; `kept` are those still there. */
  function RemoveSomeStep(s: Sys, tid: nat, kept: set<string>): Sys {
    if tid !in s.threads then s else
    var t := s.threads[tid];
    if Target(s, t).Some? then ThinShare(s, Target(s, t).value, kept)
    else if t.StageDeleting? then ThinStage(s, t.stage, kept)
    else s
  }

  function Next(s: Sys, step: Step, sha: F.Content -> string): Sys {
    match step
    case Tick(delta) => s.(clock := s.clock + delta)
    case BeginUpload(tid, share, stage) => BeginUploadStep(s, tid, share, stage)
    case Write(tid, res, body) => WriteStep(s, tid, res, body, sha)
    case MakeDir(tid) => MakeDirStep(s, tid)
    case MoveIn(tid, commitFails) => MoveInStep(s, tid, commitFails)
    case Insert(tid, owner, now, expiresAt, singleUse, dbFails) =>
      InsertStep(s, tid, owner, now, expiresAt, singleUse, dbFails)
    case Visit(share, presented, newHash) =>
      s.(tables := T.AccessShare(s.tables, share, s.clock, presented, newHash).0)
    case StartRevoke(tid, share, owner) => RevokeStep(s, tid, share, owner)
    case StartPass(tid) => if tid in s.threads then s else Put(s, tid, PassSelecting(s.clock))
    case Proceed(tid, pick, fails) => ProceedStep(s, tid, pick, fails)
    case RemoveSome(tid, kept) => RemoveSomeStep(s, tid, kept)
  }

  // ---------------------------------------------------------------- timing

  /** How long an upload may take: between changes of its stage and from the last of them to the
      rename, from the mkdir to the rows, and from the rename to the rows. */
  datatype Timing = Timing(stage: nat, fromMkdir: nat, fromRename: nat)

  predicate Timely(s: Sys, step: Step, timing: Timing) {
    match step
    case Write(tid, _, _) =>
      tid in s.threads && s.threads[tid].Writing? ==> s.clock - s.threads[tid].touched <= timing.stage
    case MoveIn(tid, _) =>
      tid in s.threads && s.threads[tid].Committing? ==> s.clock - s.threads[tid].touched <= timing.stage
    case Insert(tid, _, _, _, _, _) =>
      tid in s.threads && s.threads[tid].Inserting? ==>
        s.clock - s.threads[tid].started <= timing.fromMkdir && s.clock - s.threads[tid].moved <= timing.fromRename
    case _ => true
  }

  /** No gap on the stage is longer than an hour, and rows follow within an hour of the mkdir or of
      the rename. */
  predicate Sufficient(timing: Timing) {
    timing.stage <= HOUR && (timing.fromMkdir <= HOUR || timing.fromRename <= HOUR)
  }

  const HOURLY := Timing(HOUR, 0, HOUR)

  /** What the invariant needs of a step. */
  predicate InTime(s: Sys, step: Step) {
    match step
    case Insert(tid, _, _, _, _, _) =>
      tid in s.threads && s.threads[tid].Inserting? ==> s.clock - s.threads[tid].moved <= HOUR
    case _ => Timely(s, step, HOURLY)
  }

  function Run(s: Sys, steps: seq<Step>, sha: F.Content -> string): Sys {
    if steps == [] then s else Next(Run(s, steps[..|steps| - 1], sha), steps[|steps| - 1], sha)
  }

  ghost predicate AllTimely(s: Sys, steps: seq<Step>, timing: Timing, sha: F.Content -> string) {
    forall i :: 0 <= i < |steps| ==> Timely(Run(s, steps[..i], sha), steps[i], timing)
  }

  function Start(clock: int): Sys {
    Sys(clock, T.EMPTY, F.EMPTY, map[], map[], map[], map[])
  }

  // ---------------------------------------------------------------- the invariant

  /** Nobody can read the share at `clock` or later: revoked, expired, or its one session over. */
  predicate Dead(t: T.Tables, id: string, clock: int) {
    id in t.shares &&
    (|| t.shares[id].revokedAt.Some?
     || (t.shares[id].expiresAt.Some? && t.shares[id].expiresAt.value <= T.DatabaseTime(clock))
     || (t.shares[id].singleUse && id in t.claims && t.claims[id].expiresAt <= T.DatabaseTime(clock)))
  }

  /** The share directory holds exactly the files its rows describe. */
  predicate Intact(tree: F.Tree, id: string, rows: Rows, sha: F.Content -> string) {
    id in tree.shares && tree.shares[id].resources.Some? && RowsOf(tree.shares[id].resources.value, sha) == rows
  }

  /** The stage of an upload: it was not renamed, shows the upload's last change or a later one, and
      as long as the upload is in time it holds exactly the files the rows describe. */
  predicate StageOk(s: Sys, stage: string, touched: int, rows: Rows, sha: F.Content -> string) {
    && touched <= s.clock && stage !in s.placed
    && (stage in s.tree.staging ==>
          && touched <= s.tree.staging[stage].modified
          && (s.clock - touched <= HOUR ==> RowsOf(s.tree.staging[stage].files, sha) == rows))
  }

  predicate Owns(m: map<string, nat>, id: string, tid: nat) {
    id in m && m[id] == tid
  }

  /** Shares with metadata that were not listed as valid got their rows after the listing, so
      their directories are too young to be swept. */
  predicate SweepSafe(s: Sys, now: int, valid: set<string>) {
    now <= s.clock &&
    forall id :: id in s.tables.resources && id !in valid && id in s.tree.shares ==>
      s.tree.shares[id].modified >= now - HOUR
  }

  /** The upload of a share being swept can no longer be in time. */
  predicate TooLate(s: Sys, share: string, limit: int) {
    share in s.uploader && s.uploader[share] in s.threads &&
    match s.threads[s.uploader[share]]
    case Writing(_, _, _, _) => false
    case Committing(_, _, touched, _, _) => touched < limit
    case Inserting(_, _, moved, _) => moved < limit
    case _ => true
  }

  /** The same for a stage being swept; it will never be renamed. */
  predicate StageTooLate(s: Sys, stage: string, limit: int) {
    stage in s.stager && s.stager[stage] in s.threads && stage !in s.placed &&
    match s.threads[s.stager[stage]]
    case Writing(_, _, touched, _) => touched < limit
    case Committing(_, _, touched, _, _) => touched < limit
    case _ => true
  }

  predicate ThreadOk(s: Sys, tid: nat, sha: F.Content -> string) {
    tid in s.threads ==>
      match s.threads[tid]
      case Writing(share, stage, touched, rows) =>
        Owns(s.uploader, share, tid) && Owns(s.stager, stage, tid) && StageOk(s, stage, touched, rows, sha) &&
        share !in s.tables.shares && share !in s.tree.shares
      case Committing(share, stage, touched, started, rows) =>
        Owns(s.uploader, share, tid) && Owns(s.stager, stage, tid) && StageOk(s, stage, touched, rows, sha) &&
        share !in s.tables.shares && touched <= started <= s.clock &&
        (share in s.tree.shares ==> s.tree.shares[share] == F.ShareDir(started, None))
      case Inserting(share, started, moved, rows) =>
        Owns(s.uploader, share, tid) && share !in s.tables.shares && started <= moved <= s.clock &&
        (share in s.tree.shares ==> s.tree.shares[share].modified >= moved) &&
        (s.clock - moved <= HOUR ==> Intact(s.tree, share, rows, sha))
      case Undoing(share) => Owns(s.uploader, share, tid) && share !in s.tables.shares
      case RevokeDeleting(share) => Dead(s.tables, share, s.clock)
      case RevokeForgetting(share) => Dead(s.tables, share, s.clock)
      case PassSelecting(now) => now <= s.clock
      case PassChoosing(now, todo) => now <= s.clock && forall id <- todo :: Dead(s.tables, id, s.clock)
      case PassDeleting(now, todo, share) =>
        now <= s.clock && Dead(s.tables, share, s.clock) && forall id <- todo :: Dead(s.tables, id, s.clock)
      case PassForgetting(now, todo, share) =>
        now <= s.clock && Dead(s.tables, share, s.clock) && forall id <- todo :: Dead(s.tables, id, s.clock)
      case PassListing(now) => now <= s.clock
      case Sweeping(now, valid) => SweepSafe(s, now, valid)
      case SweepDeleting(now, valid, share) =>
        SweepSafe(s, now, valid) && share !in s.tables.resources && TooLate(s, share, now - HOUR)
      case StageDeleting(now, valid, stage) => SweepSafe(s, now, valid) && StageTooLate(s, stage, now - HOUR)
      case Done => true
  }

  predicate ShareOk(s: Sys, id: string, sha: F.Content -> string) {
    && (id in s.tables.shares ==> id in s.uploader)
    && (id in s.tables.resources ==>
          id in s.tables.shares && (Dead(s.tables, id, s.clock) || Intact(s.tree, id, s.tables.resources[id], sha)))
    && (id in s.tree.shares ==>
          && id in s.uploader && s.uploader[id] in s.threads && !s.threads[s.uploader[id]].Writing?
          && s.tree.shares[id].modified <= s.clock)
  }

  /** A thread that still uploads works on the share and the stage it was given. */
  predicate UploaderOk(s: Sys, id: string) {
    id in s.uploader ==>
      s.uploader[id] in s.threads &&
      var t := s.threads[s.uploader[id]];
      t.Writing? || t.Committing? || t.Inserting? || t.Undoing? ==> t.share == id
  }

  predicate StagerOk(s: Sys, stage: string) {
    && (stage in s.tree.staging ==> stage in s.stager && stage !in s.placed)
    && (stage in s.placed ==> stage in s.stager)
    && (stage in s.stager ==>
          s.stager[stage] in s.threads &&
          var t := s.threads[s.stager[stage]];
          t.Writing? || t.Committing? ==> t.stage == stage)
  }

  ghost predicate Inv(s: Sys, sha: F.Content -> string) {
    && T.Consistent(s.tables)
    && (forall id :: ShareOk(s, id, sha))
    && (forall id :: UploaderOk(s, id))
    && (forall stage :: StagerOk(s, stage))
    && (forall tid :: ThreadOk(s, tid, sha))
  }

  // ---------------------------------------------------------------- what a step may change

  /** `own` is the share the step creates a directory or rows for, `ownStage` the stage it works in,
      `target` the share it takes files from, `thinned` the stage it takes files from. */
  datatype Scope = Scope(own: Option<string>, ownStage: Option<string>, target: Option<string>, thinned: Option<string>)

  const NOTHING := Scope(None, None, None, None)

  ghost predicate WithinTables(s: Sys, s': Sys, own: Option<string>) {
    && s.clock <= s'.clock
    && (forall id :: id in s.uploader ==> id in s'.uploader && s'.uploader[id] == s.uploader[id])
    && (forall id :: id in s.stager ==> id in s'.stager && s'.stager[id] == s.stager[id])
    && (forall id :: Some(id) != own ==>
          (id in s'.tables.shares <==> id in s.tables.shares) &&
          (id in s'.tables.resources ==> id in s.tables.resources && s'.tables.resources[id] == s.tables.resources[id]))
    && (forall id :: Dead(s.tables, id, s.clock) ==> Dead(s'.tables, id, s'.clock))
  }

  ghost predicate WithinStages(s: Sys, s': Sys, scope: Scope) {
    && (forall stage :: Some(stage) != scope.ownStage ==> (stage in s'.placed <==> stage in s.placed))
    && (forall stage :: Some(stage) != scope.ownStage && stage in s.stager && stage in s'.tree.staging ==>
          && stage in s.tree.staging
          && (|| s'.tree.staging[stage] == s.tree.staging[stage]
              || (Some(stage) == scope.thinned && s'.tree.staging[stage].modified == s.clock)))
  }

  ghost predicate WithinShares(s: Sys, s': Sys, scope: Scope) {
    forall id :: Some(id) != scope.own ==>
      && (id in s'.tree.shares ==>
            && id in s.tree.shares && s'.tree.shares[id].modified == s.tree.shares[id].modified
            && (s.tree.shares[id].resources.None? ==> s'.tree.shares[id].resources.None?))
      && (Some(id) != scope.target ==> Get(s'.tree.shares, id) == Get(s.tree.shares, id))
  }

  ghost predicate Within(s: Sys, s': Sys, scope: Scope) {
    WithinTables(s, s', scope.own) && WithinStages(s, s', scope) && WithinShares(s, s', scope)
  }

  /** Why `tid` may take files from a share: it is dead, or its own upload failed, or it is an orphan. */
  predicate MayRemove(s: Sys, tid: nat, share: string) {
    || Dead(s.tables, share, s.clock)
    || (share !in s.tables.shares && Owns(s.uploader, share, tid))
    || (share !in s.tables.resources && TooLate(s, share, s.clock - HOUR))
  }

  /** An upload moves forward only, and keeps its times unless it is still in time. */
  predicate Forward(t: Thread, t': Thread, clock: int) {
    match t'
    case Writing(_, _, touched, _) => t.Writing? && (t.touched == touched || clock - t.touched <= HOUR)
    case Committing(_, _, touched, _, _) => (t.Writing? || t.Committing?) && t.touched == touched
    case Inserting(_, _, moved, _) =>
      (t.Committing? && clock - t.touched <= HOUR) || (t.Inserting? && t.moved == moved)
    case _ => true
  }

  lemma DeadStays(t: T.Tables, t': T.Tables, id: string, clock: int, clock': int)
    requires Dead(t, id, clock) && clock <= clock'
    requires id in t'.shares && t'.shares[id].expiresAt == t.shares[id].expiresAt
    requires t'.shares[id].singleUse == t.shares[id].singleUse
    requires t.shares[id].revokedAt.Some? ==> t'.shares[id].revokedAt.Some?
    requires id in t.claims ==> id in t'.claims && t'.claims[id] == t.claims[id]
    ensures Dead(t', id, clock')
  {
    T.DatabaseTimeMonotone(clock, clock');
  }

  /** The scope of a step and the thread that makes it. */
  function ScopeOf(s: Sys, step: Step): Scope {
    match step
    case Write(tid, _, _) =>
      if tid in s.threads && s.threads[tid].Writing?
      then Scope(None, Some(s.threads[tid].stage), None, None) else NOTHING
    case MakeDir(tid) =>
      if tid in s.threads && s.threads[tid].Writing?
      then Scope(Some(s.threads[tid].share), None, None, None) else NOTHING
    case MoveIn(tid, _) =>
      if tid in s.threads && s.threads[tid].Committing?
      then Scope(Some(s.threads[tid].share), Some(s.threads[tid].stage), None, None) else NOTHING
    case Insert(tid, _, _, _, _, _) =>
      if tid in s.threads && s.threads[tid].Inserting?
      then Scope(Some(s.threads[tid].share), None, None, None) else NOTHING
    case Proceed(tid, _, _) => RemovalScope(s, tid)
    case RemoveSome(tid, _) => RemovalScope(s, tid)
    case _ => NOTHING
  }

  function RemovalScope(s: Sys, tid: nat): Scope {
    if tid !in s.threads then NOTHING
    else Scope(None, None, Target(s, s.threads[tid]),
               if s.threads[tid].StageDeleting? then Some(s.threads[tid].stage) else None)
  }

  function Mover(step: Step): Option<nat> {
    match step
    case Tick(_) => None
    case Visit(_, _, _) => None
    case _ => Some(step.tid)
  }

  /** The transaction a step runs, if any. */
  function TableOp(s: Sys, step: Step): Option<T.Op> {
    match step
    case Insert(tid, owner, now, expiresAt, singleUse, dbFails) =>
      if tid in s.threads && s.threads[tid].Inserting? && !dbFails
      then Some(T.Create(s.threads[tid].share, owner, s.threads[tid].rows, now, expiresAt, singleUse)) else None
    case Visit(share, presented, newHash) => Some(T.Access(share, s.clock, presented, newHash))
    case StartRevoke(tid, share, owner) => if tid in s.threads then None else Some(T.Revoke(share, owner, s.clock))
    case Proceed(tid, _, fails) =>
      if tid in s.threads && !fails && (s.threads[tid].RevokeForgetting? || s.threads[tid].PassForgetting?)
      then Some(T.Forget(s.threads[tid].share)) else None
    case _ => None
  }

  /** What a Proceed step amounts to, whatever the program counter: it moves its thread on, not into
      an upload, and at most removes its target, removes its stage or forgets its share's rows. */
  ghost predicate Proceeds(s: Sys, s': Sys, tid: nat) {
    && tid in s.threads && tid in s'.threads
    && var t, t' := s.threads[tid], s'.threads[tid];
    && (t' == t || !(t'.Writing? || t'.Committing? || t'.Inserting? || t'.Undoing?))
    && (|| s' == s
        || s' == Put(s, tid, t')
        || (Target(s, t).Some? && s' == Put(RemoveDir(s, Target(s, t).value), tid, t'))
        || (t.StageDeleting? && s' == Put(s.(tree := s.tree.(staging := s.tree.staging - {t.stage})), tid, t'))
        || ((t.RevokeForgetting? || t.PassForgetting?) &&
            s' == Put(s.(tables := T.DeleteMetadata(s.tables, t.share)), tid, t')))
  }

  predicate InSweep(t: Thread) { t.Sweeping? || t.SweepDeleting? || t.StageDeleting? }

  lemma SweepProceeds(s: Sys, tid: nat, pick: string, fails: bool)
    requires tid in s.threads && InSweep(s.threads[tid])
    ensures Proceeds(s, ProceedStep(s, tid, pick, fails), tid)
  {
  }

  predicate InPass(t: Thread) {
    t.PassSelecting? || t.PassChoosing? || t.PassDeleting? || t.PassForgetting? || t.PassListing?
  }

  lemma PassProceeds(s: Sys, tid: nat, pick: string, fails: bool)
    requires tid in s.threads && InPass(s.threads[tid])
    ensures Proceeds(s, ProceedStep(s, tid, pick, fails), tid)
  {
  }

  lemma ProceedProceeds(s: Sys, tid: nat, pick: string, fails: bool)
    requires tid in s.threads
    ensures Proceeds(s, ProceedStep(s, tid, pick, fails), tid)
  {
    var t := s.threads[tid];
    if InSweep(t) {
      SweepProceeds(s, tid, pick, fails);
    } else if InPass(t) {
      PassProceeds(s, tid, pick, fails);
    }
  }

  lemma ProceedRunsTableOp(s: Sys, tid: nat, pick: string, fails: bool)
    ensures var op := TableOp(s, Proceed(tid, pick, fails));
            ProceedStep(s, tid, pick, fails).tables == if op.Some? then T.Apply(s.tables, op.value) else s.tables
  {
  }

  lemma StepRunsTableOp(s: Sys, step: Step, sha: F.Content -> string)
    ensures Next(s, step, sha).tables ==
              if TableOp(s, step).Some? then T.Apply(s.tables, TableOp(s, step).value) else s.tables
  {
    if step.Proceed? { ProceedRunsTableOp(s, step.tid, step.pick, step.fails); }
  }

  lemma OpStaysWithin(t: T.Tables, op: T.Op, id: string, clock: int)
    ensures var t' := T.Apply(t, op);
            && (!(op.Create? && op.id == id) ==>
                  (id in t'.shares <==> id in t.shares) &&
                  (id in t'.resources ==> id in t.resources && t'.resources[id] == t.resources[id]))
            && (Dead(t, id, clock) ==> Dead(t', id, clock))
  {
    if Dead(t, id, clock) { DeadStays(t, T.Apply(t, op), id, clock, clock); }
  }

  ghost predicate KeepsMaps(s: Sys, s': Sys) {
    && s.clock <= s'.clock
    && (forall id :: id in s.uploader ==> id in s'.uploader && s'.uploader[id] == s.uploader[id])
    && (forall id :: id in s.stager ==> id in s'.stager && s'.stager[id] == s.stager[id])
  }

  lemma ProceedKeepsMaps(s: Sys, s': Sys, tid: nat)
    requires Proceeds(s, s', tid)
    ensures KeepsMaps(s, s')
  {
  }

  lemma UploadKeepsMaps(s: Sys, step: Step, sha: F.Content -> string)
    requires step.BeginUpload? || step.Write? || step.MakeDir? || step.MoveIn? || step.Insert?
    ensures KeepsMaps(s, Next(s, step, sha))
  {
  }

  lemma StepKeepsMaps(s: Sys, step: Step, sha: F.Content -> string)
    ensures KeepsMaps(s, Next(s, step, sha))
  {
    match step
    case Tick(_) =>
    case Visit(_, _, _) =>
    case StartRevoke(_, _, _) =>
    case StartPass(_) =>
    case RemoveSome(_, _) =>
    case Proceed(tid, pick, fails) =>
      if tid in s.threads {
        ProceedProceeds(s, tid, pick, fails);
        ProceedKeepsMaps(s, ProceedStep(s, tid, pick, fails), tid);
      }
    case _ => UploadKeepsMaps(s, step, sha);
  }

  lemma StepStaysWithinTables(s: Sys, step: Step, sha: F.Content -> string)
    ensures WithinTables(s, Next(s, step, sha), ScopeOf(s, step).own)
  {
    StepKeepsMaps(s, step, sha);
    StepRunsTableOp(s, step, sha);
    TablesOnly(s, Next(s, step, sha), TableOp(s, step), ScopeOf(s, step).own);
  }

  lemma TablesOnly(s: Sys, s': Sys, op: Option<T.Op>, own: Option<string>)
    requires s'.tables == if op.Some? then T.Apply(s.tables, op.value) else s.tables
    requires op.Some? && op.value.Create? ==> own == Some(op.value.id)
    requires KeepsMaps(s, s')
    ensures WithinTables(s, s', own)
  {
    forall id
      ensures Some(id) != own ==>
          (id in s'.tables.shares <==> id in s.tables.shares) &&
          (id in s'.tables.resources ==> id in s.tables.resources && s'.tables.resources[id] == s.tables.resources[id])
      ensures Dead(s.tables, id, s.clock) ==> Dead(s'.tables, id, s'.clock)
    {
      if op.Some? { OpStaysWithin(s.tables, op.value, id, s.clock); }
      if Dead(s.tables, id, s.clock) { DeadStays(s'.tables, s'.tables, id, s.clock, s'.clock); }
    }
  }

  // One kind of step at a time.

  ghost predicate WithinTree(s: Sys, s': Sys, scope: Scope) {
    WithinStages(s, s', scope) && WithinShares(s, s', scope)
  }

  lemma ProceedStaysWithinTree(s: Sys, s': Sys, tid: nat)
    requires Proceeds(s, s', tid)
    ensures WithinTree(s, s', RemovalScope(s, tid))
  {
  }

  lemma RemoveSomeStaysWithinTree(s: Sys, tid: nat, kept: set<string>)
    ensures WithinTree(s, RemoveSomeStep(s, tid, kept), RemovalScope(s, tid))
  {
  }

  lemma WriteStaysWithinTree(s: Sys, tid: nat, res: string, body: F.Content, sha: F.Content -> string)
    ensures WithinTree(s, WriteStep(s, tid, res, body, sha), ScopeOf(s, Write(tid, res, body)))
  {
  }

  lemma MakeDirStaysWithinTree(s: Sys, tid: nat)
    ensures WithinTree(s, MakeDirStep(s, tid), ScopeOf(s, MakeDir(tid)))
  {
  }

  lemma MoveInStaysWithinTree(s: Sys, tid: nat, commitFails: Option<F.CommitStep>)
    ensures WithinTree(s, MoveInStep(s, tid, commitFails), ScopeOf(s, MoveIn(tid, commitFails)))
  {
  }

  lemma StepStaysWithinTree(s: Sys, step: Step, sha: F.Content -> string)
    ensures WithinTree(s, Next(s, step, sha), ScopeOf(s, step))
  {
    match step
    case Write(tid, res, body) => WriteStaysWithinTree(s, tid, res, body, sha);
    case MakeDir(tid) => MakeDirStaysWithinTree(s, tid);
    case MoveIn(tid, commitFails) => MoveInStaysWithinTree(s, tid, commitFails);
    case Proceed(tid, pick, fails) =>
      if tid in s.threads {
        ProceedProceeds(s, tid, pick, fails);
        ProceedStaysWithinTree(s, ProceedStep(s, tid, pick, fails), tid);
      }
    case RemoveSome(tid, kept) => RemoveSomeStaysWithinTree(s, tid, kept);
    case _ => OthersStayWithinTree(s, step, sha);
  }

  lemma OthersStayWithinTree(s: Sys, step: Step, sha: F.Content -> string)
    requires step.Tick? || step.BeginUpload? || step.Insert? || step.Visit? || step.StartRevoke? || step.StartPass?
    ensures WithinTree(s, Next(s, step, sha), ScopeOf(s, step))
  {
  }

  lemma StepStaysWithin(s: Sys, step: Step, sha: F.Content -> string)
    ensures Within(s, Next(s, step, sha), ScopeOf(s, step))
  {
    StepStaysWithinTables(s, step, sha);
    StepStaysWithinTree(s, step, sha);
  }

  // ---------------------------------------------------------------- one step keeps the invariant

  ghost predicate OthersSame(s: Sys, s': Sys, m: Option<nat>) {
    forall tid :: tid in s.threads ==>
      && tid in s'.threads && (Some(tid) != m ==> s'.threads[tid] == s.threads[tid])
      && Forward(s.threads[tid], s'.threads[tid], s.clock)
  }

  /** The scope belongs to the mover, who is in time where it works on its stage, and rows appear
      only in time and beside a young directory. */
  ghost predicate WellScoped(s: Sys, s': Sys, m: Option<nat>, scope: Scope) {
    && (scope.own.Some? ==>
          && m.Some? && Owns(s.uploader, scope.own.value, m.value)
          && scope.own.value !in s.tables.resources && m.value in s.threads)
    && (scope.ownStage.Some? ==>
          && m.Some? && Owns(s.stager, scope.ownStage.value, m.value) && m.value in s.threads
          && (s.threads[m.value].Writing? || s.threads[m.value].Committing?)
          && s.clock - s.threads[m.value].touched <= HOUR)
    && (scope.target.Some? ==> m.Some? && MayRemove(s, m.value, scope.target.value))
    && (scope.thinned.Some? ==> StageTooLate(s, scope.thinned.value, s.clock - HOUR))
    && (scope.own.Some? && scope.own.value in s'.tables.resources ==>
          s.threads[m.value].Inserting? && s.clock - s.threads[m.value].moved <= HOUR &&
          (scope.own.value in s'.tree.shares ==> s'.tree.shares[scope.own.value].modified >= s.threads[m.value].moved))
  }

  lemma SweepStaysSafe(s: Sys, s': Sys, m: Option<nat>, scope: Scope, now: int, valid: set<string>)
    requires Within(s, s', scope) && WellScoped(s, s', m, scope) && SweepSafe(s, now, valid)
    ensures SweepSafe(s', now, valid)
  {
  }

  lemma TooLateStays(s: Sys, s': Sys, m: Option<nat>, share: string, limit: int)
    requires OthersSame(s, s', m) && TooLate(s, share, limit) && limit <= s.clock - HOUR
    requires share in s'.uploader && s'.uploader[share] == s.uploader[share]
    ensures TooLate(s', share, limit)
  {
  }

  lemma StageTooLateStays(s: Sys, s': Sys, m: Option<nat>, scope: Scope, stage: string, limit: int)
    requires OthersSame(s, s', m) && StageTooLate(s, stage, limit) && limit <= s.clock - HOUR
    requires WithinStages(s, s', scope) && WellScoped(s, s', m, scope)
    requires stage in s'.stager && s'.stager[stage] == s.stager[stage]
    ensures StageTooLate(s', stage, limit)
  {
  }

  lemma StageStaysOk(
    s: Sys, s': Sys, m: Option<nat>, scope: Scope, tid: nat, stage: string, touched: int, rows: Rows,
    sha: F.Content -> string)
    requires StageOk(s, stage, touched, rows, sha) && Owns(s.stager, stage, tid) && Some(tid) != m
    requires tid in s.threads && (s.threads[tid].Writing? || s.threads[tid].Committing?)
    requires s.threads[tid].touched == touched
    requires WithinStages(s, s', scope) && WellScoped(s, s', m, scope) && s.clock <= s'.clock
    ensures StageOk(s', stage, touched, rows, sha)
  {
  }

  lemma OtherUploadKept(s: Sys, s': Sys, m: Option<nat>, scope: Scope, tid: nat, sha: F.Content -> string)
    requires tid in s.threads && Some(tid) != m && ThreadOk(s, tid, sha)
    requires s.threads[tid].Writing? || s.threads[tid].Committing?
    requires Within(s, s', scope) && WellScoped(s, s', m, scope) && OthersSame(s, s', m)
    ensures ThreadOk(s', tid, sha)
  {
    var t := s.threads[tid];
    StageStaysOk(s, s', m, scope, tid, t.stage, t.touched, t.rows, sha);
  }

  lemma OtherInsertKept(s: Sys, s': Sys, m: Option<nat>, scope: Scope, tid: nat, sha: F.Content -> string)
    requires tid in s.threads && Some(tid) != m && ThreadOk(s, tid, sha)
    requires s.threads[tid].Inserting? || s.threads[tid].Undoing?
    requires Within(s, s', scope) && WellScoped(s, s', m, scope) && OthersSame(s, s', m)
    ensures ThreadOk(s', tid, sha)
  {
  }

  lemma OtherThreadKept(s: Sys, s': Sys, m: Option<nat>, scope: Scope, tid: nat, sha: F.Content -> string)
    requires tid in s.threads && Some(tid) != m && ThreadOk(s, tid, sha)
    requires Within(s, s', scope) && WellScoped(s, s', m, scope) && OthersSame(s, s', m)
    ensures ThreadOk(s', tid, sha)
  {
    match s.threads[tid]
    case Writing(_, _, _, _) => OtherUploadKept(s, s', m, scope, tid, sha);
    case Committing(_, _, _, _, _) => OtherUploadKept(s, s', m, scope, tid, sha);
    case Inserting(_, _, _, _) => OtherInsertKept(s, s', m, scope, tid, sha);
    case Undoing(_) => OtherInsertKept(s, s', m, scope, tid, sha);
    case Sweeping(now, valid) => SweepStaysSafe(s, s', m, scope, now, valid);
    case SweepDeleting(now, valid, share) =>
      SweepStaysSafe(s, s', m, scope, now, valid);
      TooLateStays(s, s', m, share, now - HOUR);
    case StageDeleting(now, valid, stage) =>
      SweepStaysSafe(s, s', m, scope, now, valid);
      StageTooLateStays(s, s', m, scope, stage, now - HOUR);
    case _ =>
  }

  ghost predicate MovesOnly(s: Sys, s': Sys, tid: nat) {
    s'.threads == s.threads || (tid in s'.threads && s'.threads == s.threads[tid := s'.threads[tid]])
  }

  lemma UploadMovesOne(s: Sys, step: Step, sha: F.Content -> string)
    requires step.BeginUpload? || step.Write? || step.MakeDir? || step.MoveIn? || step.Insert?
    ensures MovesOnly(s, Next(s, step, sha), step.tid)
  {
  }

  lemma StepMovesOne(s: Sys, step: Step, sha: F.Content -> string)
    ensures var s' := Next(s, step, sha);
            s'.threads == s.threads || (Mover(step).Some? && MovesOnly(s, s', Mover(step).value))
  {
    match step
    case Tick(_) =>
    case Visit(_, _, _) =>
    case Proceed(tid, pick, fails) => if tid in s.threads { ProceedProceeds(s, tid, pick, fails); }
    case StartRevoke(_, _, _) =>
    case StartPass(_) =>
    case RemoveSome(_, _) =>
    case _ => UploadMovesOne(s, step, sha);
  }

  lemma ProceedGoesForward(s: Sys, s': Sys, tid: nat)
    requires Proceeds(s, s', tid)
    ensures Forward(s.threads[tid], s'.threads[tid], s.clock)
  {
  }

  lemma WriteGoesForward(s: Sys, tid: nat, res: string, body: F.Content, sha: F.Content -> string)
    requires tid in s.threads && InTime(s, Write(tid, res, body))
    ensures tid in WriteStep(s, tid, res, body, sha).threads
    ensures Forward(s.threads[tid], WriteStep(s, tid, res, body, sha).threads[tid], s.clock)
  {
  }

  lemma MoveInGoesForward(s: Sys, tid: nat, commitFails: Option<F.CommitStep>)
    requires tid in s.threads && InTime(s, MoveIn(tid, commitFails))
    ensures tid in MoveInStep(s, tid, commitFails).threads
    ensures Forward(s.threads[tid], MoveInStep(s, tid, commitFails).threads[tid], s.clock)
  {
  }

  lemma MoverGoesForward(s: Sys, step: Step, sha: F.Content -> string)
    requires Mover(step).Some? && Mover(step).value in s.threads && InTime(s, step)
    ensures Mover(step).value in Next(s, step, sha).threads
    ensures Forward(s.threads[Mover(step).value], Next(s, step, sha).threads[Mover(step).value], s.clock)
  {
    match step
    case Proceed(tid, pick, fails) =>
      ProceedProceeds(s, tid, pick, fails);
      ProceedGoesForward(s, ProceedStep(s, tid, pick, fails), tid);
    case Write(tid, res, body) => WriteGoesForward(s, tid, res, body, sha);
    case MoveIn(tid, commitFails) => MoveInGoesForward(s, tid, commitFails);
    case _ =>
  }

  lemma StepMovesForward(s: Sys, step: Step, sha: F.Content -> string)
    requires InTime(s, step)
    ensures OthersSame(s, Next(s, step, sha), Mover(step))
  {
    StepMovesOne(s, step, sha);
    if Mover(step).Some? && Mover(step).value in s.threads { MoverGoesForward(s, step, sha); }
    SameOrForward(s, Next(s, step, sha), Mover(step));
  }

  lemma SameOrForward(s: Sys, s': Sys, m: Option<nat>)
    requires s'.threads == s.threads || (m.Some? && MovesOnly(s, s', m.value))
    requires m.Some? && m.value in s.threads ==>
               m.value in s'.threads && Forward(s.threads[m.value], s'.threads[m.value], s.clock)
    ensures OthersSame(s, s', m)
  {
  }

  lemma StepIsWellScoped(s: Sys, step: Step, sha: F.Content -> string)
    requires Inv(s, sha) && InTime(s, step)
    ensures WellScoped(s, Next(s, step, sha), Mover(step), ScopeOf(s, step))
  {
    if Mover(step).Some? {
      var m := Mover(step).value;
      assert ThreadOk(s, m, sha);
      if m in s.threads {
        if step.Proceed? || step.RemoveSome? {
          RemovalIsWellScoped(s, Next(s, step, sha), m, sha);
        } else {
          UploadIsWellScoped(s, step, m, sha);
        }
      }
    }
  }

  lemma RemovalIsWellScoped(s: Sys, s': Sys, m: nat, sha: F.Content -> string)
    requires m in s.threads && ThreadOk(s, m, sha)
    ensures WellScoped(s, s', Some(m), RemovalScope(s, m))
  {
    var t := s.threads[m];
    if t.SweepDeleting? {
      TooLateBefore(s, t.share, t.now - HOUR, s.clock - HOUR);
    }
  }

  lemma TooLateBefore(s: Sys, share: string, limit: int, later: int)
    requires TooLate(s, share, limit) && limit <= later
    ensures TooLate(s, share, later)
  {
  }

  lemma UploadIsWellScoped(s: Sys, step: Step, m: nat, sha: F.Content -> string)
    requires Mover(step) == Some(m) && m in s.threads && ThreadOk(s, m, sha) && InTime(s, step)
    requires !step.Proceed? && !step.RemoveSome?
    requires T.Consistent(s.tables)
    ensures WellScoped(s, Next(s, step, sha), Mover(step), ScopeOf(s, step))
  {
  }

  // The mover, by kind of step.

  lemma BeginKeepsMover(s: Sys, tid: nat, share: string, stage: string, sha: F.Content -> string)
    requires ThreadOk(s, tid, sha) && ShareOk(s, share, sha) && StagerOk(s, stage)
    ensures ThreadOk(BeginUploadStep(s, tid, share, stage), tid, sha)
  {
    assert RowsOf(map[], sha) == map[];
  }

  lemma WriteKeepsMover(s: Sys, tid: nat, res: string, body: F.Content, sha: F.Content -> string)
    requires ThreadOk(s, tid, sha) && InTime(s, Write(tid, res, body))
    ensures ThreadOk(WriteStep(s, tid, res, body, sha), tid, sha)
  {
    var s' := WriteStep(s, tid, res, body, sha);
    if tid in s.threads && s.threads[tid].Writing? && s'.threads[tid].Writing? {
      var stage := s.threads[tid].stage;
      assert RowsOf(s'.tree.staging[stage].files, sha)
          == RowsOf(s.tree.staging[stage].files, sha)[res := T.Metadata(|body|, sha(body))];
    }
  }

  lemma MakeDirKeepsMover(s: Sys, tid: nat, sha: F.Content -> string)
    requires ThreadOk(s, tid, sha)
    ensures ThreadOk(MakeDirStep(s, tid), tid, sha)
  {
  }

  lemma MoveInKeepsMover(s: Sys, tid: nat, commitFails: Option<F.CommitStep>, sha: F.Content -> string)
    requires ThreadOk(s, tid, sha) && InTime(s, MoveIn(tid, commitFails))
    ensures ThreadOk(MoveInStep(s, tid, commitFails), tid, sha)
  {
  }

  lemma InsertKeepsMover(s: Sys, step: Step, sha: F.Content -> string)
    requires step.Insert? && ThreadOk(s, step.tid, sha)
    ensures ThreadOk(Next(s, step, sha), step.tid, sha)
  {
  }

  lemma SweepKeepsMover(s: Sys, tid: nat, pick: string, fails: bool, sha: F.Content -> string)
    requires tid in s.threads && s.threads[tid].Sweeping? && ThreadOk(s, tid, sha)
    requires ShareOk(s, pick, sha) && UploaderOk(s, pick) && StagerOk(s, pick)
    requires pick in s.uploader ==> ThreadOk(s, s.uploader[pick], sha)
    requires pick in s.stager ==> ThreadOk(s, s.stager[pick], sha)
    ensures ThreadOk(SweepStep(s, tid, pick, fails), tid, sha)
  {
  }

  lemma SweepGoesOn(s: Sys, tid: nat, pick: string, fails: bool, sha: F.Content -> string)
    requires tid in s.threads && ThreadOk(s, tid, sha)
    requires s.threads[tid].SweepDeleting? || s.threads[tid].StageDeleting?
    ensures ThreadOk(ProceedStep(s, tid, pick, fails), tid, sha)
  {
  }

  lemma PassKeepsMover(s: Sys, tid: nat, pick: string, fails: bool, sha: F.Content -> string)
    requires tid in s.threads && ThreadOk(s, tid, sha) && InPass(s.threads[tid])
    ensures ThreadOk(ProceedStep(s, tid, pick, fails), tid, sha)
  {
  }

  lemma ProceedKeepsMover(s: Sys, tid: nat, pick: string, fails: bool, sha: F.Content -> string)
    requires tid in s.threads && ThreadOk(s, tid, sha) && !s.threads[tid].Sweeping?
    ensures ThreadOk(ProceedStep(s, tid, pick, fails), tid, sha)
  {
    var t := s.threads[tid];
    if InPass(t) {
      PassKeepsMover(s, tid, pick, fails, sha);
    } else if InSweep(t) {
      SweepGoesOn(s, tid, pick, fails, sha);
    }
  }

  lemma RemoveSomeKeepsMover(s: Sys, tid: nat, kept: set<string>, sha: F.Content -> string)
    requires tid in s.threads && ThreadOk(s, tid, sha)
    ensures ThreadOk(RemoveSomeStep(s, tid, kept), tid, sha)
  {
  }

  lemma RevokeKeepsMover(s: Sys, tid: nat, share: string, owner: string, sha: F.Content -> string)
    requires ThreadOk(s, tid, sha) && tid !in s.threads
    ensures ThreadOk(RevokeStep(s, tid, share, owner), tid, sha)
  {
  }

  lemma ProceedStepKeepsMover(s: Sys, tid: nat, pick: string, fails: bool, sha: F.Content -> string)
    requires Inv(s, sha) && tid in s.threads
    ensures ThreadOk(ProceedStep(s, tid, pick, fails), tid, sha)
  {
    assert ThreadOk(s, tid, sha);
    if s.threads[tid].Sweeping? {
      assert ShareOk(s, pick, sha) && UploaderOk(s, pick) && StagerOk(s, pick);
      if pick in s.uploader { assert ThreadOk(s, s.uploader[pick], sha); }
      if pick in s.stager { assert ThreadOk(s, s.stager[pick], sha); }
      SweepKeepsMover(s, tid, pick, fails, sha);
    } else {
      ProceedKeepsMover(s, tid, pick, fails, sha);
    }
  }

  lemma StepKeepsMover(s: Sys, step: Step, tid: nat, sha: F.Content -> string)
    requires Inv(s, sha) && InTime(s, step) && Mover(step) == Some(tid)
    ensures ThreadOk(Next(s, step, sha), tid, sha)
  {
    assert ThreadOk(s, tid, sha);
    match step
    case Proceed(_, pick, fails) => if tid in s.threads { ProceedStepKeepsMover(s, tid, pick, fails, sha); }
    case RemoveSome(_, kept) => if tid in s.threads { RemoveSomeKeepsMover(s, tid, kept, sha); }
    case StartRevoke(_, share, owner) => if tid !in s.threads { RevokeKeepsMover(s, tid, share, owner, sha); }
    case StartPass(_) =>
    case BeginUpload(_, share, stage) =>
      assert ShareOk(s, share, sha) && StagerOk(s, stage);
      BeginKeepsMover(s, tid, share, stage, sha);
    case Write(_, res, body) => WriteKeepsMover(s, tid, res, body, sha);
    case MakeDir(_) => MakeDirKeepsMover(s, tid, sha);
    case MoveIn(_, commitFails) => MoveInKeepsMover(s, tid, commitFails, sha);
    case Insert(_, _, _, _, _, _) => InsertKeepsMover(s, step, sha);
  }

  lemma StepKeepsThread(s: Sys, step: Step, tid: nat, sha: F.Content -> string)
    requires Inv(s, sha) && InTime(s, step)
    ensures ThreadOk(Next(s, step, sha), tid, sha)
  {
    if Mover(step) == Some(tid) {
      StepKeepsMover(s, step, tid, sha);
    } else if tid in s.threads {
      assert ThreadOk(s, tid, sha);
      StepStaysWithin(s, step, sha);
      StepIsWellScoped(s, step, sha);
      StepMovesForward(s, step, sha);
      OtherThreadKept(s, Next(s, step, sha), Mover(step), ScopeOf(s, step), tid, sha);
    } else {
      StepMovesOne(s, step, sha);
    }
  }

  lemma OtherShareKept(s: Sys, s': Sys, m: Option<nat>, scope: Scope, id: string, sha: F.Content -> string)
    requires ShareOk(s, id, sha) && Some(id) != scope.own
    requires Within(s, s', scope) && WellScoped(s, s', m, scope) && OthersSame(s, s', m)
    ensures ShareOk(s', id, sha)
  {
  }

  lemma OwnShareKept(s: Sys, step: Step, id: string, sha: F.Content -> string)
    requires Mover(step).Some? && Mover(step).value in s.threads && InTime(s, step)
    requires ThreadOk(s, Mover(step).value, sha) && ShareOk(s, id, sha) && T.Consistent(s.tables)
    requires ScopeOf(s, step).own == Some(id)
    ensures ShareOk(Next(s, step, sha), id, sha)
  {
  }

  lemma StepKeepsShare(s: Sys, step: Step, id: string, sha: F.Content -> string)
    requires Inv(s, sha) && InTime(s, step)
    ensures ShareOk(Next(s, step, sha), id, sha)
  {
    assert ShareOk(s, id, sha);
    if ScopeOf(s, step).own == Some(id) {
      assert ThreadOk(s, Mover(step).value, sha);
      OwnShareKept(s, step, id, sha);
    } else {
      StepStaysWithin(s, step, sha);
      StepIsWellScoped(s, step, sha);
      StepMovesForward(s, step, sha);
      OtherShareKept(s, Next(s, step, sha), Mover(step), ScopeOf(s, step), id, sha);
    }
  }

  lemma BeginKeepsGivers(s: Sys, tid: nat, share: string, stage: string, id: string)
    requires UploaderOk(s, id) && StagerOk(s, id)
    ensures UploaderOk(BeginUploadStep(s, tid, share, stage), id) && StagerOk(BeginUploadStep(s, tid, share, stage), id)
  {
  }

  lemma MoveInKeepsGivers(s: Sys, tid: nat, commitFails: Option<F.CommitStep>, id: string, sha: F.Content -> string)
    requires UploaderOk(s, id) && StagerOk(s, id) && ThreadOk(s, tid, sha)
    ensures UploaderOk(MoveInStep(s, tid, commitFails), id) && StagerOk(MoveInStep(s, tid, commitFails), id)
  {
  }

  /** An upload keeps its share, and its stage while it has one. */
  predicate KeepsPlace(t: Thread, t': Thread) {
    && (t'.Writing? || t'.Committing? || t'.Inserting? || t'.Undoing? ==>
          (t.Writing? || t.Committing? || t.Inserting? || t.Undoing?) && t'.share == t.share)
    && (t'.Writing? || t'.Committing? ==> (t.Writing? || t.Committing?) && t'.stage == t.stage)
  }

  /** What no step but the beginning of an upload and a rename does otherwise. */
  ghost predicate KeepsPlaces(s: Sys, s': Sys, tid: nat) {
    && s'.uploader == s.uploader && s'.stager == s.stager && s'.placed == s.placed
    && s'.tree.staging.Keys <= s.tree.staging.Keys
    && MovesOnly(s, s', tid)
    && (tid in s.threads ==> tid in s'.threads && KeepsPlace(s.threads[tid], s'.threads[tid]))
  }

  lemma GiversKept(s: Sys, s': Sys, tid: nat, id: string)
    requires UploaderOk(s, id) && StagerOk(s, id) && KeepsPlaces(s, s', tid)
    ensures UploaderOk(s', id) && StagerOk(s', id)
  {
  }

  lemma ProceedKeepsPlaces(s: Sys, s': Sys, tid: nat)
    requires Proceeds(s, s', tid)
    ensures KeepsPlaces(s, s', tid)
  {
  }

  lemma WriteKeepsPlaces(s: Sys, tid: nat, res: string, body: F.Content, sha: F.Content -> string)
    ensures KeepsPlaces(s, WriteStep(s, tid, res, body, sha), tid)
  {
  }

  lemma RemoveSomeKeepsPlaces(s: Sys, tid: nat, kept: set<string>)
    ensures KeepsPlaces(s, RemoveSomeStep(s, tid, kept), tid)
  {
  }

  lemma MakeDirKeepsPlaces(s: Sys, tid: nat)
    ensures KeepsPlaces(s, MakeDirStep(s, tid), tid)
  {
  }

  lemma OthersKeepPlaces(s: Sys, step: Step, sha: F.Content -> string)
    requires step.Insert? || step.StartRevoke? || step.StartPass?
    ensures KeepsPlaces(s, Next(s, step, sha), step.tid)
  {
  }

  lemma StepKeepsGivers(s: Sys, step: Step, id: string, sha: F.Content -> string)
    requires UploaderOk(s, id) && StagerOk(s, id)
    requires step.MoveIn? ==> ThreadOk(s, step.tid, sha)
    ensures UploaderOk(Next(s, step, sha), id) && StagerOk(Next(s, step, sha), id)
  {
    match step
    case Tick(_) =>
    case Visit(_, _, _) =>
    case BeginUpload(tid, share, stage) => BeginKeepsGivers(s, tid, share, stage, id);
    case MoveIn(tid, commitFails) => MoveInKeepsGivers(s, tid, commitFails, id, sha);
    case Proceed(tid, pick, fails) =>
      if tid in s.threads {
        ProceedProceeds(s, tid, pick, fails);
        ProceedKeepsPlaces(s, ProceedStep(s, tid, pick, fails), tid);
        GiversKept(s, ProceedStep(s, tid, pick, fails), tid, id);
      }
    case Write(tid, res, body) =>
      WriteKeepsPlaces(s, tid, res, body, sha);
      GiversKept(s, WriteStep(s, tid, res, body, sha), tid, id);
    case RemoveSome(tid, kept) =>
      RemoveSomeKeepsPlaces(s, tid, kept);
      GiversKept(s, RemoveSomeStep(s, tid, kept), tid, id);
    case MakeDir(tid) =>
      MakeDirKeepsPlaces(s, tid);
      GiversKept(s, MakeDirStep(s, tid), tid, id);
    case _ =>
      OthersKeepPlaces(s, step, sha);
      GiversKept(s, Next(s, step, sha), step.tid, id);
  }

  lemma StepKeepsInv(s: Sys, step: Step, sha: F.Content -> string)
    requires Inv(s, sha) && InTime(s, step)
    ensures Inv(Next(s, step, sha), sha)
  {
    var s' := Next(s, step, sha);
    StepRunsTableOp(s, step, sha);
    if TableOp(s, step).Some? { T.ApplyKeepsConsistent(s.tables, TableOp(s, step).value); }
    forall id
      ensures UploaderOk(s', id) && StagerOk(s', id)
    {
      assert UploaderOk(s, id) && StagerOk(s, id);
      if step.MoveIn? { assert ThreadOk(s, step.tid, sha); }
      StepKeepsGivers(s, step, id, sha);
    }
    forall id ensures ShareOk(s', id, sha) { StepKeepsShare(s, step, id, sha); }
    forall tid ensures ThreadOk(s', tid, sha) { StepKeepsThread(s, step, tid, sha); }
  }

  lemma TimelyIsInTime(s: Sys, step: Step, timing: Timing, sha: F.Content -> string)
    requires Inv(s, sha) && Sufficient(timing) && Timely(s, step, timing)
    ensures InTime(s, step)
  {
    if step.Insert? { assert ThreadOk(s, step.tid, sha); }
  }

  lemma {:induction false} RunKeepsInv(clock: int, steps: seq<Step>, timing: Timing, sha: F.Content -> string)
    requires Sufficient(timing) && AllTimely(Start(clock), steps, timing, sha)
    ensures Inv(Run(Start(clock), steps, sha), sha)
  {
    if steps != [] {
      var n := |steps| - 1;
      forall i | 0 <= i < n
        ensures Timely(Run(Start(clock), steps[..n][..i], sha), steps[..n][i], timing)
      {
        assert steps[..n][..i] == steps[..i];
      }
      RunKeepsInv(clock, steps[..n], timing, sha);
      TimelyIsInTime(Run(Start(clock), steps[..n], sha), steps[n], timing, sha);
      StepKeepsInv(Run(Start(clock), steps[..n], sha), steps[n], sha);
    }
  }

  // ---------------------------------------------------------------- the main results

  /** In every run with sufficient timing: an attachment that can be read now has its file, with the
      recorded size and hash. */
  lemma ReadableResourceHasItsFile(
    clock: int, steps: seq<Step>, timing: Timing, sha: F.Content -> string, id: string, res: string, presented: T.Hash)
    requires Sufficient(timing) && AllTimely(Start(clock), steps, timing, sha)
    requires var s := Run(Start(clock), steps, sha);
             T.ReadResource(s.tables, id, res, s.clock, presented).Some?
    ensures var s := Run(Start(clock), steps, sha);
            var row := T.ReadResource(s.tables, id, res, s.clock, presented).value;
            F.Verifies(s.tree, id, res, row.size, row.sha256, sha)
  {
    RunKeepsInv(clock, steps, timing, sha);
    var s := Run(Start(clock), steps, sha);
    assert ShareOk(s, id, sha);
    var c := s.tables.claims;
    if id in c { T.RoundingIsInvisible(c[id].expiresAt, s.clock); }
  }

  lemma TargetIsUnreadable(s: Sys, tid: nat, sha: F.Content -> string, res: string, presented: T.Hash)
    requires Inv(s, sha) && tid in s.threads && Target(s, s.threads[tid]).Some?
    ensures T.ReadResource(s.tables, Target(s, s.threads[tid]).value, res, s.clock, presented).None?
  {
    assert ThreadOk(s, tid, sha);
    var id := Target(s, s.threads[tid]).value;
    assert ShareOk(s, id, sha);
    if Dead(s.tables, id, s.clock) { DeadIsUnreadable(s.tables, id, s.clock, res, presented); }
  }

  /** Files are only ever taken from a share when none of its attachments can be read. */
  lemma OnlyUnreadableSharesAreRemoved(
    clock: int, steps: seq<Step>, timing: Timing, sha: F.Content -> string, tid: nat, res: string, presented: T.Hash)
    requires Sufficient(timing) && AllTimely(Start(clock), steps, timing, sha)
    requires var s := Run(Start(clock), steps, sha); tid in s.threads && Target(s, s.threads[tid]).Some?
    ensures var s := Run(Start(clock), steps, sha);
            T.ReadResource(s.tables, Target(s, s.threads[tid]).value, res, s.clock, presented).None?
  {
    RunKeepsInv(clock, steps, timing, sha);
    TargetIsUnreadable(Run(Start(clock), steps, sha), tid, sha, res, presented);
  }

  lemma DeadIsUnreadable(t: T.Tables, id: string, clock: int, res: string, presented: T.Hash)
    requires T.Consistent(t) && Dead(t, id, clock)
    ensures T.ReadResource(t, id, res, clock, presented).None?
  {
    if id in t.claims { T.RoundingIsInvisible(t.claims[id].expiresAt, clock); }
  }
}
