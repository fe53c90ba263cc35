/** Exactly how slow an upload may be. The guarantee of `ShareLifecycle` holds for a bound on timing if
    and only if the bound is sufficient; the runs below break it for every other bound. */
module ShareTiming {
  import opened Prelude
  import opened ShareLifecycle
  import T = ShareTables
  import F = ShareFiles

  /** Whatever can be read now has its file, with the recorded size and hash. */
  ghost predicate ReadableHasItsFile(s: Sys, sha: F.Content -> string) {
    forall id, res, presented ::
      T.ReadResource(s.tables, id, res, s.clock, presented).Some? ==>
        var row := T.ReadResource(s.tables, id, res, s.clock, presented).value;
        F.Verifies(s.tree, id, res, row.size, row.sha256, sha)
  }

  ghost predicate Guarantee(timing: Timing, sha: F.Content -> string) {
    forall clock, steps ::
      AllTimely(Start(clock), steps, timing, sha) ==> ReadableHasItsFile(Run(Start(clock), steps, sha), sha)
  }

  // ---------------------------------------------------------------- building runs

  /** A run of these steps keeps the bound and leads to this state. */
  ghost predicate Reaches(steps: seq<Step>, s: Sys, timing: Timing, sha: F.Content -> string) {
    Run(Start(0), steps, sha) == s && AllTimely(Start(0), steps, timing, sha)
  }

  lemma Extend(steps: seq<Step>, s: Sys, step: Step, timing: Timing, sha: F.Content -> string)
    requires Reaches(steps, s, timing, sha) && Timely(s, step, timing)
    ensures Reaches(steps + [step], Next(s, step, sha), timing, sha)
  {
    var more := steps + [step];
    assert more[..|steps|] == steps;
    forall i | 0 <= i < |more|
      ensures Timely(Run(Start(0), more[..i], sha), more[i], timing)
    {
      if i < |steps| {
        assert more[..i] == steps[..i];
      }
    }
  }

  lemma PutPut(s: Sys, tid: nat, t: Thread, t': Thread)
    ensures Put(Put(s, tid, t), tid, t') == Put(s, tid, t')
  {
    assert Put(Put(s, tid, t), tid, t').threads == Put(s, tid, t').threads;
  }

  function FileRows(sha: F.Content -> string): Rows {
    map["file" := T.Metadata(0, sha([]))]
  }

  const FILES: F.Files := map["file" := []]

  /** One upload of one empty file. */
  function Upload(clock: int, staging: map<string, F.StageDir>, shares: map<string, F.ShareDir>, t: Thread): Sys {
    Sys(clock, T.EMPTY, F.Tree(staging, shares), map[0 := t], map["share" := 0], map["stage" := 0], map[])
  }

  const STAGED := map["stage" := F.StageDir(0, FILES)]

  /** The upload has written its one file and not committed yet. */
  function Written(sha: F.Content -> string): Sys {
    Upload(0, STAGED, map[], Writing("share", "stage", 0, FileRows(sha)))
  }

  lemma Stage(timing: Timing, sha: F.Content -> string) returns (steps: seq<Step>)
    ensures Reaches(steps, Written(sha), timing, sha)
    ensures forall step <- steps :: !step.Proceed?
  {
    Extend([], Start(0), BeginUpload(0, "share", "stage"), timing, sha);
    var begun := Upload(0, map["stage" := F.StageDir(0, map[])], map[], Writing("share", "stage", 0, map[]));
    assert BeginUploadStep(Start(0), 0, "share", "stage") == begun;
    steps := [] + [BeginUpload(0, "share", "stage")];
    Extend(steps, begun, Write(0, "file", []), timing, sha);
    var written := WriteStep(begun, 0, "file", [], sha);
    assert written.tree.staging == STAGED;
    assert written.threads == map[0 := Writing("share", "stage", 0, FileRows(sha))];
    steps := steps + [Write(0, "file", [])];
  }

  /** One step of the pass, which thread 1 runs beside the upload. */
  lemma PassStep(
    steps: seq<Step>, s: Sys, t: Thread, pick: string, t': Thread, timing: Timing, sha: F.Content -> string)
    requires Reaches(steps, Put(s, 1, t), timing, sha)
    requires ProceedStep(Put(s, 1, t), 1, pick, false) == Put(Put(s, 1, t), 1, t')
    ensures Reaches(steps + [Proceed(1, pick, false)], Put(s, 1, t'), timing, sha)
  {
    Extend(steps, Put(s, 1, t), Proceed(1, pick, false), timing, sha);
    PutPut(s, 1, t, t');
  }

  lemma NothingSelected(now: int)
    ensures T.CleanupIds(T.EMPTY, now) == {} && T.EMPTY.resources.Keys == {}
  {
  }

  lemma PassTurns(s: Sys)
    requires s.tables == T.EMPTY
    ensures var now := s.clock;
            var a, b, c, d := PassSelecting(now), PassChoosing(now, {}), PassListing(now), Sweeping(now, {});
            && ProceedStep(Put(s, 1, a), 1, "", false) == Put(Put(s, 1, a), 1, b)
            && ProceedStep(Put(s, 1, b), 1, "", false) == Put(Put(s, 1, b), 1, c)
            && ProceedStep(Put(s, 1, c), 1, "", false) == Put(Put(s, 1, c), 1, d)
  {
    NothingSelected(s.clock);
  }

  const TURN := Proceed(1, "", false)

  /** The pass up to its sweep, while nothing is selected and no share has rows. */
  lemma Pass(before: seq<Step>, s: Sys, timing: Timing, sha: F.Content -> string)
    requires Reaches(before, s, timing, sha) && s.tables == T.EMPTY && 1 !in s.threads
    ensures Reaches(before + [StartPass(1)] + [TURN] + [TURN] + [TURN], Put(s, 1, Sweeping(s.clock, {})), timing, sha)
  {
    var now := s.clock;
    PassTurns(s);
    Extend(before, s, StartPass(1), timing, sha);
    PassStep(before + [StartPass(1)], s, PassSelecting(now), "", PassChoosing(now, {}), timing, sha);
    PassStep(before + [StartPass(1)] + [TURN], s, PassChoosing(now, {}), "", PassListing(now), timing, sha);
    PassStep(before + [StartPass(1)] + [TURN] + [TURN], s, PassListing(now), "", Sweeping(now, {}), timing, sha);
  }

  /** The attachment can be read and its file is gone. */
  predicate Lost(s: Sys) {
    T.ReadResource(s.tables, "share", "file", s.clock, []).Some? && F.Find(s.tree, "share", "file").None?
  }

  const INSERT := Insert(0, "owner", 0, None, false, false)

  lemma InsertMakesReadable(s: Sys, sha: F.Content -> string)
    requires s.tables == T.EMPTY && 0 in s.threads && s.threads[0].Inserting?
    requires s.threads[0].share == "share" && s.threads[0].rows == FileRows(sha)
    ensures var s' := Next(s, INSERT, sha);
            && T.ReadResource(s'.tables, "share", "file", s'.clock, []).Some?
            && s'.tree == s.tree && s'.clock == s.clock && s'.threads == s.threads[0 := Done]
  {
    assert "file" in FileRows(sha);
  }

  // ---------------------------------------------------------------- the runs

  function PassSteps(): seq<Step> { [StartPass(1), TURN, TURN, TURN] }

  lemma PassOnce(before: seq<Step>, s: Sys, timing: Timing, sha: F.Content -> string)
    requires Reaches(before, s, timing, sha) && s.tables == T.EMPTY && 1 !in s.threads
    ensures Reaches(before + PassSteps(), Put(s, 1, Sweeping(s.clock, {})), timing, sha)
  {
    Pass(before, s, timing, sha);
    assert before + [StartPass(1)] + [TURN] + [TURN] + [TURN] == before + PassSteps();
  }

  lemma Thins(s: Sys)
    requires s.placed == map[]
    ensures var t := Put(s, 1, StageDeleting(s.clock, {}, "stage"));
            RemoveSomeStep(t, 1, {}) == ThinStage(t, "stage", {})
  {
  }

  /** The pass takes the file from an old stage. */
  lemma ThinStageAt(before: seq<Step>, s: Sys, timing: Timing, sha: F.Content -> string) returns (steps: seq<Step>)
    requires Reaches(before, Put(s, 1, Sweeping(s.clock, {})), timing, sha)
    requires s.tree.staging == STAGED && 0 < s.clock - HOUR && s.placed == map[]
    ensures Reaches(steps, ThinStage(Put(s, 1, StageDeleting(s.clock, {}, "stage")), "stage", {}), timing, sha)
  {
    var deleting := StageDeleting(s.clock, {}, "stage");
    Thins(s);
    PassStep(before, s, Sweeping(s.clock, {}), "stage", deleting, timing, sha);
    Extend(before + [Proceed(1, "stage", false)], Put(s, 1, deleting), RemoveSome(1, {}), timing, sha);
    steps := before + [Proceed(1, "stage", false)] + [RemoveSome(1, {})];
  }

  /** A stage left alone for more than an hour: a pass takes the file from it, then the upload
      renames it and inserts its rows at once. */
  lemma SlowStage(timing: Timing, sha: F.Content -> string) returns (steps: seq<Step>)
    requires timing.stage > HOUR
    ensures AllTimely(Start(0), steps, timing, sha) && Lost(Run(Start(0), steps, sha))
  {
    var now := HOUR + 1;
    var writing := Writing("share", "stage", 0, FileRows(sha));
    steps := Stage(timing, sha);
    Extend(steps, Upload(0, STAGED, map[], writing), Tick(now), timing, sha);
    var s := Upload(now, STAGED, map[], writing);
    PassOnce(steps + [Tick(now)], s, timing, sha);
    steps := ThinStageAt(steps + [Tick(now)] + PassSteps(), s, timing, sha);
    steps := CommitThinned(steps, ThinStage(Put(s, 1, StageDeleting(now, {}, "stage")), "stage", {}), timing, sha);
  }

  lemma CommitThinned(before: seq<Step>, s: Sys, timing: Timing, sha: F.Content -> string) returns (steps: seq<Step>)
    requires Reaches(before, s, timing, sha) && s.tables == T.EMPTY && s.tree.shares == map[]
    requires 0 in s.threads && s.threads[0] == Writing("share", "stage", 0, FileRows(sha)) && s.clock <= timing.stage
    requires "stage" in s.tree.staging && s.tree.staging["stage"].files == map[]
    ensures AllTimely(Start(0), steps, timing, sha) && Lost(Run(Start(0), steps, sha))
  {
    Extend(before, s, MakeDir(0), timing, sha);
    var made := MakeDirStep(s, 0);
    Extend(before + [MakeDir(0)], made, MoveIn(0, None), timing, sha);
    steps := InsertUnswept(before + [MakeDir(0)] + [MoveIn(0, None)], MoveInStep(made, 0, None), timing, sha);
  }

  const PICKED: seq<Step> := [StartPass(1), TURN, TURN, TURN, Proceed(1, "share", false)]

  /** A pass up to the point where it is about to take the share directory apart. */
  lemma PassPicksShare(before: seq<Step>, s: Sys, timing: Timing, sha: F.Content -> string)
    requires Reaches(before, s, timing, sha) && s.tables == T.EMPTY && 1 !in s.threads
    requires "share" in s.tree.shares && s.tree.shares["share"].modified < s.clock - HOUR && "share" !in s.tree.staging
    ensures Reaches(before + PICKED, Put(s, 1, SweepDeleting(s.clock, {}, "share")), timing, sha)
  {
    PassOnce(before, s, timing, sha);
    PassStep(before + PassSteps(), s, Sweeping(s.clock, {}), "share", SweepDeleting(s.clock, {}, "share"), timing, sha);
    assert before + PassSteps() + [Proceed(1, "share", false)] == before + PICKED;
  }

  /** The upload up to its rename, all at once. */
  lemma Moved(timing: Timing, sha: F.Content -> string) returns (steps: seq<Step>)
    ensures var s := MoveInStep(MakeDirStep(Written(sha), 0), 0, None);
            Reaches(steps, s, timing, sha)
  {
    steps := Made(timing, sha);
    var s := MakeDirStep(Written(sha), 0);
    Extend(steps, s, MoveIn(0, None), timing, sha);
    steps := steps + [MoveIn(0, None)];
  }

  lemma MovedState(sha: F.Content -> string)
    ensures var s := MoveInStep(MakeDirStep(Written(sha), 0), 0, None);
            && s.tables == T.EMPTY && s.clock == 0 && s.threads == map[0 := Inserting("share", 0, 0, FileRows(sha))]
            && s.tree.shares == map["share" := F.ShareDir(0, Some(FILES))] && s.tree.staging == map[]
  {
  }

  /** Rows more than an hour after the rename: a pass sweeps the share as an orphan before. */
  lemma SlowRows(timing: Timing, sha: F.Content -> string) returns (steps: seq<Step>)
    requires timing.fromMkdir > HOUR && timing.fromRename > HOUR
    ensures AllTimely(Start(0), steps, timing, sha) && Lost(Run(Start(0), steps, sha))
  {
    var now := HOUR + 1;
    steps := Moved(timing, sha);
    MovedState(sha);
    var moved := MoveInStep(MakeDirStep(Written(sha), 0), 0, None);
    Extend(steps, moved, Tick(now), timing, sha);
    steps := SlowInsert(steps + [Tick(now)], moved.(clock := now), timing, sha);
  }

  lemma SlowInsert(before: seq<Step>, s: Sys, timing: Timing, sha: F.Content -> string) returns (steps: seq<Step>)
    requires Reaches(before, s, timing, sha) && s.tables == T.EMPTY && s.clock == HOUR + 1
    requires s.threads == map[0 := Inserting("share", 0, 0, FileRows(sha))]
    requires s.tree.shares == map["share" := F.ShareDir(0, Some(FILES))] && s.tree.staging == map[]
    requires timing.fromMkdir > HOUR && timing.fromRename > HOUR
    ensures AllTimely(Start(0), steps, timing, sha) && Lost(Run(Start(0), steps, sha))
  {
    PassPicksShare(before, s, timing, sha);
    steps := InsertSwept(before + PICKED, Put(s, 1, SweepDeleting(s.clock, {}, "share")), timing, sha);
  }

  lemma InsertSwept(before: seq<Step>, s: Sys, timing: Timing, sha: F.Content -> string) returns (steps: seq<Step>)
    requires Reaches(before, s, timing, sha) && s.tables == T.EMPTY
    requires s.tree.shares == map["share" := F.ShareDir(0, Some(FILES))]
    requires 0 in s.threads && s.threads[0] == Inserting("share", 0, 0, FileRows(sha))
    requires 1 in s.threads && s.threads[1] == SweepDeleting(s.clock, {}, "share")
    requires s.clock <= timing.fromMkdir && s.clock <= timing.fromRename
    ensures AllTimely(Start(0), steps, timing, sha) && Lost(Run(Start(0), steps, sha))
  {
    Extend(before, s, TURN, timing, sha);
    steps := InsertUnswept(before + [TURN], ProceedStep(s, 1, "", false), timing, sha);
  }

  lemma InsertUnswept(before: seq<Step>, s: Sys, timing: Timing, sha: F.Content -> string) returns (steps: seq<Step>)
    requires Reaches(before, s, timing, sha) && s.tables == T.EMPTY && F.Find(s.tree, "share", "file").None?
    requires 0 in s.threads && s.threads[0].Inserting?
    requires s.threads[0].share == "share" && s.threads[0].rows == FileRows(sha) && Timely(s, INSERT, timing)
    ensures AllTimely(Start(0), steps, timing, sha) && Lost(Run(Start(0), steps, sha))
  {
    Extend(before, s, INSERT, timing, sha);
    InsertMakesReadable(s, sha);
    steps := before + [INSERT];
  }

  /** No pass ever looks at the stage. */
  predicate SparesStage(steps: seq<Step>) {
    forall step <- steps :: step.Proceed? ==> step.pick != "stage"
  }

  /** The upload up to its mkdir, all at once. */
  lemma Made(timing: Timing, sha: F.Content -> string) returns (steps: seq<Step>)
    ensures Reaches(steps, MakeDirStep(Written(sha), 0), timing, sha)
    ensures forall step <- steps :: !step.Proceed?
  {
    steps := Stage(timing, sha);
    Extend(steps, Written(sha), MakeDir(0), timing, sha);
    steps := steps + [MakeDir(0)];
  }

  lemma MadeLate(timing: Timing, sha: F.Content -> string) returns (steps: seq<Step>)
    ensures var s := MakeDirStep(Written(sha), 0);
            Reaches(steps, s.(clock := HOUR + 1), timing, sha)
    ensures SparesStage(steps)
  {
    steps := Made(timing, sha);
    var s := MakeDirStep(Written(sha), 0);
    Extend(steps, s, Tick(HOUR + 1), timing, sha);
    steps := steps + [Tick(HOUR + 1)];
  }

  lemma SparedThroughout(before: seq<Step>)
    requires SparesStage(before)
    ensures SparesStage(before + PICKED + [MoveIn(0, None)] + [INSERT] + [TURN])
  {
  }

  /** A rename more than an hour after the mkdir, with rows at once and no stage ever swept: the pass
      picked the share directory while it was still empty. So a bound that counts from the rename
      only does not do without the one on the stage. */
  lemma SlowRename(timing: Timing, sha: F.Content -> string) returns (steps: seq<Step>)
    requires timing.stage > HOUR && timing.fromMkdir > HOUR
    ensures AllTimely(Start(0), steps, timing, sha) && Lost(Run(Start(0), steps, sha))
    ensures SparesStage(steps)
  {
    var before := MadeLate(timing, sha);
    SparedThroughout(before);
    var s := MakeDirStep(Written(sha), 0);
    steps := SlowMoveIn(before, s.(clock := HOUR + 1), timing, sha);
  }

  lemma SlowMoveIn(before: seq<Step>, s: Sys, timing: Timing, sha: F.Content -> string) returns (steps: seq<Step>)
    requires Reaches(before, s, timing, sha) && s.tables == T.EMPTY && s.clock == HOUR + 1
    requires s.threads == map[0 := Committing("share", "stage", 0, 0, FileRows(sha))]
    requires s.tree.shares == map["share" := F.ShareDir(0, None)] && s.tree.staging == STAGED
    requires timing.stage > HOUR && timing.fromMkdir > HOUR
    ensures AllTimely(Start(0), steps, timing, sha) && Lost(Run(Start(0), steps, sha))
    ensures steps == before + PICKED + [MoveIn(0, None)] + [INSERT] + [TURN]
  {
    PassPicksShare(before, s, timing, sha);
    steps := MoveInPicked(before + PICKED, Put(s, 1, SweepDeleting(s.clock, {}, "share")), timing, sha);
  }

  lemma MoveInPicked(before: seq<Step>, s: Sys, timing: Timing, sha: F.Content -> string) returns (steps: seq<Step>)
    requires Reaches(before, s, timing, sha) && s.tables == T.EMPTY && s.tree.staging == STAGED
    requires s.tree.shares == map["share" := F.ShareDir(0, None)]
    requires 0 in s.threads && s.threads[0] == Committing("share", "stage", 0, 0, FileRows(sha))
    requires 1 in s.threads && s.threads[1] == SweepDeleting(s.clock, {}, "share")
    requires s.clock <= timing.stage && s.clock <= timing.fromMkdir
    ensures AllTimely(Start(0), steps, timing, sha) && Lost(Run(Start(0), steps, sha))
    ensures steps == before + [MoveIn(0, None)] + [INSERT] + [TURN]
  {
    Extend(before, s, MoveIn(0, None), timing, sha);
    steps := InsertPicked(before + [MoveIn(0, None)], MoveInStep(s, 0, None), timing, sha);
  }

  lemma InsertPicked(before: seq<Step>, s: Sys, timing: Timing, sha: F.Content -> string) returns (steps: seq<Step>)
    requires Reaches(before, s, timing, sha) && s.tables == T.EMPTY
    requires 0 in s.threads && s.threads[0] == Inserting("share", 0, s.clock, FileRows(sha))
    requires 1 in s.threads && s.threads[1] == SweepDeleting(s.clock, {}, "share")
    requires s.clock <= timing.fromMkdir
    ensures AllTimely(Start(0), steps, timing, sha) && Lost(Run(Start(0), steps, sha))
    ensures steps == before + [INSERT] + [TURN]
  {
    Extend(before, s, INSERT, timing, sha);
    InsertMakesReadable(s, sha);
    RemoveReadable(before + [INSERT], Next(s, INSERT, sha), timing, sha);
    steps := before + [INSERT] + [TURN];
  }

  lemma RemoveReadable(before: seq<Step>, s: Sys, timing: Timing, sha: F.Content -> string)
    requires Reaches(before, s, timing, sha)
    requires T.ReadResource(s.tables, "share", "file", s.clock, []).Some?
    requires 1 in s.threads && s.threads[1] == SweepDeleting(s.clock, {}, "share")
    ensures AllTimely(Start(0), before + [TURN], timing, sha) && Lost(Run(Start(0), before + [TURN], sha))
  {
    Extend(before, s, TURN, timing, sha);
  }

  // ---------------------------------------------------------------- the exact bound

  lemma LostBreaksGuarantee(steps: seq<Step>, timing: Timing, sha: F.Content -> string)
    requires AllTimely(Start(0), steps, timing, sha) && Lost(Run(Start(0), steps, sha))
    ensures !Guarantee(timing, sha)
  {
    assert !ReadableHasItsFile(Run(Start(0), steps, sha), sha);
  }

  /** Every run within a bound on timing keeps the guarantee if and only if the bound allows no gap of
      more than an hour on a stage, and no more than an hour from the mkdir or from the rename to the
      rows. */
  lemma TimingIsExact(timing: Timing, sha: F.Content -> string)
    ensures Guarantee(timing, sha) <==> Sufficient(timing)
  {
    if Sufficient(timing) {
      forall clock, steps | AllTimely(Start(clock), steps, timing, sha)
        ensures ReadableHasItsFile(Run(Start(clock), steps, sha), sha)
      {
        var s := Run(Start(clock), steps, sha);
        forall id, res, presented | T.ReadResource(s.tables, id, res, s.clock, presented).Some?
          ensures var row := T.ReadResource(s.tables, id, res, s.clock, presented).value;
                  F.Verifies(s.tree, id, res, row.size, row.sha256, sha)
        {
          ReadableResourceHasItsFile(clock, steps, timing, sha, id, res, presented);
        }
      }
    } else if timing.stage > HOUR {
      var steps := SlowStage(timing, sha);
      LostBreaksGuarantee(steps, timing, sha);
    } else {
      var steps := SlowRows(timing, sha);
      LostBreaksGuarantee(steps, timing, sha);
    }
  }

  /** With stages in time, rows within `d` of the mkdir are safe if and only if `d` is at most an hour. */
  lemma MkdirBoundIsExact(stage: nat, d: nat, sha: F.Content -> string)
    requires stage <= HOUR
    ensures Guarantee(Timing(stage, d, d), sha) <==> d <= HOUR
  {
    TimingIsExact(Timing(stage, d, d), sha);
  }
}
