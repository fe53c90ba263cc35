/** The file tree behind conversation shares: `.staging/<stage>` and `shares/<share>/resources`.

    A rename is atomic. Directories carry their modification time in nanoseconds. */
module ShareFiles {
  import opened Prelude

  type Content = seq<int>
  type Files = map<string, Content>

  datatype StageDir = StageDir(modified: int, files: Files)

  /** A share directory exists without its `resources` between mkdir and rename. */
  datatype ShareDir = ShareDir(modified: int, resources: Option<Files>)

  datatype Tree = Tree(staging: map<string, StageDir>, shares: map<string, ShareDir>)

  const EMPTY := Tree(map[], map[])
  const MAX_ID_LENGTH := 128

  predicate ControlledId(id: string) {
    0 < |id| <= MAX_ID_LENGTH &&
    forall i :: 0 <= i < |id| ==>
      'a' <= id[i] <= 'z' || 'A' <= id[i] <= 'Z' || '0' <= id[i] <= '9' || id[i] == '_' || id[i] == '-'
  }

  function Mkdir(t: Tree, share: string, now: int): Option<Tree> {
    if share in t.shares then None else Some(t.(shares := t.shares[share := ShareDir(now, None)]))
  }

  /** Moves a stage into a share directory that has none yet. */
  function RenameStage(t: Tree, stage: string, share: string, now: int): Option<Tree> {
    if stage in t.staging && share in t.shares && t.shares[share].resources.None?
    then Some(Tree(t.staging - {stage}, t.shares[share := ShareDir(now, Some(t.staging[stage].files))]))
    else None
  }

  /** The steps of a commit, any of which can fail. */
  datatype CommitStep = MakeDir | SyncShares | SyncStage | Rename | SyncParent

  /** No step up to the rename fails. */
  predicate ReachesRename(fails: Option<CommitStep>) {
    fails.None? || fails.value.SyncParent?
  }

  /** A commit on an undisturbed tree. Up to the rename a failure is undone; when only the last sync
      fails, the files are in place although an error is returned. */
  function Committed(t: Tree, stage: string, share: string, now: int, fails: Option<CommitStep>): Tree {
    if share in t.shares || stage !in t.staging || !ReachesRename(fails) then t
    else RenameStage(Mkdir(t, share, now).value, stage, share, now).value
  }

  /** A removal that stopped at a failure: `left` are the files still there (None: no resources
      directory either), `at` is the time of the last thing removed. */
  datatype Cut = Cut(left: Option<set<string>>, at: int)

  function Only(files: Files, left: set<string>): Files {
    map res | res in files && res in left :: files[res]
  }

  function StageRemnant(dir: StageDir, cut: Cut): StageDir {
    StageDir(cut.at, Only(dir.files, cut.left.GetOr({})))
  }

  function ShareRemnant(dir: ShareDir, cut: Cut): ShareDir {
    if dir.resources.None? || cut.left.None? then ShareDir(cut.at, None)
    else ShareDir(dir.modified, Some(Only(dir.resources.value, cut.left.value)))
  }

  /** Removing a share directory, completely or not. */
  function RemoveShare(m: map<string, ShareDir>, share: string, cut: Option<Cut>): map<string, ShareDir> {
    if cut.None? then m - {share}
    else if share in m then m[share := ShareRemnant(m[share], cut.value)]
    else m
  }

  /** The bytes of a resource as `Open` finds them. */
  function Find(t: Tree, share: string, res: string): Option<Content> {
    if share in t.shares && t.shares[share].resources.Some? && res in t.shares[share].resources.value
    then Some(t.shares[share].resources.value[res])
    else None
  }

  /** ASCII letters in lower case, as hexadecimal digests are compared. */
  function Lower(s: string): (r: string)
    ensures |r| == |s|
    ensures forall i :: 0 <= i < |s| ==> !('A' <= r[i] <= 'Z')
  {
    seq(|s|, i requires 0 <= i < |s| => if 'A' <= s[i] <= 'Z' then (s[i] as int + 32) as char else s[i])
  }

  predicate EqualFold(a: string, b: string) { Lower(a) == Lower(b) }

  predicate Verifies(t: Tree, share: string, res: string, size: int, sha256: string, sha: Content -> string) {
    Find(t, share, res).Some? && |Find(t, share, res).value| == size && sha(Find(t, share, res).value) == sha256
  }

  function KeepStages(m: map<string, StageDir>, before: int): map<string, StageDir> {
    map name | name in m && m[name].modified >= before :: m[name]
  }

  function KeepShares(m: map<string, ShareDir>, keep: set<string>, before: int): map<string, ShareDir> {
    map name | name in m && (name in keep || m[name].modified >= before) :: m[name]
  }

  /** What any sweep may have done, finished or not: what had to stay is untouched, and what is left
      of the rest is as it was or a remnant of a removal that failed. */
  predicate StagesSwept(m: map<string, StageDir>, after: map<string, StageDir>, before: int, stuck: map<string, Cut>) {
    && (forall name :: name in KeepStages(m, before) ==> Get(after, name) == Some(m[name]))
    && (forall name :: name in after ==>
          name in m && (after[name] == m[name] || (name in stuck && after[name] == StageRemnant(m[name], stuck[name]))))
  }

  predicate SharesSwept(
    m: map<string, ShareDir>, after: map<string, ShareDir>, keep: set<string>, before: int, stuck: map<string, Cut>)
  {
    && (forall name :: name in KeepShares(m, keep, before) ==> Get(after, name) == Some(m[name]))
    && (forall name :: name in after ==>
          name in m && (after[name] == m[name] || (name in stuck && after[name] == ShareRemnant(m[name], stuck[name]))))
  }

  // ---------------------------------------------------------------- the objects

  class FileStore {
    var staging: map<string, StageDir>
    var shares: map<string, ShareDir>

    function View(): Tree reads this { Tree(staging, shares) }

    constructor ()
      ensures View() == EMPTY
    {
      staging, shares := map[], map[];
    }

    /** `cut` is how the removal fails, if it does. */
    method Delete(share: string, cut: Option<Cut>) returns (ok: bool)
      modifies this
      ensures staging == old(staging)
      ensures ok == (ControlledId(share) && cut.None?)
      ensures shares == if ControlledId(share) then RemoveShare(old(shares), share, cut) else old(shares)
    {
      if !ControlledId(share) {
        return false;
      }
      shares := RemoveShare(shares, share, cut);
      return cut.None?;
    }

    method Verify(share: string, res: string, size: int, sha256: string, sha: Content -> string) returns (ok: bool)
      ensures ok == (ControlledId(share) && ControlledId(res) && Verifies(View(), share, res, size, Lower(sha256), sha))
    {
      if !ControlledId(share) || !ControlledId(res) {
        return false;
      }
      if share !in shares || shares[share].resources.None? || res !in shares[share].resources.value {
        return false;
      }
      var content := shares[share].resources.value[res];
      return |content| == size && sha(content) == Lower(sha256);
    }

    /** Sweeps both directories; `stuck` are the names whose removal fails. Without such a failure
        exactly the old, unclaimed entries are gone. A failure stops the sweep: then nothing that
        had to stay is touched either. */
    method CleanupOrphans(valid: set<string>, before: int, stuck: map<string, Cut>) returns (ok: bool)
      modifies this
      ensures stuck == map[] ==> ok
      ensures ok ==> staging == KeepStages(old(staging), before) && shares == KeepShares(old(shares), valid, before)
      ensures StagesSwept(old(staging), staging, before, stuck)
      ensures SharesSwept(old(shares), shares, valid, before, stuck)
    {
      ok := SweepStages(before, stuck);
      if ok {
        ok := SweepShares(valid, before, stuck);
      }
    }

    method SweepStages(before: int, stuck: map<string, Cut>) returns (ok: bool)
      modifies this`staging
      ensures stuck == map[] ==> ok
      ensures ok ==> staging == KeepStages(old(staging), before)
      ensures StagesSwept(old(staging), staging, before, stuck)
    {
      var entries := staging.Keys;
      while entries != {}
        invariant entries <= staging.Keys <= old(staging).Keys
        invariant forall name :: name in staging ==> staging[name] == old(staging)[name]
        invariant forall name :: name in old(staging) && name !in entries ==>
                    (name in staging <==> old(staging)[name].modified >= before)
      {
        var name :| name in entries;
        entries := entries - {name};
        if staging[name].modified >= before {
          continue;
        }
        if name in stuck {
          staging := staging[name := StageRemnant(staging[name], stuck[name])];
          return false;
        }
        staging := staging - {name};
      }
      assert staging == KeepStages(old(staging), before);
      return true;
    }

    method SweepShares(keep: set<string>, before: int, stuck: map<string, Cut>) returns (ok: bool)
      modifies this`shares
      ensures stuck == map[] ==> ok
      ensures ok ==> shares == KeepShares(old(shares), keep, before)
      ensures SharesSwept(old(shares), shares, keep, before, stuck)
    {
      var entries := shares.Keys;
      while entries != {}
        invariant entries <= shares.Keys <= old(shares).Keys
        invariant forall name :: name in shares ==> shares[name] == old(shares)[name]
        invariant forall name :: name in old(shares) && name !in entries ==>
                    (name in shares <==> name in keep || old(shares)[name].modified >= before)
      {
        var name :| name in entries;
        entries := entries - {name};
        if name in keep || shares[name].modified >= before {
          continue;
        }
        if name in stuck {
          shares := shares[name := ShareRemnant(shares[name], stuck[name])];
          return false;
        }
        shares := shares - {name};
      }
      assert shares == KeepShares(old(shares), keep, before);
      return true;
    }
  }

  datatype WriteError = Refused | TooLarge | Broken

  /** How the disk takes a body: a failure may leave a partial file that cannot be removed either. */
  datatype Disk = Sound | Faulty(left: Option<Content>)

  datatype WriteResult = Written(size: nat) | NotWritten(error: WriteError)

  /** A request-scoped staging directory. Once done it writes nothing more. */
  class Stage {
    const store: FileStore
    const id: string
    var done: bool

    ghost predicate Ready() reads this, store {
      !done && id in store.staging
    }

    ghost function Files(): Files
      requires Ready()
      reads this, store
    {
      store.staging[id].files
    }

    constructor Begin(store: FileStore, id: string, now: int)
      requires id !in store.staging
      modifies store
      ensures this.store == store && this.id == id && Ready() && Files() == map[]
      ensures store.shares == old(store.shares) && store.staging == old(store.staging)[id := StageDir(now, map[])]
    {
      this.store, this.id, this.done := store, id, false;
      new;
      store.staging := store.staging[id := StageDir(now, map[])];
    }

    /** The body is to be written to a new file: it has a proper name and is allowed some bytes. */
    ghost predicate Opens(res: string, maximum: int)
      requires Ready()
      reads this, store
    {
      ControlledId(res) && res !in Files() && maximum >= 0
    }

    /** Stores a body of at most `maximum` bytes under a new name; otherwise leaves no file behind
        but the partial one a faulty disk keeps. */
    method Write(res: string, body: Content, maximum: int, now: int, disk: Disk) returns (r: WriteResult)
      requires Ready()
      modifies store`staging
      ensures Ready() && store.staging.Keys == old(store.staging).Keys
      ensures forall s :: s in store.staging && s != id ==> store.staging[s] == old(store.staging)[s]
      ensures r.Written? <==> old(Opens(res, maximum)) && disk.Sound? && |body| <= maximum
      ensures r.Written? ==> r.size == |body| && Files() == old(Files())[res := body]
      ensures r == NotWritten(Refused) <==> !old(Opens(res, maximum))
      ensures r == NotWritten(TooLarge) <==> old(Opens(res, maximum)) && disk.Sound? && maximum < |body|
      ensures r == NotWritten(Broken) ==>
                Files() == if disk.left.Some? then old(Files())[res := disk.left.value] else old(Files())
      ensures r.NotWritten? && r.error != Broken ==> Files() == old(Files())
    {
      if !ControlledId(res) || maximum < 0 {
        return NotWritten(Refused);
      }
      var dir := store.staging[id];
      if res in dir.files {
        return NotWritten(Refused);
      }
      if disk.Faulty? {
        var files := if disk.left.Some? then dir.files[res := disk.left.value] else dir.files;
        store.staging := store.staging[id := StageDir(now, files)];
        return NotWritten(Broken);
      }
      if |body| > maximum {
        store.staging := store.staging[id := StageDir(now, dir.files)];
        return NotWritten(TooLarge);
      }
      store.staging := store.staging[id := StageDir(now, dir.files[res := body])];
      return Written(|body|);
    }

    /** Whether a commit puts the files in place. */
    ghost predicate Places(share: string, fails: Option<CommitStep>) reads this, store {
      Ready() && ControlledId(share) && share !in store.shares && ReachesRename(fails)
    }

    /** The share directory then holds exactly the staged files, or the tree is as before; a share
        that already has a directory is never touched. `fails` is the step that fails. When only the
        last sync does, an error is returned although the files are in place and the stage is done. */
    method Commit(share: string, now: int, fails: Option<CommitStep>) returns (ok: bool)
      modifies this, store
      ensures ok <==> old(Places(share, fails)) && fails.None?
      ensures old(Places(share, fails)) ==> done
      ensures old(Places(share, fails)) ==> store.staging == old(store.staging) - {id}
      ensures old(Places(share, fails)) ==>
                store.shares == old(store.shares)[share := ShareDir(now, Some(old(store.staging)[id].files))]
      ensures old(Places(share, fails)) ==> store.View() == Committed(old(store.View()), id, share, now, fails)
      ensures !old(Places(share, fails)) ==> store.View() == old(store.View()) && done == old(done)
    {
      if done || !ControlledId(share) {
        return false;
      }
      if share in store.shares || fails == Some(MakeDir) {
        return false;
      }
      ghost var before := store.shares;
      store.shares := store.shares[share := ShareDir(now, None)];
      if !ReachesRename(fails) || id !in store.staging {
        store.shares := store.shares - {share};
        assert store.shares == before;
        return false;
      }
      var files := store.staging[id].files;
      store.shares := store.shares[share := ShareDir(now, Some(files))];
      store.staging := store.staging - {id};
      assert store.shares == before[share := ShareDir(now, Some(files))];
      done := true;
      return fails.None?;
    }

    /** Removes the stage unless it was committed or aborted before. */
    method Abort()
      modifies this, store`staging
      ensures done
      ensures store.staging == if old(done) then old(store.staging) else old(store.staging) - {id}
    {
      if done {
        return;
      }
      done := true;
      store.staging := store.staging - {id};
    }
  }
}
