/** One cleanup pass over dead shares and orphaned directories. */
module ShareCleanup {
  import opened Prelude
  import opened ShareTables
  import opened ShareFiles

  /** What a pass at `now` deletes: the selected shares, except those one of whose deletions fails. */
  function Deleted(t: Tables, now: int, stuck: set<ShareId>): set<ShareId> {
    set id | id in CleanupIds(t, now) && ControlledId(id) && id !in stuck
  }

  /** `stuck` are the shares whose directory cannot be removed completely, `locked` those whose
      metadata rows cannot be deleted; a failed share is skipped and the pass goes on. A query that
      fails ends the pass: the selection before anything is done, the listing before the sweep. */
  method CleanupConversationShareResources(
    db: ShareDB, files: FileStore, now: int, stuck: map<ShareId, Cut>, locked: set<ShareId>,
    selectFails: bool, listFails: bool) returns (ok: bool)
    modifies db`resources, files
    ensures stuck == map[] ==> (ok <==> !selectFails && !listFails)
    ensures ok ==> !selectFails && !listFails
    ensures selectFails ==> db.View() == old(db.View()) && files.View() == old(files.View())
    ensures !selectFails ==>
              db.resources == old(db.resources) - (Deleted(old(db.View()), now, stuck.Keys) - locked)
    // Without the listing nothing is swept: only selected shares are touched, and no stage.
    ensures listFails ==> files.staging == old(files.staging)
    ensures listFails ==>
              forall id :: id !in CleanupIds(old(db.View()), now) ==>
                Get(files.shares, id) == Get(old(files.shares), id)
    // A share with metadata keeps its directory as long as it is not selected.
    ensures forall id :: id in db.resources && id !in CleanupIds(old(db.View()), now) ==>
              Get(files.shares, id) == Get(old(files.shares), id)
    // What is left anywhere was there before, whole or as the remnant of a failed removal.
    ensures forall id :: id in files.shares ==> LeftOf(old(files.shares), files.shares, stuck, id)
    // A selected share has no files any more, unless their removal failed; then its rows stay too.
    ensures !selectFails ==> forall id <- Deleted(old(db.View()), now, stuck.Keys) :: id !in files.shares
    ensures forall id :: id in old(db.resources) && id in stuck ==> id in db.resources
    ensures StagesSwept(old(files.staging), files.staging, now - HOUR, stuck)
    // After a completed pass every directory that is left is claimed or younger than an hour.
    ensures ok ==> forall id :: id in files.shares ==> id in db.resources || files.shares[id].modified >= now - HOUR
    ensures ok ==> forall stage :: stage in files.staging ==> files.staging[stage].modified >= now - HOUR
    // Nothing younger than an hour is swept.
    ensures forall id :: id in old(files.shares) && id !in CleanupIds(old(db.View()), now) ==>
              (old(files.shares)[id].modified >= now - HOUR ==> Get(files.shares, id) == Get(old(files.shares), id))
  {
    if selectFails {
      return false;
    }
    DeleteSelected(db, files, now, stuck, locked);
    if listFails {
      return false;
    }
    label sweep:
    ok := files.CleanupOrphans(db.resources.Keys, now - HOUR, stuck);
    forall id | id !in CleanupIds(old(db.View()), now) &&
                (id in db.resources || (id in old(files.shares) && old(files.shares)[id].modified >= now - HOUR))
      ensures Get(files.shares, id) == Get(old(files.shares), id)
    {
      assert Get(old@sweep(files.shares), id) == Get(old(files.shares), id);
      SweptKeeps(old@sweep(files.shares), files.shares, db.resources.Keys, now - HOUR, stuck, id);
    }
    forall id | id in files.shares
      ensures LeftOf(old(files.shares), files.shares, stuck, id)
    {
      RemnantOfRemnant(old(files.shares), old@sweep(files.shares), files.shares, stuck, id);
    }
  }

  /** The loop over the selected shares: files first, then rows. */
  method DeleteSelected(db: ShareDB, files: FileStore, now: int, stuck: map<ShareId, Cut>, locked: set<ShareId>)
    modifies db`resources, files
    ensures db.resources == old(db.resources) - (Deleted(old(db.View()), now, stuck.Keys) - locked)
    ensures files.staging == old(files.staging)
    ensures forall id :: id !in CleanupIds(old(db.View()), now) ==> Get(files.shares, id) == Get(old(files.shares), id)
    ensures forall id :: id in files.shares ==> LeftOf(old(files.shares), files.shares, stuck, id)
    ensures forall id <- Deleted(old(db.View()), now, stuck.Keys) :: id !in files.shares
  {
    var ids := CleanupIds(db.View(), now);
    ghost var selected, target := ids, Deleted(old(db.View()), now, stuck.Keys);
    ghost var gone: set<ShareId> := {};
    while ids != {}
      invariant ids <= selected && gone <= target <= gone + ids
      invariant gone !! ids
      invariant forall id <- gone :: id !in files.shares
      invariant db.resources == old(db.resources) - (gone - locked)
      invariant forall id :: id !in selected - ids ==> Get(files.shares, id) == Get(old(files.shares), id)
      invariant forall id :: id in files.shares ==> LeftOf(old(files.shares), files.shares, stuck, id)
      invariant files.staging == old(files.staging)
    {
      var id :| id in ids;
      ids := ids - {id};
      var deleted := files.Delete(id, Get(stuck, id));
      if !deleted {
        continue;
      }
      gone := gone + {id};
      if id in locked {
        continue;
      }
      db.DeleteConversationShareResourceMetadata(id);
    }
    assert gone == target;
  }

  predicate LeftOf(before: map<string, ShareDir>, after: map<string, ShareDir>, stuck: map<string, Cut>, id: string)
    requires id in after
  {
    id in before && (after[id] == before[id] || (id in stuck && after[id] == ShareRemnant(before[id], stuck[id])))
  }

  /** Removing a remnant once more and failing in the same way changes nothing. */
  lemma RemnantOfRemnant(
    a: map<string, ShareDir>, b: map<string, ShareDir>, c: map<string, ShareDir>, stuck: map<string, Cut>, id: string)
    requires id in c && LeftOf(b, c, stuck, id) && LeftOf(a, b, stuck, id)
    ensures LeftOf(a, c, stuck, id)
  {
    if id in stuck {
      var dir, cut := a[id], stuck[id];
      if dir.resources.Some? && cut.left.Some? {
        var files := dir.resources.value;
        assert Only(Only(files, cut.left.value), cut.left.value) == Only(files, cut.left.value);
      }
      assert ShareRemnant(ShareRemnant(dir, cut), cut) == ShareRemnant(dir, cut);
    }
  }

  lemma SweptKeeps(
    before: map<string, ShareDir>, after: map<string, ShareDir>, keep: set<string>, limit: int,
    stuck: map<string, Cut>, id: string)
    requires SharesSwept(before, after, keep, limit, stuck)
    requires id in keep || (id in before && before[id].modified >= limit)
    ensures Get(after, id) == Get(before, id)
  {
    if id in before {
      assert id in KeepShares(before, keep, limit);
    }
  }

  /** With no failure a pass is complete: afterwards nothing is selected at that time any more. */
  lemma PassIsComplete(t: Tables, now: int)
    requires Consistent(t) && forall id :: id in t.resources ==> ControlledId(id)
    ensures var t' := t.(resources := t.resources - Deleted(t, now, {}));
            && CleanupIds(t', now) == {}
            && (forall id :: id in t.resources ==> (id in t'.resources <==> !RefusedAt(t, id, now)))
  {
    forall id | id in t.resources ensures id in Deleted(t, now, {}) <==> RefusedAt(t, id, now) {
      SelectionIsExact(t, id, now);
    }
  }
}
