/** The rendezvous between a waiting GET and the pushes that answer it.

    A pending item is reached by any number of pushes, by its timer, by the handler's deferred
    removal and by a push that finds it expired. Two locks are involved, the store's and the
    item's; every region under one of them is one step, and so is every file deletion. */
module PendingResources {
  import opened Prelude

  type ItemId = string
  type FileId = nat
  type ThreadId = nat

  /** `readyCloses` and `completions` count what may happen once at most. */
  datatype Item = Item(
    ticket: string, expiresAt: int, path: Option<FileId>,
    uploading: bool, completed: bool, removed: bool, readyFired: bool,
    readyCloses: nat, completions: nat)

  function NewItem(ticket: string, expiresAt: int): Item {
    Item(ticket, expiresAt, None, false, false, false, false, 0, 0)
  }

  datatype Status = Accepted | NotFound | Forbidden | Conflict | Failed

  // ---------------------------------------------------------------- regions under the item's lock

  /** The entry check of a push. */
  function BeginPush(i: Item): (Item, Status) {
    if i.removed then (i, NotFound)
    else if i.completed || i.uploading then (i, Conflict)
    else (i.(uploading := true), Accepted)
  }

  /** The end of a push whose body was saved as `file`, or was not saved. Only an accepted file is kept. */
  function EndPush(i: Item, file: Option<FileId>): (Item, Status) {
    var i' := i.(uploading := false);
    if file.None? then (i', Failed)
    else if i.removed then (i', NotFound)
    else
      var i'' := i'.(path := file, completed := true, completions := i.completions + 1);
      (if i.readyFired then i'' else i''.(readyFired := true, readyCloses := i.readyCloses + 1), Accepted)
  }

  /** The removal: the file, if any, now belongs to the remover. */
  function TakeForRemoval(i: Item): (Item, Option<FileId>) {
    (i.(removed := true, path := None), i.path)
  }

  // ---------------------------------------------------------------- the interleavings

  datatype Thread =
    | Pushing(item: ItemId)
    | Saving(item: ItemId, file: FileId)
    | SaveFailed(item: ItemId)
    | Saved(item: ItemId, file: FileId)
    | Removing(item: ItemId)
    | Deleting(item: ItemId, file: FileId)
    | Returned(status: Status)

  /** Who is responsible for a temp file; `Gone` means it was deleted. */
  datatype Owner = OfThread(tid: ThreadId) | OfItem(id: ItemId) | Gone

  /** The item a file was pushed to, who has to delete it next, and how often it was deleted. */
  datatype File = File(item: ItemId, owner: Owner, deletions: nat)

  /** `stored` are the keys of the store's map; `items` holds every item ever added. The last
      three fields only record history: they decide nothing. */
  datatype Sys = Sys(
    items: map<ItemId, Item>, stored: set<ItemId>, threads: map<ThreadId, Thread>,
    files: map<FileId, File>, uploader: map<ItemId, ThreadId>, remover: map<ItemId, ThreadId>)

  datatype Step =
    | Add(id: ItemId, ticket: string, expiresAt: int)
    | StartPush(tid: ThreadId, id: ItemId, ticket: string, now: int)
    | StartRemove(tid: ThreadId, id: ItemId)
    | Advance(tid: ThreadId, file: FileId, saveFails: bool)

  function Put(s: Sys, tid: ThreadId, t: Thread): Sys {
    s.(threads := s.threads[tid := t])
  }

  function SetItem(s: Sys, id: ItemId, i: Item): Sys {
    s.(items := s.items[id := i])
  }

  function SetOwner(s: Sys, f: FileId, owner: Owner): Sys
    requires f in s.files
  {
    s.(files := s.files[f := s.files[f].(owner := owner)])
  }

  function Delete(s: Sys, f: FileId): Sys
    requires f in s.files
  {
    s.(files := s.files[f := File(s.files[f].item, Gone, s.files[f].deletions + 1)])
  }

  /** The map entry goes away under the store's lock; the item itself is still to be marked. */
  function Unstore(s: Sys, tid: ThreadId, id: ItemId): Sys {
    Put(s.(stored := s.stored - {id}, remover := s.remover[id := tid]), tid, Removing(id))
  }

  /** One more step of a thread. `file` names the temp file a push is about to create;
      `saveFails` is the outcome of saving the body, which deletes its own partial file. */
  function AdvanceThread(s: Sys, tid: ThreadId, file: FileId, saveFails: bool): Sys
    requires CanAdvance(s, tid)
  {
    match s.threads[tid]
    case Pushing(id) =>
      if file in s.files then s else
      var (i, status) := BeginPush(s.items[id]);
      if status != Accepted then Put(s, tid, Returned(status)) else
      var s' := s.(files := s.files[file := File(id, OfThread(tid), 0)], uploader := s.uploader[id := tid]);
      Put(SetItem(s', id, i), tid, Saving(id, file))
    case Saving(id, f) =>
      if saveFails then Put(Delete(s, f), tid, SaveFailed(id)) else Put(s, tid, Saved(id, f))
    case SaveFailed(id) =>
      var (i, status) := EndPush(s.items[id], None);
      Put(SetItem(s, id, i), tid, Returned(status))
    case Saved(id, f) =>
      var (i, status) := EndPush(s.items[id], Some(f));
      var s' := SetItem(s, id, i);
      if status == Accepted then Put(SetOwner(s', f, OfItem(id)), tid, Returned(status))
      else Put(s', tid, Deleting(id, f))
    case Removing(id) =>
      var (i, taken) := TakeForRemoval(s.items[id]);
      var s' := SetItem(s, id, i);
      if taken.Some? then Put(SetOwner(s', taken.value, OfThread(tid)), tid, Deleting(id, taken.value))
      else Put(s', tid, Returned(NotFound))
    case Deleting(_, f) => Put(Delete(s, f), tid, Returned(NotFound))
    case Returned(_) => s
  }

  /** Ids of items, threads and temp files are fresh. A push first runs getForPush under the
      store's lock: an expired item leaves the map there and the push becomes its remover. */
  function Next(s: Sys, step: Step): Sys
    requires Inv(s)
  {
    match step
    case Add(id, ticket, expiresAt) =>
      if id in s.items then s else SetItem(s, id, NewItem(ticket, expiresAt)).(stored := s.stored + {id})
    case StartPush(tid, id, ticket, now) =>
      if tid in s.threads then s
      else if id !in s.stored then Put(s, tid, Returned(NotFound))
      else if now > s.items[id].expiresAt then Unstore(s, tid, id)
      else if ticket != s.items[id].ticket then Put(s, tid, Returned(Forbidden))
      else Put(s, tid, Pushing(id))
    case StartRemove(tid, id) =>
      if tid in s.threads then s
      else if id !in s.stored then Put(s, tid, Returned(NotFound))
      else Unstore(s, tid, id)
    case Advance(tid, file, saveFails) =>
      if tid in s.threads then
        assert ThreadOk(s, tid) && (s.threads[tid].Removing? ==> ItemOk(s, s.threads[tid].item));
        AdvanceThread(s, tid, file, saveFails)
      else s
  }

  const EMPTY := Sys(map[], {}, map[], map[], map[], map[])

  // ---------------------------------------------------------------- the invariant

  /** Flags of one item: what happens at most once is recorded by a flag that is never reset. */
  predicate FlagsAgree(i: Item) {
    && i.readyCloses == (if i.readyFired then 1 else 0)
    && i.completions == (if i.completed then 1 else 0)
    && (i.readyFired <==> i.completed)
    && !(i.completed && i.uploading)
    && (i.path.Some? <==> i.completed && !i.removed)
  }

  predicate Owned(s: Sys, f: FileId, item: ItemId, owner: Owner) {
    f in s.files && s.files[f] == File(item, owner, 0)
  }

  /** An item is in the map, or its one remover is on its way, or it is marked removed. */
  predicate ItemOk(s: Sys, id: ItemId) {
    id in s.items ==>
      var i := s.items[id];
      && FlagsAgree(i)
      && (i.path.Some? ==> Owned(s, i.path.value, id, OfItem(id)))
      && (id in s.stored ==> !i.removed)
      && (id !in s.stored && !i.removed ==>
            id in s.remover && s.remover[id] in s.threads && s.threads[s.remover[id]] == Removing(id))
  }

  predicate Uploads(s: Sys, tid: ThreadId, id: ItemId) {
    id in s.items && s.items[id].uploading && id in s.uploader && s.uploader[id] == tid
  }

  /** Each thread holds the file and the role its program counter says. */
  predicate ThreadOk(s: Sys, tid: ThreadId) {
    tid in s.threads ==>
      match s.threads[tid]
      case Pushing(id) => id in s.items
      case Saving(id, f) => Uploads(s, tid, id) && Owned(s, f, id, OfThread(tid))
      case SaveFailed(id) => Uploads(s, tid, id)
      case Saved(id, f) => Uploads(s, tid, id) && Owned(s, f, id, OfThread(tid))
      case Removing(id) =>
        id in s.items && id !in s.stored && !s.items[id].removed && id in s.remover && s.remover[id] == tid
      case Deleting(id, f) => Owned(s, f, id, OfThread(tid))
      case Returned(_) => true
  }

  /** The facts a step of one thread relies on. */
  predicate CanAdvance(s: Sys, tid: ThreadId) {
    && tid in s.threads
    && ThreadOk(s, tid)
    && (s.threads[tid].Removing? ==> ItemOk(s, s.threads[tid].item))
  }

  predicate Holds(t: Thread, f: FileId) {
    (t.Saving? || t.Saved? || t.Deleting?) && t.file == f
  }

  /** A file is deleted once and gone, or not deleted and held by the owner it names. */
  predicate FileOk(s: Sys, f: FileId) {
    f in s.files ==>
      match s.files[f].owner
      case Gone => s.files[f].deletions == 1
      case OfThread(tid) =>
        && s.files[f].deletions == 0 && tid in s.threads
        && Holds(s.threads[tid], f) && s.threads[tid].item == s.files[f].item
      case OfItem(id) =>
        s.files[f].deletions == 0 && id == s.files[f].item && id in s.items && s.items[id].path == Some(f)
  }

  ghost predicate Inv(s: Sys) {
    && s.stored <= s.items.Keys
    && (forall id :: ItemOk(s, id))
    && (forall tid :: ThreadOk(s, tid))
    && (forall f :: FileOk(s, f))
  }

  // One program counter at a time.

  lemma PushingKeepsItem(s: Sys, tid: ThreadId, file: FileId, saveFails: bool, id: ItemId)
    requires CanAdvance(s, tid) && ItemOk(s, id) && s.threads[tid].Pushing?
    ensures ItemOk(AdvanceThread(s, tid, file, saveFails), id)
  {
  }

  lemma SavingKeepsItem(s: Sys, tid: ThreadId, file: FileId, saveFails: bool, id: ItemId)
    requires CanAdvance(s, tid) && ItemOk(s, id) && s.threads[tid].Saving?
    ensures ItemOk(AdvanceThread(s, tid, file, saveFails), id)
  {
  }

  lemma SavedKeepsItem(s: Sys, tid: ThreadId, file: FileId, saveFails: bool, id: ItemId)
    requires CanAdvance(s, tid) && ItemOk(s, id) && (s.threads[tid].Saved? || s.threads[tid].SaveFailed?)
    ensures ItemOk(AdvanceThread(s, tid, file, saveFails), id)
  {
  }

  lemma RemovingKeepsItem(s: Sys, tid: ThreadId, file: FileId, saveFails: bool, id: ItemId)
    requires CanAdvance(s, tid) && ItemOk(s, id) && s.threads[tid].Removing?
    ensures ItemOk(AdvanceThread(s, tid, file, saveFails), id)
  {
  }

  lemma DeletingKeepsItem(s: Sys, tid: ThreadId, file: FileId, saveFails: bool, id: ItemId)
    requires CanAdvance(s, tid) && ItemOk(s, id) && (s.threads[tid].Deleting? || s.threads[tid].Returned?)
    ensures ItemOk(AdvanceThread(s, tid, file, saveFails), id)
  {
  }

  lemma AdvanceKeepsItem(s: Sys, tid: ThreadId, file: FileId, saveFails: bool, id: ItemId)
    requires CanAdvance(s, tid) && ItemOk(s, id)
    ensures ItemOk(AdvanceThread(s, tid, file, saveFails), id)
  {
    match s.threads[tid]
    case Pushing(_) => PushingKeepsItem(s, tid, file, saveFails, id);
    case Saving(_, _) => SavingKeepsItem(s, tid, file, saveFails, id);
    case Removing(_) => RemovingKeepsItem(s, tid, file, saveFails, id);
    case Deleting(_, _) => DeletingKeepsItem(s, tid, file, saveFails, id);
    case Returned(_) => DeletingKeepsItem(s, tid, file, saveFails, id);
    case _ => SavedKeepsItem(s, tid, file, saveFails, id);
  }

  lemma AdvanceKeepsMover(s: Sys, tid: ThreadId, file: FileId, saveFails: bool)
    requires CanAdvance(s, tid)
    ensures ThreadOk(AdvanceThread(s, tid, file, saveFails), tid)
  {
  }

  lemma UploadKeepsOther(s: Sys, mover: ThreadId, file: FileId, saveFails: bool, tid: ThreadId)
    requires CanAdvance(s, mover) && ThreadOk(s, tid) && tid != mover && tid in s.threads
    requires s.threads[mover].Pushing? || s.threads[mover].Saving?
    ensures ThreadOk(AdvanceThread(s, mover, file, saveFails), tid)
  {
    assert AdvanceThread(s, mover, file, saveFails).threads[tid] == s.threads[tid];
  }

  lemma EndKeepsOther(s: Sys, mover: ThreadId, file: FileId, saveFails: bool, tid: ThreadId)
    requires CanAdvance(s, mover) && ThreadOk(s, tid) && tid != mover && tid in s.threads
    requires s.threads[mover].Saved? || s.threads[mover].SaveFailed?
    ensures ThreadOk(AdvanceThread(s, mover, file, saveFails), tid)
  {
    assert AdvanceThread(s, mover, file, saveFails).threads[tid] == s.threads[tid];
  }

  lemma RemovalKeepsOther(s: Sys, mover: ThreadId, file: FileId, saveFails: bool, tid: ThreadId)
    requires CanAdvance(s, mover) && ThreadOk(s, tid) && tid != mover && tid in s.threads
    requires s.threads[mover].Removing? || s.threads[mover].Deleting? || s.threads[mover].Returned?
    ensures ThreadOk(AdvanceThread(s, mover, file, saveFails), tid)
  {
    assert AdvanceThread(s, mover, file, saveFails).threads[tid] == s.threads[tid];
  }

  lemma AdvanceKeepsThread(s: Sys, mover: ThreadId, file: FileId, saveFails: bool, tid: ThreadId)
    requires CanAdvance(s, mover) && ThreadOk(s, tid)
    ensures ThreadOk(AdvanceThread(s, mover, file, saveFails), tid)
  {
    if mover == tid {
      AdvanceKeepsMover(s, tid, file, saveFails);
    } else if tid in s.threads {
      match s.threads[mover]
      case Pushing(_) => UploadKeepsOther(s, mover, file, saveFails, tid);
      case Saving(_, _) => UploadKeepsOther(s, mover, file, saveFails, tid);
      case Saved(_, _) => EndKeepsOther(s, mover, file, saveFails, tid);
      case SaveFailed(_) => EndKeepsOther(s, mover, file, saveFails, tid);
      case _ => RemovalKeepsOther(s, mover, file, saveFails, tid);
    }
  }

  lemma UploadKeepsFile(s: Sys, tid: ThreadId, file: FileId, saveFails: bool, f: FileId)
    requires CanAdvance(s, tid) && FileOk(s, f)
    requires s.threads[tid].Pushing? || s.threads[tid].Saving?
    ensures FileOk(AdvanceThread(s, tid, file, saveFails), f)
  {
  }

  lemma EndKeepsFile(s: Sys, tid: ThreadId, file: FileId, saveFails: bool, f: FileId)
    requires CanAdvance(s, tid) && FileOk(s, f)
    requires (s.threads[tid].Saved? || s.threads[tid].SaveFailed?) && ItemOk(s, s.threads[tid].item)
    ensures FileOk(AdvanceThread(s, tid, file, saveFails), f)
  {
  }

  lemma RemovalKeepsFile(s: Sys, tid: ThreadId, file: FileId, saveFails: bool, f: FileId)
    requires CanAdvance(s, tid) && FileOk(s, f)
    requires s.threads[tid].Removing? || s.threads[tid].Deleting? || s.threads[tid].Returned?
    ensures FileOk(AdvanceThread(s, tid, file, saveFails), f)
  {
  }

  lemma AdvanceKeepsFile(s: Sys, tid: ThreadId, file: FileId, saveFails: bool, f: FileId)
    requires CanAdvance(s, tid) && FileOk(s, f)
    requires s.threads[tid].Saved? || s.threads[tid].SaveFailed? ==> ItemOk(s, s.threads[tid].item)
    ensures FileOk(AdvanceThread(s, tid, file, saveFails), f)
  {
    match s.threads[tid]
    case Pushing(_) => UploadKeepsFile(s, tid, file, saveFails, f);
    case Saving(_, _) => UploadKeepsFile(s, tid, file, saveFails, f);
    case Saved(_, _) => EndKeepsFile(s, tid, file, saveFails, f);
    case SaveFailed(_) => EndKeepsFile(s, tid, file, saveFails, f);
    case _ => RemovalKeepsFile(s, tid, file, saveFails, f);
  }

  /** A step that starts something, in the states the invariant allows. */
  lemma StartKeepsItem(s: Sys, step: Step, id: ItemId)
    requires Inv(s) && !step.Advance?
    ensures ItemOk(Next(s, step), id)
  {
    assert ItemOk(s, id);
    match step
    case Add(_, _, _) =>
    case StartPush(_, _, _, _) =>
    case StartRemove(_, _) =>
  }

  lemma UnstoreKeepsThread(s: Sys, mover: ThreadId, id: ItemId, tid: ThreadId)
    requires mover !in s.threads && id in s.items && id in s.stored && ItemOk(s, id) && ThreadOk(s, tid)
    ensures ThreadOk(Unstore(s, mover, id), tid)
  {
  }

  lemma AddKeepsThread(s: Sys, id: ItemId, i: Item, tid: ThreadId)
    requires id !in s.items && ThreadOk(s, tid)
    ensures ThreadOk(SetItem(s, id, i).(stored := s.stored + {id}), tid)
  {
  }

  lemma StartKeepsThread(s: Sys, step: Step, tid: ThreadId)
    requires Inv(s) && !step.Advance?
    ensures ThreadOk(Next(s, step), tid)
  {
    assert ThreadOk(s, tid) && ItemOk(s, step.id);
    if step.Add? {
      if step.id !in s.items { AddKeepsThread(s, step.id, NewItem(step.ticket, step.expiresAt), tid); }
    } else if step.tid !in s.threads && step.id in s.stored {
      UnstoreKeepsThread(s, step.tid, step.id, tid);
    }
  }

  lemma StartKeepsFile(s: Sys, step: Step, f: FileId)
    requires Inv(s) && !step.Advance?
    ensures FileOk(Next(s, step), f)
  {
    assert FileOk(s, f);
  }

  lemma AdvanceKeepsInv(s: Sys, tid: ThreadId, file: FileId, saveFails: bool)
    requires Inv(s) && tid in s.threads
    ensures CanAdvance(s, tid) && Inv(AdvanceThread(s, tid, file, saveFails))
  {
    assert ThreadOk(s, tid);
    if !s.threads[tid].Returned? {
      assert ItemOk(s, s.threads[tid].item);
    }
    var s' := AdvanceThread(s, tid, file, saveFails);
    forall id ensures ItemOk(s', id) { assert ItemOk(s, id); AdvanceKeepsItem(s, tid, file, saveFails, id); }
    forall t ensures ThreadOk(s', t) { assert ThreadOk(s, t); AdvanceKeepsThread(s, tid, file, saveFails, t); }
    forall f ensures FileOk(s', f) { assert FileOk(s, f); AdvanceKeepsFile(s, tid, file, saveFails, f); }
  }

  lemma StepKeepsInv(s: Sys, step: Step)
    requires Inv(s)
    ensures Inv(Next(s, step))
  {
    var s' := Next(s, step);
    if step.Advance? {
      if step.tid in s.threads { AdvanceKeepsInv(s, step.tid, step.file, step.saveFails); }
    } else {
      forall id ensures ItemOk(s', id) { StartKeepsItem(s, step, id); }
      forall tid ensures ThreadOk(s', tid) { StartKeepsThread(s, step, tid); }
      forall f ensures FileOk(s', f) { StartKeepsFile(s, step, f); }
    }
  }

  function Run(steps: seq<Step>): (s: Sys)
    ensures Inv(s)
  {
    if steps == [] then EMPTY else
    var m := Run(steps[..|steps| - 1]);
    StepKeepsInv(m, steps[|steps| - 1]);
    Next(m, steps[|steps| - 1])
  }

  // ---------------------------------------------------------------- the main results

  /** On every run the ready channel of an item is closed at most once and at most one push
      completes; and between completion and removal the waiting GET finds the pushed file. */
  lemma ReadyOnce(steps: seq<Step>, id: ItemId)
    requires id in Run(steps).items
    ensures var i := Run(steps).items[id];
            && i.readyCloses <= 1 && i.completions <= 1 && i.readyCloses == i.completions
            && (i.readyCloses == 1 && !i.removed ==> i.path.Some? && Owned(Run(steps), i.path.value, id, OfItem(id)))
  {
    assert ItemOk(Run(steps), id);
  }

  /** On every run a temp file is deleted at most once, and while it is not deleted some thread
      in mid-flight or some item that is not removed is responsible for it. */
  lemma DeletedOnceOrOwned(steps: seq<Step>, f: FileId)
    requires f in Run(steps).files
    ensures var s := Run(steps);
            && s.files[f].deletions <= 1
            && (s.files[f].deletions == 0 <==>
                  (exists tid :: tid in s.threads && Holds(s.threads[tid], f)) ||
                  (exists id :: id in s.items && !s.items[id].removed && s.items[id].path == Some(f)))
  {
    var s := Run(steps);
    assert FileOk(s, f);
    if s.files[f].owner.OfItem? { assert ItemOk(s, s.files[f].owner.id); }
    forall tid | tid in s.threads && Holds(s.threads[tid], f)
      ensures s.files[f].deletions == 0
    {
      assert ThreadOk(s, tid);
    }
    forall id | id in s.items && s.items[id].path == Some(f) ensures s.files[f].deletions == 0 { assert ItemOk(s, id); }
  }

  /** Nothing is under way for the item: its pushes and removals have all returned. */
  predicate AtRest(s: Sys, id: ItemId) {
    forall tid :: tid in s.threads && !s.threads[tid].Returned? ==> s.threads[tid].item != id
  }

  /** Once an item's own pushes and removals have returned, whatever goes on elsewhere, it is marked
      removed exactly if it left the map, and of the files pushed to it only the one it still serves
      from the map is left. */
  lemma NothingLeftBehind(steps: seq<Step>, id: ItemId, f: FileId)
    requires id in Run(steps).items && AtRest(Run(steps), id)
    ensures var s := Run(steps);
            && (s.items[id].removed <==> id !in s.stored)
            && (f in s.files && s.files[f].item == id ==>
                  s.files[f].deletions == (if id in s.stored && s.items[id].path == Some(f) then 0 else 1))
  {
    var s := Run(steps);
    assert ItemOk(s, id) && FileOk(s, f);
  }

  // ---------------------------------------------------------------- the objects

  class PendingResource {
    const id: ItemId
    const ticket: string
    const expiresAt: int
    var path: Option<FileId>
    var uploading: bool
    var completed: bool
    var removed: bool
    var readyFired: bool
    /** How often `close(Ready)` was executed, and how many pushes completed. */
    ghost var readyCloses: nat
    ghost var completions: nat

    ghost function View(): Item reads this {
      Item(ticket, expiresAt, path, uploading, completed, removed, readyFired, readyCloses, completions)
    }

    constructor (id: ItemId, ticket: string, expiresAt: int)
      ensures this.id == id && View() == NewItem(ticket, expiresAt)
    {
      this.id, this.ticket, this.expiresAt := id, ticket, expiresAt;
      path := None;
      uploading, completed, removed, readyFired := false, false, false, false;
      readyCloses, completions := 0, 0;
    }

    method Begin() returns (status: Status)
      modifies this
      ensures (View(), status) == BeginPush(old(View()))
    {
      if removed {
        return NotFound;
      }
      if completed || uploading {
        return Conflict;
      }
      uploading := true;
      return Accepted;
    }

    method End(file: Option<FileId>) returns (status: Status)
      modifies this
      ensures (View(), status) == EndPush(old(View()), file)
    {
      uploading := false;
      if file.None? {
        return Failed;
      }
      if removed {
        return NotFound;
      }
      path := file;
      completed := true;
      completions := completions + 1;
      if !readyFired {
        readyCloses := readyCloses + 1;
        readyFired := true;
      }
      return Accepted;
    }

    method Take() returns (taken: Option<FileId>)
      modifies this
      ensures (View(), taken) == TakeForRemoval(old(View()))
    {
      removed := true;
      taken := path;
      path := None;
    }
  }

  class ResourceStore {
    var items: map<ItemId, PendingResource>

    ghost predicate Consistent() reads this, items.Values {
      forall id :: id in items ==> items[id].id == id
    }

    constructor ()
      ensures items == map[] && Consistent()
    {
      items := map[];
    }

    method AddItem(item: PendingResource)
      requires Consistent()
      modifies this
      ensures Consistent() && items == old(items)[item.id := item]
    {
      items := items[item.id := item];
    }

    /** Both lock regions of a removal; `taken` is the file to delete afterwards. Exactly the
        named item leaves the map and is marked, and a second removal finds nothing. */
    method Remove(id: ItemId) returns (taken: Option<FileId>)
      requires Consistent()
      modifies this, items.Values
      ensures Consistent() && items == old(items) - {id}
      ensures forall i <- items.Values :: i.View() == old(i.View())
      ensures id in old(items) ==> (old(items)[id].View(), taken) == TakeForRemoval(old(items[id].View()))
      ensures id !in old(items) ==> taken == None
    {
      if id !in items {
        return None;
      }
      var item := items[id];
      items := items - {id};
      taken := item.Take();
      assert item !in items.Values;
    }

    /** What a push finds: only an unexpired item under the right ticket; an expired one is removed. */
    method GetForPush(
      id: ItemId, ticket: string, now: int)
      returns (item: Option<PendingResource>, status: Status, expired: Option<FileId>)
      requires Consistent()
      modifies this, items.Values
      ensures Consistent()
      ensures status == Accepted <==>
                id in old(items) && now <= old(items)[id].expiresAt && ticket == old(items)[id].ticket
      ensures status == Accepted ==> item == Some(old(items)[id])
      ensures status != Accepted ==> item == None
      ensures status == Forbidden <==>
                id in old(items) && now <= old(items)[id].expiresAt && ticket != old(items)[id].ticket
      ensures items == if id in old(items) && now > old(items)[id].expiresAt then old(items) - {id} else old(items)
      ensures forall i <- items.Values :: i.View() == old(i.View())
      ensures id in old(items) && now > old(items)[id].expiresAt ==>
                (old(items)[id].View(), expired) == TakeForRemoval(old(items[id].View()))
      ensures !(id in old(items) && now > old(items)[id].expiresAt) ==> expired == None
    {
      if id !in items {
        return None, NotFound, None;
      }
      var found := items[id];
      if now > found.expiresAt {
        expired := Remove(id);
        return None, NotFound, expired;
      }
      if ticket != found.ticket {
        return None, Forbidden, None;
      }
      return Some(found), Accepted, None;
    }
  }
}
