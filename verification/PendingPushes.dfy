/** What becomes of a push: which ones start, that one whose body is saved is served, that one whose body
    is not leaves the item free, and that none gets through without the item's ticket. */
module PendingPushes {
  import opened Prelude
  import opened PendingResources

  /** A push is between its start and its end on this item. */
  predicate UploadsTo(t: Thread, id: ItemId) {
    (t.Saving? || t.SaveFailed? || t.Saved?) && t.item == id
  }

  predicate SomeoneUploads(s: Sys, id: ItemId) {
    exists tid :: tid in s.threads && UploadsTo(s.threads[tid], id)
  }

  predicate MarkIsHeld(s: Sys, id: ItemId) {
    id in s.items && s.items[id].uploading ==>
      id in s.uploader && s.uploader[id] in s.threads && UploadsTo(s.threads[s.uploader[id]], id)
  }

  lemma UploadKeepsMark(s: Sys, tid: ThreadId, file: FileId, saveFails: bool, id: ItemId)
    requires CanAdvance(s, tid) && MarkIsHeld(s, id)
    requires s.threads[tid].Pushing? || s.threads[tid].Saving? || s.threads[tid].SaveFailed? || s.threads[tid].Saved?
    ensures MarkIsHeld(AdvanceThread(s, tid, file, saveFails), id)
  {
  }

  lemma RemovalKeepsMark(s: Sys, tid: ThreadId, file: FileId, saveFails: bool, id: ItemId)
    requires CanAdvance(s, tid) && MarkIsHeld(s, id)
    requires s.threads[tid].Removing? || s.threads[tid].Deleting? || s.threads[tid].Returned?
    ensures MarkIsHeld(AdvanceThread(s, tid, file, saveFails), id)
  {
  }

  lemma StepKeepsMark(s: Sys, step: Step, id: ItemId)
    requires Inv(s) && MarkIsHeld(s, id)
    ensures MarkIsHeld(Next(s, step), id)
  {
    if step.Advance? && step.tid in s.threads {
      AdvanceKeepsInv(s, step.tid, step.file, step.saveFails);
      match s.threads[step.tid]
      case Removing(_) => RemovalKeepsMark(s, step.tid, step.file, step.saveFails, id);
      case Deleting(_, _) => RemovalKeepsMark(s, step.tid, step.file, step.saveFails, id);
      case Returned(_) => RemovalKeepsMark(s, step.tid, step.file, step.saveFails, id);
      case _ => UploadKeepsMark(s, step.tid, step.file, step.saveFails, id);
    }
  }

  lemma {:induction false} RunKeepsMark(steps: seq<Step>, id: ItemId)
    ensures MarkIsHeld(Run(steps), id)
  {
    if steps != [] {
      var n := |steps| - 1;
      RunKeepsMark(steps[..n], id);
      StepKeepsMark(Run(steps[..n]), steps[n], id);
    }
  }

  /** On every run an item is marked as being uploaded to exactly while some push is in flight on it. */
  lemma UploadingIffInFlight(steps: seq<Step>, id: ItemId)
    requires id in Run(steps).items
    ensures Run(steps).items[id].uploading <==> SomeoneUploads(Run(steps), id)
  {
    var s := Run(steps);
    RunKeepsMark(steps, id);
    forall tid | tid in s.threads && UploadsTo(s.threads[tid], id)
      ensures s.items[id].uploading
    {
      assert ThreadOk(s, tid);
    }
  }

  /** A push that got past the lookup is refused exactly if the item was removed, if another push
      completed or if another push is in flight; else it starts to save its body. */
  lemma PushStartsExactly(steps: seq<Step>, tid: ThreadId, id: ItemId, file: FileId, saveFails: bool)
    requires Get(Run(steps).threads, tid) == Some(Pushing(id)) && file !in Run(steps).files
    ensures var s := Run(steps);
            && id in s.items
            && Next(s, Advance(tid, file, saveFails)).threads[tid]
               == if s.items[id].removed then Returned(NotFound)
                  else if s.items[id].readyCloses == 1 || SomeoneUploads(s, id) then Returned(Conflict)
                  else Saving(id, file)
  {
    assert ThreadOk(Run(steps), tid) && ItemOk(Run(steps), id);
    UploadingIffInFlight(steps, id);
  }

  /** The step takes the item out of the map: a removal, or a push that finds it expired. */
  predicate Removes(step: Step, id: ItemId, expiresAt: int) {
    (step.StartRemove? && step.id == id) || (step.StartPush? && step.id == id && step.now > expiresAt)
  }

  /** How many of the steps are the thread's own. */
  function Moves(steps: seq<Step>, tid: ThreadId): nat {
    if steps == [] then 0 else
    Moves(steps[..|steps| - 1], tid) +
    (if steps[|steps| - 1].Advance? && steps[|steps| - 1].tid == tid then 1 else 0)
  }

  /** Where a push is that has saved nothing yet and then makes so many steps, none of which fails. */
  predicate OnItsWay(s: Sys, tid: ThreadId, id: ItemId, f: FileId, moves: nat) {
    && id in s.stored && id in s.items && tid in s.threads
    && s.threads[tid] == (if moves == 0 then Saving(id, f) else if moves == 1 then Saved(id, f) else Returned(Accepted))
    && (moves >= 2 ==> s.items[id].path == Some(f))
  }

  lemma OwnStepOnItsWay(s: Sys, file: FileId, tid: ThreadId, id: ItemId, f: FileId, moves: nat)
    requires CanAdvance(s, tid) && ItemOk(s, id) && OnItsWay(s, tid, id, f, moves)
    ensures OnItsWay(AdvanceThread(s, tid, file, false), tid, id, f, moves + 1)
    ensures AdvanceThread(s, tid, file, false).items[id].expiresAt == s.items[id].expiresAt
  {
  }

  lemma StepMovesNoOther(s: Sys, step: Step, tid: ThreadId)
    requires Inv(s) && tid in s.threads && !(step.Advance? && step.tid == tid)
    ensures tid in Next(s, step).threads && Next(s, step).threads[tid] == s.threads[tid]
  {
    if step.Advance? && step.tid in s.threads {
      assert CanAdvance(s, step.tid) by { AdvanceKeepsInv(s, step.tid, step.file, step.saveFails); }
      AdvanceMovesNoOther(s, step.tid, step.file, step.saveFails, tid);
    }
  }

  lemma AdvanceMovesNoOther(s: Sys, mover: ThreadId, file: FileId, saveFails: bool, tid: ThreadId)
    requires CanAdvance(s, mover) && tid in s.threads && mover != tid
    ensures tid in AdvanceThread(s, mover, file, saveFails).threads
    ensures AdvanceThread(s, mover, file, saveFails).threads[tid] == s.threads[tid]
  {
    match s.threads[mover]
    case Pushing(_) =>
    case Saving(_, _) =>
    case Saved(_, _) =>
    case _ =>
  }

  /** While a push is in flight or has been accepted, other pushes change nothing about the item; and
      nobody is removing an item that is stored. */
  lemma OthersLeaveItem(s: Sys, mover: ThreadId, file: FileId, saveFails: bool, id: ItemId, tid: ThreadId)
    requires CanAdvance(s, mover) && mover != tid && id in s.stored && id in s.items && !s.items[id].removed
    requires s.items[id].completed || Uploads(s, tid, id)
    requires ItemOk(s, id)
    ensures id in AdvanceThread(s, mover, file, saveFails).stored
    ensures id in AdvanceThread(s, mover, file, saveFails).items
    ensures AdvanceThread(s, mover, file, saveFails).items[id] == s.items[id]
  {
    match s.threads[mover]
    case Pushing(_) =>
    case Saved(_, _) =>
    case SaveFailed(_) =>
    case Removing(_) =>
    case _ =>
  }

  lemma OtherStepOnItsWay(
    s: Sys, mover: ThreadId, file: FileId, saveFails: bool, tid: ThreadId, id: ItemId, f: FileId, moves: nat)
    requires CanAdvance(s, mover) && ThreadOk(s, tid) && ItemOk(s, id) && OnItsWay(s, tid, id, f, moves)
    requires mover != tid
    ensures OnItsWay(AdvanceThread(s, mover, file, saveFails), tid, id, f, moves)
    ensures AdvanceThread(s, mover, file, saveFails).items[id].expiresAt == s.items[id].expiresAt
  {
    AdvanceMovesNoOther(s, mover, file, saveFails, tid);
    OthersLeaveItem(s, mover, file, saveFails, id, tid);
  }

  lemma StartOnItsWay(s: Sys, step: Step, tid: ThreadId, id: ItemId, f: FileId, moves: nat)
    requires Inv(s) && OnItsWay(s, tid, id, f, moves) && !step.Advance?
    requires !Removes(step, id, s.items[id].expiresAt)
    ensures OnItsWay(Next(s, step), tid, id, f, moves)
    ensures Next(s, step).items[id].expiresAt == s.items[id].expiresAt
  {
  }

  lemma StepOnItsWay(s: Sys, step: Step, tid: ThreadId, id: ItemId, f: FileId, moves: nat)
    requires Inv(s) && OnItsWay(s, tid, id, f, moves)
    requires !Removes(step, id, s.items[id].expiresAt) && !(step.Advance? && step.tid == tid && step.saveFails)
    ensures OnItsWay(Next(s, step), tid, id, f, if step.Advance? && step.tid == tid then moves + 1 else moves)
    ensures Next(s, step).items[id].expiresAt == s.items[id].expiresAt
  {
    if !step.Advance? {
      StartOnItsWay(s, step, tid, id, f, moves);
    } else if step.tid in s.threads {
      AdvanceKeepsInv(s, step.tid, step.file, step.saveFails);
      assert ThreadOk(s, tid) && ItemOk(s, id);
      if step.tid == tid {
        OwnStepOnItsWay(s, step.file, tid, id, f, moves);
      } else {
        OtherStepOnItsWay(s, step.tid, step.file, step.saveFails, tid, id, f, moves);
      }
    }
  }

  /** A push whose body is saved, on an item that nobody removes meanwhile: whatever others do in
      between, its second own step from there returns Accepted, and from then on the item serves its file
      and the file is not deleted. */
  lemma {:induction false} SavedPushIsServed(steps: seq<Step>, more: seq<Step>, tid: ThreadId, id: ItemId, f: FileId)
    requires Get(Run(steps).threads, tid) == Some(Saving(id, f)) && id in Run(steps).stored
    requires forall step <- more ::
               !Removes(step, id, Run(steps).items[id].expiresAt) &&
               !(step.Advance? && step.tid == tid && step.saveFails)
    ensures var s, moves := Run(steps + more), Moves(more, tid);
            && OnItsWay(s, tid, id, f, moves) && s.items[id].expiresAt == Run(steps).items[id].expiresAt
            && (moves >= 2 ==> s.items[id].readyCloses == 1 && f in s.files && s.files[f].deletions == 0)
    decreases |more|
  {
    if more == [] {
      assert steps + more == steps;
    } else {
      var n := |more| - 1;
      assert (steps + more)[..|steps + more| - 1] == steps + more[..n];
      SavedPushIsServed(steps, more[..n], tid, id, f);
      StepOnItsWay(Run(steps + more[..n]), more[n], tid, id, f, Moves(more[..n], tid));
    }
    assert ItemOk(Run(steps + more), id);
  }

  /** A push whose body is not saved returns Failed with its next own step, whatever others do in between. */
  lemma {:induction false} FailedPushReturns(steps: seq<Step>, more: seq<Step>, tid: ThreadId, id: ItemId)
    requires Get(Run(steps).threads, tid) == Some(SaveFailed(id))
    ensures Get(Run(steps + more).threads, tid)
            == Some(if Moves(more, tid) == 0 then SaveFailed(id) else Returned(Failed))
    decreases |more|
  {
    if more == [] {
      assert steps + more == steps;
    } else {
      var n := |more| - 1;
      assert (steps + more)[..|steps + more| - 1] == steps + more[..n];
      FailedPushReturns(steps, more[..n], tid, id);
      StepAfterFailure(Run(steps + more[..n]), more[n], tid, id, Moves(more[..n], tid));
    }
  }

  lemma StepAfterFailure(s: Sys, step: Step, tid: ThreadId, id: ItemId, moves: nat)
    requires Inv(s) && Get(s.threads, tid) == Some(if moves == 0 then SaveFailed(id) else Returned(Failed))
    ensures Get(Next(s, step).threads, tid)
            == Some(if moves == 0 && !(step.Advance? && step.tid == tid) then SaveFailed(id) else Returned(Failed))
  {
    if step.Advance? && step.tid == tid {
      assert CanAdvance(s, tid) by { AdvanceKeepsInv(s, tid, step.file, step.saveFails); }
    } else {
      StepMovesNoOther(s, step, tid);
    }
  }

  /** A push on an item that is stored and unexpired, with its ticket, of which no push completed and
      none is in flight, gets to save its body: earlier pushes that failed do not block it. */
  lemma FreeItemTakesAPush(
    steps: seq<Step>, tid: ThreadId, id: ItemId, ticket: string, now: int, file: FileId, saveFails: bool)
    requires var s := Run(steps);
             && tid !in s.threads && file !in s.files && id in s.stored && now <= s.items[id].expiresAt
             && ticket == s.items[id].ticket && s.items[id].readyCloses == 0 && !SomeoneUploads(s, id)
    ensures var s' := Run(steps + [StartPush(tid, id, ticket, now), Advance(tid, file, saveFails)]);
            && Get(s'.threads, tid) == Some(Saving(id, file)) && id in s'.stored
            && s'.items[id].expiresAt == Run(steps).items[id].expiresAt
  {
    var begun := steps + [StartPush(tid, id, ticket, now)];
    var all := steps + [StartPush(tid, id, ticket, now), Advance(tid, file, saveFails)];
    assert begun[..|begun| - 1] == steps && all[..|all| - 1] == begun;
    var s, s' := Run(steps), Run(begun);
    assert s' == Put(s, tid, Pushing(id)) && ItemOk(s, id);
    assert forall t :: t in s'.threads && t != tid ==> t in s.threads && s'.threads[t] == s.threads[t];
    PushStartsExactly(begun, tid, id, file, saveFails);
  }

  /** A push that shows this ticket before the item expires. */
  predicate ShowsTicket(step: Step, id: ItemId, ticket: string, expiresAt: int) {
    step.StartPush? && step.id == id && step.ticket == ticket && step.now <= expiresAt
  }

  predicate TicketShown(steps: seq<Step>, id: ItemId, ticket: string, expiresAt: int) {
    steps != [] &&
    (TicketShown(steps[..|steps| - 1], id, ticket, expiresAt) ||
     ShowsTicket(steps[|steps| - 1], id, ticket, expiresAt))
  }

  /** A push that the lookup let through and that has not ended. */
  predicate PushesTo(t: Thread, id: ItemId) { t == Pushing(id) || UploadsTo(t, id) }

  lemma RemoverPushesNowhere(s: Sys, tid: ThreadId, file: FileId, saveFails: bool, id: ItemId)
    requires CanAdvance(s, tid)
    requires s.threads[tid].Removing? || s.threads[tid].Deleting? || s.threads[tid].Returned?
    ensures !PushesTo(AdvanceThread(s, tid, file, saveFails).threads[tid], id)
  {
  }

  lemma PusherKeepsItem(s: Sys, tid: ThreadId, file: FileId, saveFails: bool, id: ItemId)
    requires CanAdvance(s, tid)
    requires s.threads[tid].Pushing? || s.threads[tid].Saving? || s.threads[tid].Saved? || s.threads[tid].SaveFailed?
    ensures PushesTo(AdvanceThread(s, tid, file, saveFails).threads[tid], id) ==> PushesTo(s.threads[tid], id)
  {
    match s.threads[tid]
    case Pushing(_) =>
    case Saving(_, _) =>
    case _ =>
  }

  lemma AdvanceLetsThrough(s: Sys, tid: ThreadId, file: FileId, saveFails: bool, id: ItemId)
    requires CanAdvance(s, tid)
    ensures PushesTo(AdvanceThread(s, tid, file, saveFails).threads[tid], id) ==> PushesTo(s.threads[tid], id)
  {
    match s.threads[tid]
    case Removing(_) => RemoverPushesNowhere(s, tid, file, saveFails, id);
    case Deleting(_, _) => RemoverPushesNowhere(s, tid, file, saveFails, id);
    case Returned(_) => RemoverPushesNowhere(s, tid, file, saveFails, id);
    case _ => PusherKeepsItem(s, tid, file, saveFails, id);
  }

  lemma StartLetsThrough(s: Sys, step: Step, tid: ThreadId, id: ItemId)
    requires Inv(s) && !step.Advance? && tid !in s.threads && tid in Next(s, step).threads
    requires PushesTo(Next(s, step).threads[tid], id)
    ensures id in s.items && ShowsTicket(step, id, s.items[id].ticket, s.items[id].expiresAt)
  {
    match step
    case StartPush(_, _, _, _) =>
    case StartRemove(_, _) =>
    case Add(_, _, _) =>
  }

  lemma AdvanceStartsNone(s: Sys, tid: ThreadId, file: FileId, saveFails: bool)
    requires CanAdvance(s, tid)
    ensures AdvanceThread(s, tid, file, saveFails).threads.Keys == s.threads.Keys
  {
    match s.threads[tid]
    case Pushing(_) =>
    case Saving(_, _) =>
    case Saved(_, _) =>
    case _ =>
  }

  lemma MovedLetsThrough(s: Sys, step: Step, tid: ThreadId, id: ItemId)
    requires Inv(s) && step.Advance? && tid in Next(s, step).threads && PushesTo(Next(s, step).threads[tid], id)
    ensures tid in s.threads && PushesTo(s.threads[tid], id)
  {
    if step.tid in s.threads {
      assert CanAdvance(s, step.tid) by { AdvanceKeepsInv(s, step.tid, step.file, step.saveFails); }
      AdvanceStartsNone(s, step.tid, step.file, step.saveFails);
      if step.tid == tid {
        AdvanceLetsThrough(s, tid, step.file, step.saveFails, id);
      } else {
        AdvanceMovesNoOther(s, step.tid, step.file, step.saveFails, tid);
      }
    }
  }

  /** A thread pushes to an item only if it did before, or was let through by the lookup just now. */
  lemma StepLetsThrough(s: Sys, step: Step, tid: ThreadId, id: ItemId)
    requires Inv(s) && tid in Next(s, step).threads && PushesTo(Next(s, step).threads[tid], id)
    ensures id in s.items
    ensures || (tid in s.threads && PushesTo(s.threads[tid], id))
            || ShowsTicket(step, id, s.items[id].ticket, s.items[id].expiresAt)
  {
    if step.Advance? {
      MovedLetsThrough(s, step, tid, id);
    } else if tid in s.threads {
      StepMovesNoOther(s, step, tid);
    } else {
      StartLetsThrough(s, step, tid, id);
    }
    assert tid in s.threads ==> ThreadOk(s, tid);
  }

  predicate SameTicket(i: Item, j: Item) { i.ticket == j.ticket && i.expiresAt == j.expiresAt }

  lemma AdvanceCompletes(s: Sys, tid: ThreadId, file: FileId, saveFails: bool, id: ItemId)
    requires CanAdvance(s, tid) && id in s.items
    ensures var s' := AdvanceThread(s, tid, file, saveFails);
            && id in s'.items && SameTicket(s'.items[id], s.items[id])
            && (s'.items[id].completed ==> s.items[id].completed || UploadsTo(s.threads[tid], id))
  {
    match s.threads[tid]
    case Pushing(_) =>
    case Saving(_, _) =>
    case Saved(_, _) =>
    case SaveFailed(_) =>
    case _ =>
  }

  /** An item keeps its ticket and its time, and is completed only by a push to it. */
  lemma StepCompletes(s: Sys, step: Step, id: ItemId)
    requires Inv(s) && id in s.items
    ensures var s' := Next(s, step);
            && id in s'.items && SameTicket(s'.items[id], s.items[id])
            && (s'.items[id].completed ==> s.items[id].completed || SomeoneUploads(s, id))
  {
    if step.Advance? && step.tid in s.threads {
      assert CanAdvance(s, step.tid) by { AdvanceKeepsInv(s, step.tid, step.file, step.saveFails); }
      AdvanceCompletes(s, step.tid, step.file, step.saveFails, id);
    }
  }

  lemma AdvanceAddsNoItem(s: Sys, tid: ThreadId, file: FileId, saveFails: bool)
    requires CanAdvance(s, tid)
    ensures AdvanceThread(s, tid, file, saveFails).items.Keys == s.items.Keys
  {
    match s.threads[tid]
    case Pushing(_) =>
    case Saved(_, _) =>
    case _ =>
  }

  lemma OnlyAddAdds(s: Sys, step: Step)
    requires Inv(s)
    ensures step.Add? || Next(s, step).items.Keys == s.items.Keys
  {
    if step.Advance? && step.tid in s.threads {
      assert CanAdvance(s, step.tid) by { AdvanceKeepsInv(s, step.tid, step.file, step.saveFails); }
      AdvanceAddsNoItem(s, step.tid, step.file, step.saveFails);
    }
  }

  /** On every run an item that some push is let through to, and an item that a push completed, was
      shown its own ticket before its time by some push. */
  lemma {:induction false} TicketWasShown(steps: seq<Step>, id: ItemId)
    requires id in Run(steps).items
    ensures var s, i := Run(steps), Run(steps).items[id];
            && (i.readyCloses == 1 ==> TicketShown(steps, id, i.ticket, i.expiresAt))
            && (forall tid :: tid in s.threads && PushesTo(s.threads[tid], id) ==>
                  TicketShown(steps, id, i.ticket, i.expiresAt))
  {
    var n := |steps| - 1;
    var s, s' := Run(steps[..n]), Run(steps);
    assert ItemOk(s', id);
    OnlyAddAdds(s, steps[n]);
    if id in s.items {
      TicketWasShown(steps[..n], id);
      StepCompletes(s, steps[n], id);
      assert ItemOk(s, id);
    }
    forall tid | tid in s'.threads && PushesTo(s'.threads[tid], id)
      ensures TicketShown(steps, id, s'.items[id].ticket, s'.items[id].expiresAt)
    {
      StepLetsThrough(s, steps[n], tid, id);
    }
  }

  /** Where a removal is after so many steps of its own. */
  predicate OnItsWayOut(s: Sys, tid: ThreadId, id: ItemId, moves: nat) {
    && id !in s.stored && id in s.items && tid in s.threads
    && (moves == 0 ==> s.threads[tid] == Removing(id))
    && (moves == 1 ==> (s.threads[tid].Deleting? && s.threads[tid].item == id) || s.threads[tid] == Returned(NotFound))
    && (moves >= 2 ==> s.threads[tid] == Returned(NotFound))
    && (moves >= 1 ==> s.items[id].removed && s.items[id].path == None)
  }

  lemma OwnStepOut(s: Sys, tid: ThreadId, file: FileId, saveFails: bool, id: ItemId, moves: nat)
    requires CanAdvance(s, tid) && OnItsWayOut(s, tid, id, moves)
    ensures OnItsWayOut(AdvanceThread(s, tid, file, saveFails), tid, id, moves + 1)
  {
  }

  /** What others do to an item that is out of the map. */
  lemma OthersLeaveItOut(s: Sys, mover: ThreadId, file: FileId, saveFails: bool, id: ItemId)
    requires CanAdvance(s, mover) && id !in s.stored && id in s.items
    ensures var s' := AdvanceThread(s, mover, file, saveFails);
            && id !in s'.stored && id in s'.items
            && (s.items[id].removed && s.items[id].path == None ==> s'.items[id].removed && s'.items[id].path == None)
  {
    match s.threads[mover]
    case Pushing(_) =>
    case Saved(_, _) =>
    case SaveFailed(_) =>
    case Removing(_) =>
    case _ =>
  }

  lemma StartLeavesItOut(s: Sys, step: Step, id: ItemId)
    requires Inv(s) && !step.Advance? && id !in s.stored && id in s.items
    ensures id !in Next(s, step).stored && id in Next(s, step).items && Next(s, step).items[id] == s.items[id]
  {
    match step
    case Add(_, _, _) =>
    case StartPush(_, _, _, _) =>
    case StartRemove(_, _) =>
  }

  lemma StepOut(s: Sys, step: Step, tid: ThreadId, id: ItemId, moves: nat)
    requires Inv(s) && OnItsWayOut(s, tid, id, moves)
    ensures OnItsWayOut(Next(s, step), tid, id, if step.Advance? && step.tid == tid then moves + 1 else moves)
  {
    if step.Advance? && step.tid in s.threads {
      assert CanAdvance(s, step.tid) by { AdvanceKeepsInv(s, step.tid, step.file, step.saveFails); }
      if step.tid == tid {
        OwnStepOut(s, tid, step.file, step.saveFails, id, moves);
      } else {
        OthersLeaveItOut(s, step.tid, step.file, step.saveFails, id);
        AdvanceMovesNoOther(s, step.tid, step.file, step.saveFails, tid);
      }
    } else if !step.Advance? {
      StartLeavesItOut(s, step, id);
      StepMovesNoOther(s, step, tid);
    }
  }

  /** A removal of a stored item, or a push that finds it expired, takes it out of the map at once and
      for good; its first own step marks it removed, without a file from then on; its second returns. */
  lemma {:induction false} RemovalRuns(steps: seq<Step>, start: Step, more: seq<Step>)
    requires start.StartRemove? || start.StartPush?
    requires start.tid !in Run(steps).threads && start.id in Run(steps).stored && start.id in Run(steps).items
    requires Removes(start, start.id, Run(steps).items[start.id].expiresAt)
    ensures OnItsWayOut(Run(steps + [start] + more), start.tid, start.id, Moves(more, start.tid))
    decreases |more|
  {
    var begun := steps + [start];
    if more == [] {
      assert begun + more == begun && begun[..|begun| - 1] == steps;
    } else {
      var n := |more| - 1;
      assert (begun + more)[..|begun + more| - 1] == begun + more[..n];
      RemovalRuns(steps, start, more[..n]);
      StepOut(Run(begun + more[..n]), more[n], start.tid, start.id, Moves(more[..n], start.tid));
    }
  }
}
