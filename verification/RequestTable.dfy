/** The pending-request table of the browser's desktop session.

    Every event is one step: a call by the page, an event of one of the session's sockets, or a
    timer that fires. A request's promise is known by its number in the order of the sends. */
module RequestTable {
  import opened Prelude

  datatype Connection = Idle | Connecting | Open | Closed | Error

  datatype Outcome = Resolved | TimedOut | Refused | Disconnected | NotConnected

  /** The calls of resolve and reject a promise has had. */
  datatype Request = Request(id: string, calls: seq<Outcome>)

  datatype Pending = Pending(request: nat, timer: nat, resolveOnStreamDone: bool)

  /** `timers` holds the live timers and the request each was started for; `handles` counts those
      ever started. `connects` says of each socket whether its connect promise is settled. */
  datatype Session = Session(
    socket: Option<nat>,
    state: Connection,
    pending: map<string, Pending>,
    timers: map<nat, nat>,
    handles: nat,
    requests: seq<Request>,
    connects: seq<bool>)

  const NEW := Session(None, Idle, map[], map[], 0, [], [])

  /** A parsed frame; `id` is trimmed, and empty when the frame has none. */
  datatype Frame =
    | Push
    | Stream(id: string, reason: string)
    | Response(id: string)
    | Failure(id: string)
    | Other(id: string)

  datatype Event =
    | Connect
    | ConnectThrows
    | Opened(n: nat)
    | ConnectFailed(n: nat)
    | SocketClosed(n: nat)
    | Message(frame: Option<Frame>)
    | Send(id: string, resolveOnStreamDone: bool)
    | Expire(timer: nat)
    | Close

  // ---------------------------------------------------------------- the steps as functions

  function Call(rs: seq<Request>, k: nat, o: Outcome): (r: seq<Request>)
    ensures |r| == |rs|
  {
    if k < |rs| then rs[k := Request(rs[k].id, rs[k].calls + [o])] else rs
  }

  /** Takes one entry out, stops its timer and settles its request. */
  function Settle(s: Session, id: string, o: Outcome): Session {
    if id !in s.pending then s else
      var p := s.pending[id];
      s.(pending := s.pending - {id}, timers := s.timers - {p.timer}, requests := Call(s.requests, p.request, o))
  }

  function Waiting(pending: map<string, Pending>): set<nat> { set id | id in pending :: pending[id].request }

  function Timers(pending: map<string, Pending>): set<nat> { set id | id in pending :: pending[id].timer }

  function CallAll(rs: seq<Request>, which: set<nat>, o: Outcome): (r: seq<Request>)
    ensures |r| == |rs|
  {
    seq(|rs|, k requires 0 <= k < |rs| => if k in which then Request(rs[k].id, rs[k].calls + [o]) else rs[k])
  }

  /** Every entry names a request with the entry's own id. */
  predicate Matched(pending: map<string, Pending>, rs: seq<Request>) {
    forall id :: id in pending ==> pending[id].request < |rs| && rs[pending[id].request].id == id
  }

  /** Rejecting one entry more. */
  lemma OneMoreEntry(rs: seq<Request>, done: map<string, Pending>, id: string, p: Pending, o: Outcome)
    requires id !in done && Matched(done[id := p], rs)
    ensures Timers(done[id := p]) == Timers(done) + {p.timer}
    ensures Call(CallAll(rs, Waiting(done), o), p.request, o) == CallAll(rs, Waiting(done[id := p]), o)
  {
    var after := done[id := p];
    assert after[id] == p;
    forall other | other in done
      ensures after[other] == done[other] && done[other].request != p.request
      ensures done[other].request in Waiting(after) && done[other].timer in Timers(after)
    {
      assert other in after;
    }
    assert Waiting(after) == Waiting(done) + {p.request};
    assert Timers(after) == Timers(done) + {p.timer};
    assert p.request !in Waiting(done);
  }

  lemma OneMoreDone(all: map<string, Pending>, rest: set<string>, id: string)
    requires id in rest && rest <= all.Keys
    ensures (all - rest)[id := all[id]] == all - (rest - {id})
  {
  }

  lemma NoEntries(rs: seq<Request>)
    ensures Timers(map[]) == {} && CallAll(rs, Waiting(map[]), Disconnected) == rs
  {
    assert Waiting(map[]) == {};
  }

  function RejectPending(s: Session): Session {
    s.(pending := map[],
       timers := s.timers - Timers(s.pending),
       requests := CallAll(s.requests, Waiting(s.pending), Disconnected))
  }

  function Receive(s: Session, f: Frame): Session {
    match f
    case Push => s
    case Stream(id, reason) =>
      if id != "" && id in s.pending && s.pending[id].resolveOnStreamDone && reason != ""
      then Settle(s, id, Resolved) else s
    case Response(id) => if id == "" then s else Settle(s, id, Resolved)
    case Failure(id) => if id == "" then s else Settle(s, id, Refused)
    case Other(_) => s
  }

  function SendRequest(s: Session, id: string, resolveOnStreamDone: bool): Session {
    if s.socket.None? || s.state != Open
    then s.(requests := s.requests + [Request(id, [NotConnected])])
    else s.(pending := s.pending[id := Pending(|s.requests|, s.handles, resolveOnStreamDone)],
            timers := s.timers[s.handles := |s.requests|],
            handles := s.handles + 1,
            requests := s.requests + [Request(id, [])])
  }

  function ExpireTimer(s: Session, timer: nat): Session {
    if timer !in s.timers || s.timers[timer] >= |s.requests| then s else
      var k := s.timers[timer];
      s.(pending := s.pending - {s.requests[k].id},
         timers := s.timers - {timer},
         requests := Call(s.requests, k, TimedOut))
  }

  function FinishConnect(s: Session, n: nat, next: Connection): Session {
    if n >= |s.connects| || s.connects[n] then s else s.(connects := s.connects[n := true], state := next)
  }

  function Apply(s: Session, e: Event): Session {
    match e
    case Connect =>
      if s.state in {Open, Connecting} then s
      else s.(state := Connecting, socket := Some(|s.connects|), connects := s.connects + [false])
    case ConnectThrows => if s.state in {Open, Connecting} then s else s.(state := Error)
    case Opened(n) => FinishConnect(s, n, Open)
    case ConnectFailed(n) => FinishConnect(s, n, Error)
    case SocketClosed(_) => RejectPending(s).(state := if s.state == Error then Error else Closed)
    case Message(f) => if f.None? then s else Receive(s, f.value)
    case Send(id, done) => SendRequest(s, id, done)
    case Expire(timer) => ExpireTimer(s, timer)
    case Close => RejectPending(s).(socket := None, state := Closed)
  }

  function Run(s: Session, events: seq<Event>): Session {
    if events == [] then s else Apply(Run(s, events[..|events| - 1]), events[|events| - 1])
  }

  /** A send that is accepted does not use the id of a request still waiting. */
  predicate IdFree(s: Session, e: Event) {
    e.Send? && s.socket.Some? && s.state == Open ==> e.id !in s.pending
  }

  /** The same for every event of a run, each in the state the ones before it led to. */
  predicate IdsFree(events: seq<Event>) {
    events == [] ||
    (IdsFree(events[..|events| - 1]) && IdFree(Run(NEW, events[..|events| - 1]), events[|events| - 1]))
  }

  // ---------------------------------------------------------------- the invariant

  predicate Settled(s: Session, k: nat) { k < |s.requests| && s.requests[k].calls != [] }

  /** The table entry of request k is its own, with a live timer of its own. */
  predicate Waits(s: Session, k: nat) {
    && k < |s.requests| && s.requests[k].id in s.pending
    && s.pending[s.requests[k].id].request == k
    && Get(s.timers, s.pending[s.requests[k].id].timer) == Some(k)
  }

  predicate RequestOk(s: Session, k: nat)
    requires k < |s.requests|
  {
    |s.requests[k].calls| <= 1 && (Settled(s, k) <==> !Waits(s, k))
  }

  predicate EntryOk(s: Session, id: string)
    requires id in s.pending
  {
    var k := s.pending[id].request;
    k < |s.requests| && s.requests[k].id == id && Waits(s, k)
  }

  predicate TimerOk(s: Session, t: nat)
    requires t in s.timers
  {
    var k := s.timers[t];
    t < s.handles && Waits(s, k) && s.pending[s.requests[k].id].timer == t
  }

  ghost predicate Inv(s: Session) {
    && (forall k: nat :: k < |s.requests| ==> RequestOk(s, k))
    && (forall id :: id in s.pending ==> EntryOk(s, id))
    && (forall t :: t in s.timers ==> TimerOk(s, t))
  }

  lemma SettleKeepsInv(s: Session, id: string, o: Outcome)
    requires Inv(s)
    ensures Inv(Settle(s, id, o))
  {
    if id in s.pending {
      var t := Settle(s, id, o);
      var done := s.pending[id].request;
      assert EntryOk(s, id) && RequestOk(s, done);
      forall k: nat | k < |t.requests|
        ensures k != done ==> (Waits(t, k) <==> Waits(s, k))
        ensures RequestOk(t, k)
      {
        assert RequestOk(s, k);
      }
      forall other | other in t.pending
        ensures EntryOk(t, other)
      {
        assert EntryOk(s, other);
      }
      forall timer | timer in t.timers
        ensures TimerOk(t, timer)
      {
        assert TimerOk(s, timer);
      }
    }
  }

  lemma ExpireSettles(s: Session, timer: nat)
    requires Inv(s) && timer in s.timers
    ensures TimerOk(s, timer)
    ensures ExpireTimer(s, timer) == Settle(s, s.requests[s.timers[timer]].id, TimedOut)
  {
    assert TimerOk(s, timer);
  }

  lemma RejectPendingSettlesAll(s: Session)
    requires Inv(s)
    ensures Inv(RejectPending(s)) && RejectPending(s).timers == map[]
    ensures forall k: nat :: k < |s.requests| ==> |RejectPending(s).requests[k].calls| == 1
  {
    var t := RejectPending(s);
    forall h | h in s.timers
      ensures h in Timers(s.pending)
    {
      assert TimerOk(s, h);
    }
    assert t.timers == map[];
    forall k: nat | k < |s.requests|
      ensures |t.requests[k].calls| == 1 && RequestOk(t, k)
    {
      assert RequestOk(s, k);
      if Waits(s, k) {
        assert k in Waiting(s.pending);
      } else {
        assert forall id :: id in s.pending ==> EntryOk(s, id);
        assert k !in Waiting(s.pending);
      }
    }
  }

  lemma SendKeepsInv(s: Session, id: string, done: bool)
    requires Inv(s) && IdFree(s, Send(id, done))
    ensures Inv(SendRequest(s, id, done))
  {
    var t := SendRequest(s, id, done);
    forall timer | timer in s.timers
      ensures timer != s.handles
    {
      assert TimerOk(s, timer);
    }
    forall k: nat | k < |t.requests|
      ensures k < |s.requests| && Waits(s, k) ==> Waits(t, k)
      ensures RequestOk(t, k)
    {
      if k < |s.requests| {
        assert RequestOk(s, k);
      }
    }
    forall other | other in t.pending
      ensures EntryOk(t, other)
    {
      if other in s.pending {
        assert EntryOk(s, other);
      }
    }
    forall timer | timer in t.timers
      ensures TimerOk(t, timer)
    {
      if timer in s.timers {
        assert TimerOk(s, timer);
      }
    }
  }

  /** Only the table, the timers and the promises matter to the invariant. */
  lemma InvIgnoresConnection(s: Session, t: Session)
    requires Inv(s)
    requires t == s.(socket := t.socket, state := t.state, connects := t.connects)
    ensures Inv(t)
  {
    assert forall k: nat :: Waits(t, k) <==> Waits(s, k);
    forall k: nat | k < |t.requests| ensures RequestOk(t, k) { assert RequestOk(s, k); }
    forall id | id in t.pending ensures EntryOk(t, id) { assert EntryOk(s, id); }
    forall h | h in t.timers ensures TimerOk(t, h) { assert TimerOk(s, h); }
  }

  lemma StepKeepsInv(s: Session, e: Event)
    requires Inv(s) && IdFree(s, e)
    ensures Inv(Apply(s, e))
  {
    match e
    case SocketClosed(_) =>
      RejectPendingSettlesAll(s);
      InvIgnoresConnection(RejectPending(s), Apply(s, e));
    case Close =>
      RejectPendingSettlesAll(s);
      InvIgnoresConnection(RejectPending(s), Apply(s, e));
    case Message(f) =>
      if f.Some? && !f.value.Push? {
        SettleKeepsInv(s, f.value.id, Resolved);
        SettleKeepsInv(s, f.value.id, Refused);
      }
    case Send(id, done) => SendKeepsInv(s, id, done);
    case Expire(timer) =>
      if timer in s.timers {
        ExpireSettles(s, timer);
        SettleKeepsInv(s, s.requests[s.timers[timer]].id, TimedOut);
      }
    case _ => InvIgnoresConnection(s, Apply(s, e));
  }

  /** The sends of a run, in order. */
  function SentIds(events: seq<Event>): seq<string> {
    if events == [] then [] else
      var last := events[|events| - 1];
      SentIds(events[..|events| - 1]) + if last.Send? then [last.id] else []
  }

  function Ids(rs: seq<Request>): (r: seq<string>)
    ensures |r| == |rs|
  {
    seq(|rs|, k requires 0 <= k < |rs| => rs[k].id)
  }

  lemma ApplyIds(s: Session, e: Event)
    ensures Ids(Apply(s, e).requests) == Ids(s.requests) + if e.Send? then [e.id] else []
  {
  }

  lemma {:induction false} SentIdsAre(events: seq<Event>)
    ensures Ids(Run(NEW, events).requests) == SentIds(events)
  {
    if events != [] {
      SentIdsAre(events[..|events| - 1]);
      ApplyIds(Run(NEW, events[..|events| - 1]), events[|events| - 1]);
    }
  }

  lemma {:induction false} RunKeepsInv(events: seq<Event>)
    requires IdsFree(events)
    ensures Inv(Run(NEW, events))
  {
    if events != [] {
      RunKeepsInv(events[..|events| - 1]);
      StepKeepsInv(Run(NEW, events[..|events| - 1]), events[|events| - 1]);
    }
  }

  // ---------------------------------------------------------------- main results

  /** In every run the table holds exactly the requests that are sent and not settled, each with one
      live timer, there are no other timers, and no request is settled twice. */
  lemma TableIsTheUnsettled(events: seq<Event>)
    requires IdsFree(events)
    ensures var s := Run(NEW, events);
            && Ids(s.requests) == SentIds(events)
            && Waiting(s.pending) == (set k: nat | k < |s.requests| && s.requests[k].calls == [])
            && s.timers.Keys == Timers(s.pending)
            && (forall id :: id in s.pending ==> Get(s.timers, s.pending[id].timer) == Some(s.pending[id].request))
            && (forall k: nat :: k in Waiting(s.pending) ==> s.requests[k].id in s.pending)
            && (forall k: nat :: k < |s.requests| ==> |s.requests[k].calls| <= 1)
  {
    RunKeepsInv(events);
    SentIdsAre(events);
    var s := Run(NEW, events);
    forall id | id in s.pending
      ensures Get(s.timers, s.pending[id].timer) == Some(s.pending[id].request)
    {
      assert EntryOk(s, id);
    }
    forall k: nat
      ensures k in Waiting(s.pending) <==> k < |s.requests| && s.requests[k].calls == []
      ensures k in Waiting(s.pending) ==> s.requests[k].id in s.pending
      ensures k < |s.requests| ==> |s.requests[k].calls| <= 1
    {
      assert k < |s.requests| ==> RequestOk(s, k);
      if id :| id in s.pending && s.pending[id].request == k {
        assert EntryOk(s, id);
      }
    }
    forall t | t in s.timers
      ensures t in Timers(s.pending)
    {
      assert TimerOk(s, t);
    }
  }

  /** After a close, by the page or by any socket, every request ever sent is settled, once. */
  lemma CloseSettlesEverything(events: seq<Event>, close: Event)
    requires IdsFree(events) && (close.Close? || close.SocketClosed?)
    ensures var s := Run(NEW, events + [close]);
            && s.pending == map[] && s.timers == map[] && s.state in {Closed, Error}
            && forall k :: 0 <= k < |s.requests| ==> |s.requests[k].calls| == 1
  {
    RunKeepsInv(events);
    assert (events + [close])[..|events|] == events;
    RejectPendingSettlesAll(Run(NEW, events));
  }

  /** A settled request is never touched again, whatever follows. */
  lemma {:induction false} OutcomesAreFinal(events: seq<Event>, more: seq<Event>, k: nat)
    requires IdsFree(events + more) && Settled(Run(NEW, events), k)
    ensures k < |Run(NEW, events + more).requests|
    ensures Run(NEW, events + more).requests[k] == Run(NEW, events).requests[k]
  {
    if more == [] {
      assert events + more == events;
    } else {
      var front, last := events + more[..|more| - 1], more[|more| - 1];
      assert events + more == front + [last];
      LastIsFree(front, last);
      OutcomesAreFinal(events, more[..|more| - 1], k);
      FinalStep(front, last, k);
    }
  }

  lemma LastIsFree(events: seq<Event>, e: Event)
    ensures IdsFree(events + [e]) <==> IdsFree(events) && IdFree(Run(NEW, events), e)
  {
    assert (events + [e])[..|events|] == events;
  }

  lemma FinalStep(events: seq<Event>, e: Event, k: nat)
    requires IdsFree(events) && Settled(Run(NEW, events), k)
    ensures k < |Run(NEW, events + [e]).requests|
    ensures Run(NEW, events + [e]).requests[k] == Run(NEW, events).requests[k]
  {
    RunKeepsInv(events);
    RunSnoc(events, e);
    SettledStays(Run(NEW, events), e, k);
  }

  lemma SettledStays(s: Session, e: Event, k: nat)
    requires Inv(s) && Settled(s, k)
    ensures k < |Apply(s, e).requests| && Apply(s, e).requests[k] == s.requests[k]
  {
    assert RequestOk(s, k) && !Waits(s, k);
    assert forall id :: id in s.pending ==> EntryOk(s, id);
    assert forall t :: t in s.timers ==> TimerOk(s, t);
  }

  /** A frame settles at most the waiting request whose id it carries. */
  lemma FrameSettlesItsRequest(s: Session, f: Frame, k: nat)
    requires Inv(s) && k < |s.requests|
    ensures var t := Apply(s, Message(Some(f)));
            t.requests[k] != s.requests[k] <==>
              && !f.Push? && !f.Other? && f.id == s.requests[k].id && f.id != "" && Waits(s, k)
              && (f.Stream? ==> s.pending[f.id].resolveOnStreamDone && f.reason != "")
  {
    if !f.Push? && f.id in s.pending {
      assert EntryOk(s, f.id);
      var k' := s.pending[f.id].request;
      assert Call(s.requests, k', Resolved)[k'].calls != s.requests[k'].calls;
      assert Call(s.requests, k', Refused)[k'].calls != s.requests[k'].calls;
    }
  }

  /** What a request becomes that this event settles. */
  function OutcomeOf(e: Event): Outcome {
    match e
    case Message(Some(Failure(_))) => Refused
    case Message(_) => Resolved
    case Expire(_) => TimedOut
    case Send(_, _) => NotConnected
    case _ => Disconnected
  }

  /** The event is a frame with this id that may settle a request, or a send of it, or one for all. */
  predicate Concerns(e: Event, id: string) {
    match e
    case Message(Some(f)) => !f.Push? && !f.Other? && f.id == id
    case Send(sent, _) => sent == id
    case _ => e.Expire? || e.SocketClosed? || e.Close?
  }

  lemma StepOutcome(s: Session, e: Event, k: nat)
    requires Inv(s) && k < |Apply(s, e).requests| && (k < |s.requests| ==> s.requests[k].calls == [])
    requires Settled(Apply(s, e), k)
    ensures Apply(s, e).requests[k].calls == [OutcomeOf(e)] && Concerns(e, Apply(s, e).requests[k].id)
    ensures e.Expire? ==> Get(s.timers, e.timer) == Some(k)
  {
    if e.Message? && e.frame.Some? && !e.frame.value.Push? && e.frame.value.id in s.pending {
      assert EntryOk(s, e.frame.value.id);
    }
  }

  /** Over every run a settled request became what one event made of it: resolved by a response or a
      closing stream frame, refused by an error, each with its id; timed out by its own timer;
      disconnected by a close; or not connected by its own send. */
  lemma {:induction false} OutcomeHasItsEvent(events: seq<Event>, k: nat) returns (i: nat)
    requires IdsFree(events) && Settled(Run(NEW, events), k)
    ensures i < |events|
    ensures Run(NEW, events).requests[k].calls == [OutcomeOf(events[i])]
    ensures Concerns(events[i], Run(NEW, events).requests[k].id)
    ensures events[i].Expire? ==> Get(Run(NEW, events[..i]).timers, events[i].timer) == Some(k)
  {
    var n := |events| - 1;
    var s := Run(NEW, events[..n]);
    RunKeepsInv(events[..n]);
    if Settled(s, k) {
      i := OutcomeHasItsEvent(events[..n], k);
      assert events[..n][..i] == events[..i];
      SettledStays(s, events[n], k);
    } else {
      i := n;
      StepOutcome(s, events[n], k);
    }
  }

  /** A close now would settle every request sent so far. */
  predicate ClosableNow(events: seq<Event>) {
    var s := Run(NEW, events + [Close]);
    forall k :: 0 <= k < |s.requests| ==> s.requests[k].calls != []
  }

  /** An accepted send that reuses a waiting id takes the place of the waiting request, which no
      close settles any more. */
  lemma ReuseLosesARequest(s: Session, e: Event)
    requires Inv(s) && !IdFree(s, e)
    ensures var t := Apply(Apply(s, e), Close);
            s.pending[e.id].request < |t.requests| && t.requests[s.pending[e.id].request].calls == []
  {
    var k := s.pending[e.id].request;
    assert EntryOk(s, e.id) && RequestOk(s, k);
    assert forall id :: id in s.pending ==> EntryOk(s, id);
    assert k !in Waiting(SendRequest(s, e.id, e.resolveOnStreamDone).pending);
  }

  /** At no moment of the run so far was it otherwise. */
  predicate ClosableThroughout(events: seq<Event>) {
    ClosableNow(events) && (events == [] || ClosableThroughout(events[..|events| - 1]))
  }

  lemma NotClosable(events: seq<Event>, e: Event)
    requires IdsFree(events) && !IdFree(Run(NEW, events), e)
    ensures !ClosableNow(events + [e])
  {
    RunKeepsInv(events);
    ReuseLosesARequest(Run(NEW, events), e);
    RunSnoc(events, e);
    RunSnoc(events + [e], Close);
  }

  lemma Closable(events: seq<Event>)
    requires IdsFree(events)
    ensures ClosableNow(events)
  {
    CloseSettlesEverything(events, Close);
  }

  /** At every moment of a run a close would settle everything sent, if and only if no accepted send
      used the id of a request still waiting. */
  lemma {:induction false} ClosableIffIdsFree(events: seq<Event>)
    ensures IdsFree(events) <==> ClosableThroughout(events)
  {
    if IdsFree(events) {
      Closable(events);
    }
    if events != [] {
      var front, last := events[..|events| - 1], events[|events| - 1];
      ClosableIffIdsFree(front);
      if IdsFree(front) && !IdFree(Run(NEW, front), last) {
        assert front + [last] == events;
        NotClosable(front, last);
      }
    }
  }

  /** One such run: an id is sent twice, and the close settles the second request only. */
  lemma ReusedIdIsLost(id: string)
    ensures var s := Run(NEW, [Connect, Opened(0), Send(id, false), Send(id, false), Close]);
            s.requests == [Request(id, []), Request(id, [Disconnected])] && s.timers == map[0 := 0]
  {
    SentTwice(id);
    var events := [Connect, Opened(0), Send(id, false), Send(id, false)];
    assert [Connect, Opened(0), Send(id, false), Send(id, false), Close] == events + [Close];
    RunSnoc(events, Close);
    var s := Run(NEW, events);
    OneEntry(id, Pending(1, 1, false));
    assert [] + [Disconnected] == [Disconnected];
    assert CallAll(s.requests, {1}, Disconnected) == [Request(id, []), Request(id, [Disconnected])];
  }

  lemma OneEntry(id: string, p: Pending)
    ensures Timers(map[id := p]) == {p.timer} && Waiting(map[id := p]) == {p.request}
  {
    assert id in map[id := p];
  }

  /** A close reported late by an older socket ends the session of the newer one: the request sent
      over the newer socket is rejected although that socket is open. */
  lemma OlderSocketEndsTheSession(id: string)
    ensures var s := Run(NEW, [Connect, Close, Connect, Opened(1), Send(id, false), SocketClosed(0)]);
            s.socket == Some(1) && s.state == Closed && s.requests == [Request(id, [Disconnected])]
  {
    var events := [Connect, Close, Connect, Opened(1)];
    SecondSocket();
    assert [Connect, Close, Connect, Opened(1), Send(id, false)] == events + [Send(id, false)];
    RunSnoc(events, Send(id, false));
    var sent := events + [Send(id, false)];
    assert [Connect, Close, Connect, Opened(1), Send(id, false), SocketClosed(0)] == sent + [SocketClosed(0)];
    RunSnoc(sent, SocketClosed(0));
    var s := Run(NEW, sent);
    assert s.pending == map[id := Pending(0, 0, false)] && s.requests == [Request(id, [])];
    OneEntry(id, Pending(0, 0, false));
    assert [] + [Disconnected] == [Disconnected];
    assert CallAll(s.requests, {0}, Disconnected) == [Request(id, [Disconnected])];
  }

  lemma SecondSocket()
    ensures Run(NEW, [Connect, Close, Connect, Opened(1)]) == Session(Some(1), Open, map[], map[], 0, [], [false, true])
  {
    assert [] + [Connect] == [Connect] && [Connect] + [Close] == [Connect, Close];
    assert [Connect, Close] + [Connect] == [Connect, Close, Connect];
    assert [Connect, Close, Connect] + [Opened(1)] == [Connect, Close, Connect, Opened(1)];
    RunSnoc([], Connect);
    RunSnoc([Connect], Close);
    NoEntries([]);
    assert Run(NEW, [Connect, Close]) == Session(None, Closed, map[], map[], 0, [], [false]);
    RunSnoc([Connect, Close], Connect);
    RunSnoc([Connect, Close, Connect], Opened(1));
  }

  lemma SentTwice(id: string)
    ensures Run(NEW, [Connect, Opened(0), Send(id, false), Send(id, false)])
            == Session(Some(0), Open, map[id := Pending(1, 1, false)], map[0 := 0, 1 := 1], 2,
                       [Request(id, []), Request(id, [])], [true])
  {
    var a, b, c := Connect, Opened(0), Send(id, false);
    assert [] + [a] == [a] && [a] + [b] == [a, b] && [a, b] + [c] == [a, b, c] && [a, b, c] + [c] == [a, b, c, c];
    RunSnoc([], a);
    RunSnoc([a], b);
    RunSnoc([a, b], c);
    RunSnoc([a, b, c], c);
  }

  lemma RunSnoc(events: seq<Event>, e: Event)
    ensures Run(NEW, events + [e]) == Apply(Run(NEW, events), e)
  {
    assert (events + [e])[..|events|] == events;
  }

  // ---------------------------------------------------------------- the object

  /** The session, together with the timers and promises the browser keeps for it. */
  class DesktopWsSession {
    var socket: Option<nat>
    var state: Connection
    var pending: map<string, Pending>
    var timers: map<nat, nat>
    var handles: nat
    var requests: seq<Request>
    var connects: seq<bool>

    function View(): Session reads this {
      Session(socket, state, pending, timers, handles, requests, connects)
    }

    /** Holds even when ids are sent twice. */
    predicate Valid() reads this {
      && Matched(pending, requests)
      && (forall t :: t in timers ==> timers[t] < |requests|)
    }

    constructor ()
      ensures Valid() && View() == NEW
    {
      socket, state, pending, timers, handles, requests, connects := None, Idle, map[], map[], 0, [], [];
    }

    method Connect(throws: bool)
      requires Valid()
      modifies this
      ensures Valid() && View() == Apply(old(View()), if throws then ConnectThrows else Event.Connect)
    {
      if state == Open || state == Connecting {
        return;
      }
      state := Connecting;
      if throws {
        state := Error;
        return;
      }
      socket := Some(|connects|);
      connects := connects + [false];
    }

    method OnOpen(n: nat)
      requires Valid()
      modifies this
      ensures Valid() && View() == Apply(old(View()), Opened(n))
    {
      if n >= |connects| || connects[n] {
        return;
      }
      connects := connects[n := true];
      state := Open;
    }

    method OnConnectFailed(n: nat)
      requires Valid()
      modifies this
      ensures Valid() && View() == Apply(old(View()), ConnectFailed(n))
    {
      if n >= |connects| || connects[n] {
        return;
      }
      connects := connects[n := true];
      state := Error;
    }

    method OnSocketClose(n: nat)
      requires Valid()
      modifies this
      ensures Valid() && View() == Apply(old(View()), SocketClosed(n))
    {
      RejectAllPending();
      state := if state == Error then Error else Closed;
    }

    method Close()
      requires Valid()
      modifies this
      ensures Valid() && View() == Apply(old(View()), Event.Close)
    {
      socket := None;
      RejectAllPending();
      state := Closed;
    }

    method SendFrame(id: string, resolveOnStreamDone: bool)
      requires Valid()
      modifies this
      ensures Valid() && View() == Apply(old(View()), Send(id, resolveOnStreamDone))
    {
      var request := |requests|;
      if socket.None? || state != Open {
        requests := requests + [Request(id, [NotConnected])];
        return;
      }
      requests := requests + [Request(id, [])];
      var timer := handles;
      handles := handles + 1;
      timers := timers[timer := request];
      pending := pending[id := Pending(request, timer, resolveOnStreamDone)];
    }

    method OnTimer(timer: nat)
      requires Valid() && timer in timers
      modifies this
      ensures Valid() && View() == Apply(old(View()), Expire(timer))
    {
      var request := timers[timer];
      timers := timers - {timer};
      pending := pending - {requests[request].id};
      Settle(request, TimedOut);
    }

    method HandleMessage(frame: Option<Frame>)
      requires Valid()
      modifies this
      ensures Valid() && View() == Apply(old(View()), Message(frame))
    {
      if frame.None? || frame.value.Push? {
        return;
      }
      var id := frame.value.id;
      if id == "" {
        return;
      }
      if frame.value.Stream? {
        if id in pending && pending[id].resolveOnStreamDone && frame.value.reason != "" {
          var entry := pending[id];
          timers := timers - {entry.timer};
          pending := pending - {id};
          Settle(entry.request, Resolved);
        }
        return;
      }
      if id !in pending {
        return;
      }
      if !frame.value.Response? && !frame.value.Failure? {
        return;
      }
      var entry := pending[id];
      timers := timers - {entry.timer};
      pending := pending - {id};
      Settle(entry.request, if frame.value.Failure? then Refused else Resolved);
    }

    method Settle(request: nat, o: Outcome)
      modifies this`requests
      ensures requests == Call(old(requests), request, o)
    {
      if request < |requests| {
        requests := requests[request := Request(requests[request].id, requests[request].calls + [o])];
      }
    }

    /** Goes through the entries, stopping each timer and rejecting each request. */
    method RejectEach()
      requires Matched(pending, requests)
      modifies this`timers, this`requests
      ensures timers == old(timers) - Timers(pending)
      ensures requests == CallAll(old(requests), Waiting(pending), Disconnected)
    {
      var rest := pending.Keys;
      ghost var before, live := requests, timers;
      ghost var done: map<string, Pending> := map[];
      NoEntries(before);
      while rest != {}
        invariant rest <= pending.Keys && done == pending - rest
        invariant timers == live - Timers(done)
        invariant requests == CallAll(before, Waiting(done), Disconnected)
      {
        var id :| id in rest;
        var entry := pending[id];
        OneMoreDone(pending, rest, id);
        OneMoreEntry(before, done, id, entry, Disconnected);
        rest := rest - {id};
        timers := timers - {entry.timer};
        Settle(entry.request, Disconnected);
        done := done[id := entry];
      }
      assert done == pending;
    }

    method RejectAllPending()
      requires Valid()
      modifies this
      ensures Valid() && View() == RejectPending(old(View()))
    {
      RejectEach();
      pending := map[];
    }
  }
}
