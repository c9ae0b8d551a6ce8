/**
 * The JSON-RPC session of jetkvm/rpc.go. Any number of calls, the message callback and Close
 * run at once; every locked region, channel operation and closing of the done channel is one
 * step, and the steps of all of them interleave freely.
 */
module JetkvmLink {
  import opened Bytes

  datatype Message = Message(id: nat, body: int)

  /** A waiter channel, of capacity one. `sends` counts what was ever sent on it. */
  datatype Chan = Chan(buf: Option<Message>, closed: bool, sends: nat)

  /**
   * What the goroutines share. A waiter channel is named by the call that made it. `broken`
   * records what Go does not survive: a send on a closed channel, a second close, or a send
   * that would block the callback for ever.
   */
  datatype Shared = Shared(nextID: nat, waiters: map<nat, nat>, chans: map<nat, Chan>,
                           done: bool, swept: bool, broken: bool)

  // -- the locked regions and channel operations ----------------------------------------

  function Registered(s: Shared, t: nat): Shared {
    s.(nextID := s.nextID + 1, waiters := s.waiters[s.nextID + 1 := t], chans := s.chans[t := Chan(None, false, 0)])
  }

  function Forgotten(s: Shared, id: nat): Shared {
    s.(waiters := s.waiters - {id})
  }

  function Swept(s: Shared): Shared {
    s.(waiters := map[],
       chans := map t | t in s.chans :: if t in s.waiters.Values then s.chans[t].(closed := true) else s.chans[t],
       swept := true,
       broken := s.broken || exists t :: t in s.waiters.Values && (t !in s.chans || s.chans[t].closed))
  }

  function Sent(s: Shared, t: nat, m: Message): Shared {
    if t !in s.chans || s.chans[t].closed || s.chans[t].buf.Some? then s.(broken := true)
    else s.(chans := s.chans[t := Chan(Some(m), false, s.chans[t].sends + 1)])
  }

  class Link {
    var nextID: nat
    var waiters: map<nat, nat>
    var chans: map<nat, Chan>
    var done: bool
    ghost var swept: bool
    ghost var broken: bool

    constructor ()
      ensures View() == Shared(0, map[], map[], false, false, false)
    {
      nextID, waiters, chans, done, swept, broken := 0, map[], map[], false, false, false;
    }

    ghost function View(): Shared
      reads this
    {
      Shared(nextID, waiters, chans, done, swept, broken)
    }

    method Register(t: nat) returns (id: nat)
      modifies this
      ensures View() == Registered(old(View()), t) && id == nextID
    {
      nextID := nextID + 1;
      id := nextID;
      waiters := waiters[id := t];
      chans := chans[t := Chan(None, false, 0)];
    }

    method Forget(id: nat)
      modifies this
      ensures View() == Forgotten(old(View()), id)
    {
      waiters := waiters - {id};
    }

    /** The callback's locked region: the channel a reply goes to, taken out of the map. */
    method Take(m: Message) returns (ch: Option<nat>)
      modifies this
      ensures ch == if m.id in old(waiters) then Some(old(waiters)[m.id]) else None
      ensures View() == Forgotten(old(View()), m.id)
    {
      ch := if m.id in waiters then Some(waiters[m.id]) else None;
      waiters := waiters - {m.id};
    }

    method Send(t: nat, m: Message)
      modifies this
      ensures View() == Sent(old(View()), t, m)
    {
      if t !in chans || chans[t].closed || chans[t].buf.Some? {
        broken := true;
      } else {
        chans := chans[t := Chan(Some(m), false, chans[t].sends + 1)];
      }
    }

    /** Close's loop over the map: closes and drops every waiter. */
    method Sweep()
      requires Injective(View())
      modifies this
      ensures View() == Swept(old(View()))
    {
      ghost var before, gone := View(), {};
      ClosingNone(before);
      var left := waiters.Keys;
      while left != {}
        invariant View() == Closing(before, gone)
        invariant gone + left == before.waiters.Keys && gone !! left
      {
        var id :| id in left;
        CloseOne(before, gone, id);
        left, gone := left - {id}, gone + {id};
      }
      swept := true;
      assert gone == before.waiters.Keys;
      ClosingAll(before);
    }

    /** One turn of Sweep's loop. */
    method CloseOne(ghost before: Shared, ghost gone: set<nat>, id: nat)
      requires Injective(before) && id in before.waiters && id !in gone && View() == Closing(before, gone)
      modifies this
      ensures View() == Closing(before, gone + {id})
    {
      ClosingOneMore(before, gone, id);
      hide Closing;
      var t := waiters[id];
      broken := broken || chans[t].closed;
      chans := chans[t := chans[t].(closed := true)];
      waiters := waiters - {id};
    }
  }

  ghost predicate Injective(s: Shared) {
    && (forall i :: i in s.waiters ==> s.waiters[i] in s.chans)
    && (forall i, j :: i in s.waiters && j in s.waiters && s.waiters[i] == s.waiters[j] ==> i == j)
  }

  /** The map with the waiters of `gone` closed and dropped. */
  ghost function Closing(s: Shared, gone: set<nat>): Shared {
    s.(waiters := s.waiters - gone,
       chans := map t | t in s.chans :: if exists i :: i in gone && i in s.waiters && s.waiters[i] == t
                                        then s.chans[t].(closed := true) else s.chans[t],
       broken := s.broken
         || exists i :: i in gone && i in s.waiters && s.waiters[i] in s.chans && s.chans[s.waiters[i]].closed)
  }

  lemma ClosingNone(s: Shared)
    ensures Closing(s, {}) == s
  {
    assert s.waiters - {} == s.waiters;
    assert Closing(s, {}).chans == s.chans;
  }

  lemma ClosingOneMore(s: Shared, gone: set<nat>, id: nat)
    requires Injective(s) && id in s.waiters && id !in gone
    ensures var c, t := Closing(s, gone), s.waiters[id];
      && id in c.waiters && c.waiters[id] == t && t in c.chans && c.chans[t] == s.chans[t]
      && Closing(s, gone + {id})
         == c.(waiters := c.waiters - {id}, chans := c.chans[t := c.chans[t].(closed := true)],
               broken := c.broken || c.chans[t].closed)
  {
    var c, t, d := Closing(s, gone), s.waiters[id], Closing(s, gone + {id});
    assert d.waiters == c.waiters - {id};
    assert d.chans == c.chans[t := c.chans[t].(closed := true)];
  }

  lemma ClosingAll(s: Shared)
    requires Injective(s)
    ensures Closing(s, s.waiters.Keys).(swept := true) == Swept(s)
  {
    var c := Closing(s, s.waiters.Keys);
    assert c.waiters == map[];
    forall t | t in s.chans
      ensures c.chans[t] == Swept(s).chans[t]
    {
      if t in s.waiters.Values {
        var i :| i in s.waiters && s.waiters[i] == t;
      }
    }
    assert c.chans == Swept(s).chans;
  }

  // -- the whole system -----------------------------------------------------------------

  datatype Result = Reply(msg: Message) | Closed | SendFailed | TimedOut

  /** Where one call stands. */
  datatype Call =
    | Checking
    | Registering
    | Sending(id: nat)
    | Waiting(id: nat)
    | Forgetting(id: nat, result: Result)
    | Returned(result: Result)

  /** `delivering`: replies taken from the map, on their way to their channels. */
  datatype State = State(shared: Shared, calls: map<nat, Call>, ids: map<nat, nat>, delivering: set<(nat, Message)>)

  datatype Step =
    | Start(t: nat) | Check(t: nat) | Register(t: nat) | MarshalFails(t: nat) | Send(t: nat, ok: bool)
    | Receive(t: nat) | Timeout(t: nat) | SeeDone(t: nat) | Forget(t: nat)
    | Take(m: Message) | Deliver(t: nat, m: Message) | CloseBegins | Sweep

  function At(s: State, t: nat): Option<Call> { if t in s.calls then Some(s.calls[t]) else None }

  function To(s: State, t: nat, c: Call): State { s.(calls := s.calls[t := c]) }

  /** A step that is not enabled changes nothing. */
  function Next(s: State, step: Step): State {
    var sh := s.shared;
    match step
    case Start(t) => if t in s.calls then s else To(s, t, Checking)
    case Check(t) =>
      if At(s, t) != Some(Checking) then s else To(s, t, if sh.done then Returned(Closed) else Registering)
    case Register(t) =>
      if At(s, t) != Some(Registering) then s
      else To(s, t, Sending(sh.nextID + 1)).(shared := Registered(sh, t), ids := s.ids[t := sh.nextID + 1])
    case MarshalFails(t) =>
      (match At(s, t) case Some(Sending(_)) => To(s, t, Returned(SendFailed)) case _ => s)
    case Send(t, ok) =>
      (match At(s, t)
       case Some(Sending(id)) => To(s, t, if ok then Waiting(id) else Forgetting(id, SendFailed))
       case _ => s)
    case Receive(t) =>
      (match At(s, t)
       case Some(Waiting(_)) =>
         if t !in sh.chans then s
         else
           (match sh.chans[t].buf
            case Some(m) => To(s, t, Returned(Reply(m))).(shared := sh.(chans := sh.chans[t := sh.chans[t].(buf := None)]))
            case None => if sh.chans[t].closed then To(s, t, Returned(Closed)) else s)
       case _ => s)
    case Timeout(t) =>
      (match At(s, t) case Some(Waiting(id)) => To(s, t, Forgetting(id, TimedOut)) case _ => s)
    case SeeDone(t) =>
      (match At(s, t) case Some(Waiting(id)) => if sh.done then To(s, t, Forgetting(id, Closed)) else s case _ => s)
    case Forget(t) =>
      (match At(s, t)
       case Some(Forgetting(id, result)) => To(s, t, Returned(result)).(shared := Forgotten(sh, id))
       case _ => s)
    case Take(m) =>
      if m.id !in sh.waiters then s
      else s.(shared := Forgotten(sh, m.id), delivering := s.delivering + {(sh.waiters[m.id], m)})
    case Deliver(t, m) =>
      if (t, m) !in s.delivering then s
      else s.(shared := Sent(sh, t, m), delivering := s.delivering - {(t, m)})
    case CloseBegins => if sh.done then s else s.(shared := sh.(done := true))
    case Sweep => if !sh.done || sh.swept then s else s.(shared := Swept(sh))
  }

  const Init := State(Shared(0, map[], map[], false, false, false), map[], map[], {})

  function Run(s: State, steps: seq<Step>): State
    decreases |steps|
  {
    if steps == [] then s else Run(Next(s, steps[0]), steps[1..])
  }

  // -- the invariant --------------------------------------------------------------------

  /** Waiters: each is the untouched channel of the one call that used its id. */
  ghost predicate WaitersOk(s: State) {
    forall id :: id in s.shared.waiters ==>
      var t := s.shared.waiters[id];
      && t in s.ids && s.ids[t] == id
      && t in s.shared.chans && s.shared.chans[t] == Chan(None, false, 0)
      && !(exists m :: (t, m) in s.delivering)
  }

  /** Ids are handed out once. */
  ghost predicate IdsOk(s: State) {
    && (forall t :: t in s.ids ==> s.ids[t] <= s.shared.nextID && t in s.shared.chans)
    && (forall t, u :: t in s.ids && u in s.ids && s.ids[t] == s.ids[u] ==> t == u)
  }

  /** A reply on its way is alone in owning its channel, and carries its caller's id. */
  ghost predicate DeliveringOk(s: State) {
    && (forall t, m :: (t, m) in s.delivering ==>
          t in s.ids && m.id == s.ids[t] && t in s.shared.chans && s.shared.chans[t] == Chan(None, false, 0))
    && (forall t, m, n :: (t, m) in s.delivering && (t, n) in s.delivering ==> m == n)
  }

  /** A channel is sent to at most once, or closed, and holds only its own caller's reply. */
  ghost predicate ChansOk(s: State) {
    forall t :: t in s.shared.chans ==>
      var c := s.shared.chans[t];
      && t in s.ids && c.sends <= 1 && (c.closed ==> c.sends == 0)
      && (c.buf.Some? ==> c.sends == 1 && c.buf.value.id == s.ids[t])
  }

  ghost predicate CallsOk(s: State) {
    && (forall t :: t in s.calls ==>
          match s.calls[t]
          case Checking => t !in s.ids
          case Registering => t !in s.ids
          case Sending(id) => t in s.ids && s.ids[t] == id
          case Waiting(id) => t in s.ids && s.ids[t] == id
          case Forgetting(id, r) => t in s.ids && s.ids[t] == id && !r.Reply?
          case Returned(r) => r.Reply? ==> t in s.ids && r.msg.id == s.ids[t])
    && (forall t :: t in s.ids ==> t in s.calls)
  }

  ghost predicate Inv(s: State) {
    && !s.shared.broken && (s.shared.swept ==> s.shared.done)
    && WaitersOk(s) && IdsOk(s) && DeliveringOk(s) && ChansOk(s) && CallsOk(s)
  }

  /** A new waiter has a new id, a new call and a new channel. */
  lemma RegisterKeepsWaiters(s: State, t: nat)
    requires Inv(s)
    ensures WaitersOk(Next(s, Step.Register(t)))
  {
    hide ChansOk;
  }

  lemma NextKeepsWaiters(s: State, step: Step)
    requires Inv(s)
    ensures WaitersOk(Next(s, step))
  {
    match step
    case Register(t) => RegisterKeepsWaiters(s, t);
    case Receive(t) =>
    case Take(m) => TakeKeepsWaiters(s, m);
    case Deliver(t, m) => DeliverKeepsWaiters(s, t, m);
    case _ =>
  }

  lemma TakeKeepsWaiters(s: State, m: Message)
    requires Inv(s)
    ensures WaitersOk(Next(s, Step.Take(m)))
  {
    hide ChansOk, CallsOk;
  }

  lemma DeliverKeepsWaiters(s: State, t: nat, m: Message)
    requires Inv(s)
    ensures WaitersOk(Next(s, Deliver(t, m)))
  {
    hide ChansOk, CallsOk;
  }

  lemma NextKeepsIds(s: State, step: Step)
    requires Inv(s)
    ensures IdsOk(Next(s, step))
  {
  }

  lemma RegisterKeepsDelivering(s: State, t: nat)
    requires Inv(s)
    ensures DeliveringOk(Next(s, Step.Register(t)))
  {
  }

  lemma ReceiveKeepsDelivering(s: State, t: nat)
    requires Inv(s)
    ensures DeliveringOk(Next(s, Receive(t)))
  {
    hide WaitersOk, IdsOk;
  }

  lemma ForgetKeepsDelivering(s: State, t: nat)
    requires Inv(s)
    ensures DeliveringOk(Next(s, Step.Forget(t)))
  {
  }

  lemma TakeKeepsDelivering(s: State, m: Message)
    requires Inv(s)
    ensures DeliveringOk(Next(s, Step.Take(m)))
  {
  }

  lemma DeliverKeepsDelivering(s: State, t: nat, m: Message)
    requires Inv(s)
    ensures DeliveringOk(Next(s, Deliver(t, m)))
  {
    hide CallsOk;
  }

  lemma SweepKeepsDelivering(s: State)
    requires Inv(s)
    ensures DeliveringOk(Next(s, Step.Sweep))
  {
    hide IdsOk, CallsOk;
  }

  lemma NextKeepsDelivering(s: State, step: Step)
    requires Inv(s)
    ensures DeliveringOk(Next(s, step))
  {
    match step
    case Register(t) => RegisterKeepsDelivering(s, t);
    case Receive(t) => ReceiveKeepsDelivering(s, t);
    case Forget(t) => ForgetKeepsDelivering(s, t);
    case Take(m) => TakeKeepsDelivering(s, m);
    case Deliver(t, m) => DeliverKeepsDelivering(s, t, m);
    case Sweep => SweepKeepsDelivering(s);
    case _ =>
  }

  lemma RegisterKeepsChans(s: State, t: nat)
    requires Inv(s)
    ensures ChansOk(Next(s, Step.Register(t))) && !Next(s, Step.Register(t)).shared.broken
  {
  }

  lemma ReceiveKeepsChans(s: State, t: nat)
    requires Inv(s)
    ensures ChansOk(Next(s, Receive(t))) && !Next(s, Receive(t)).shared.broken
  {
    hide WaitersOk, DeliveringOk;
  }

  lemma ForgetKeepsChans(s: State, t: nat)
    requires Inv(s)
    ensures ChansOk(Next(s, Step.Forget(t))) && !Next(s, Step.Forget(t)).shared.broken
  {
    hide CallsOk;
  }

  lemma TakeKeepsChans(s: State, m: Message)
    requires Inv(s)
    ensures ChansOk(Next(s, Step.Take(m))) && !Next(s, Step.Take(m)).shared.broken
  {
    hide CallsOk;
  }

  lemma DeliverKeepsChans(s: State, t: nat, m: Message)
    requires Inv(s)
    ensures ChansOk(Next(s, Deliver(t, m))) && !Next(s, Deliver(t, m)).shared.broken
  {
    hide CallsOk, WaitersOk;
  }

  lemma SweepKeepsChans(s: State)
    requires Inv(s)
    ensures ChansOk(Next(s, Step.Sweep)) && !Next(s, Step.Sweep).shared.broken
  {
    hide CallsOk;
  }

  lemma NextKeepsChans(s: State, step: Step)
    requires Inv(s)
    ensures ChansOk(Next(s, step)) && !Next(s, step).shared.broken
  {
    match step
    case Register(t) => RegisterKeepsChans(s, t);
    case Receive(t) => ReceiveKeepsChans(s, t);
    case Forget(t) => ForgetKeepsChans(s, t);
    case Take(m) => TakeKeepsChans(s, m);
    case Deliver(t, m) => DeliverKeepsChans(s, t, m);
    case Sweep => SweepKeepsChans(s);
    case _ =>
  }

  lemma RegisterKeepsCalls(s: State, t: nat)
    requires Inv(s)
    ensures CallsOk(Next(s, Step.Register(t)))
  {
  }

  lemma ReceiveKeepsCalls(s: State, t: nat)
    requires Inv(s)
    ensures CallsOk(Next(s, Receive(t)))
  {
  }

  lemma ForgetKeepsCalls(s: State, t: nat)
    requires Inv(s)
    ensures CallsOk(Next(s, Step.Forget(t)))
  {
    hide WaitersOk, DeliveringOk, ChansOk, IdsOk;
  }

  lemma TakeKeepsCalls(s: State, m: Message)
    requires Inv(s)
    ensures CallsOk(Next(s, Step.Take(m)))
  {
    hide WaitersOk, DeliveringOk, ChansOk;
  }

  lemma DeliverKeepsCalls(s: State, t: nat, m: Message)
    requires Inv(s)
    ensures CallsOk(Next(s, Deliver(t, m)))
  {
    hide WaitersOk, ChansOk;
  }

  lemma SweepKeepsCalls(s: State)
    requires Inv(s)
    ensures CallsOk(Next(s, Step.Sweep))
  {
    hide WaitersOk, DeliveringOk, ChansOk;
  }

  lemma NextKeepsCalls(s: State, step: Step)
    requires Inv(s)
    ensures CallsOk(Next(s, step))
  {
    match step
    case Register(t) => RegisterKeepsCalls(s, t);
    case Receive(t) => ReceiveKeepsCalls(s, t);
    case Forget(t) => ForgetKeepsCalls(s, t);
    case Take(m) => TakeKeepsCalls(s, m);
    case Deliver(t, m) => DeliverKeepsCalls(s, t, m);
    case Sweep => SweepKeepsCalls(s);
    case _ =>
  }

  lemma NextKeepsInv(s: State, step: Step)
    requires Inv(s)
    ensures Inv(Next(s, step))
  {
    NextKeepsWaiters(s, step);
    NextKeepsIds(s, step);
    NextKeepsDelivering(s, step);
    NextKeepsChans(s, step);
    NextKeepsCalls(s, step);
    hide WaitersOk, IdsOk, DeliveringOk, ChansOk, CallsOk;
  }

  lemma {:induction false} RunKeepsInv(s: State, steps: seq<Step>)
    requires Inv(s)
    ensures Inv(Run(s, steps))
    decreases |steps|
  {
    if steps != [] {
      NextKeepsInv(s, steps[0]);
      hide Inv, Next;
      RunKeepsInv(Next(s, steps[0]), steps[1..]);
    }
  }

  /**
   * Under every interleaving: nothing Go would not survive happens; every waiter channel is
   * sent to at most once or closed, never both; and a reply that a call returns carries the
   * id that call, and no other, used.
   */
  lemma LinkSafe(steps: seq<Step>)
    ensures var s := Run(Init, steps);
      && !s.shared.broken
      && (forall t :: t in s.shared.chans ==>
            s.shared.chans[t].sends <= 1 && (s.shared.chans[t].closed ==> s.shared.chans[t].sends == 0))
      && (forall t, m :: t in s.calls && s.calls[t] == Returned(Reply(m)) ==>
            && t in s.ids && s.ids[t] == m.id
            && (forall u :: u in s.ids && s.ids[u] == m.id ==> u == t))
  {
    RunKeepsInv(Init, steps);
    hide Run;
    forall t, m | t in Run(Init, steps).calls && Run(Init, steps).calls[t] == Returned(Reply(m))
      ensures var s := Run(Init, steps); t in s.ids && s.ids[t] == m.id
    {
    }
  }

  /** The map that Close sweeps holds each channel once, so its loop closes each once. */
  lemma SweepIsSafe(s: State)
    requires Inv(s)
    ensures Injective(s.shared) && !Swept(s.shared).broken
  {
  }

  /** The ids are those from 1 up, each used once. */
  lemma {:induction false} IdsCounted(s: State, steps: seq<Step>)
    requires Inv(s) && |s.ids| == s.shared.nextID
    ensures |Run(s, steps).ids| == Run(s, steps).shared.nextID
    decreases |steps|
  {
    if steps != [] {
      var s' := Next(s, steps[0]);
      NextKeepsInv(s, steps[0]);
      CountStep(s, steps[0]);
      hide Inv, Next;
      IdsCounted(s', steps[1..]);
    }
  }

  lemma CountStep(s: State, step: Step)
    requires Inv(s) && |s.ids| == s.shared.nextID
    ensures |Next(s, step).ids| == Next(s, step).shared.nextID
  {
    if step.Register? {
      NotYetKnown(s, step.t);
    }
    hide WaitersOk, IdsOk, DeliveringOk, ChansOk, CallsOk;
  }

  // -- what a call returns --------------------------------------------------------------

  /** A message is on its way to the call's channel, or in it. */
  predicate OnTheWay(s: State, t: nat, m: Message) {
    (t, m) in s.delivering || (t in s.shared.chans && s.shared.chans[t].buf == Some(m))
  }

  /** The waiter is in the map, or has been served or closed. */
  ghost predicate Expected(s: State, t: nat, id: nat) {
    || (id in s.shared.waiters && s.shared.waiters[id] == t)
    || (t in s.shared.chans && s.shared.chans[t].closed)
    || exists m :: OnTheWay(s, t, m)
  }

  /** A call that sent its request and has no answer yet is expected to get one. */
  ghost predicate ExpectedOk(s: State) {
    forall t :: t in s.calls && (s.calls[t].Sending? || s.calls[t].Waiting?) ==> Expected(s, t, s.calls[t].id)
  }

  /** What a call returns, or is about to. */
  predicate Ends(c: Call, r: Result) { (c.Forgetting? || c.Returned?) && c.result == r }

  /** Channels are closed, and calls told so, only once the link is done. */
  ghost predicate ClosedOk(s: State) {
    && (forall t :: t in s.shared.chans && s.shared.chans[t].closed ==> s.shared.done)
    && (forall t :: t in s.calls && Ends(s.calls[t], Closed) ==> s.shared.done)
  }

  /** A call that returned has left nothing in the map, unless its request could not be sent. */
  ghost predicate ForgottenOk(s: State) {
    forall t :: t in s.calls && s.calls[t].Returned? && s.calls[t].result != SendFailed && t in s.ids ==>
      s.ids[t] !in s.shared.waiters
  }

  ghost predicate AnswersOk(s: State) { ExpectedOk(s) && ClosedOk(s) && ForgottenOk(s) }

  lemma NextKeepsClosed(s: State, step: Step)
    requires Inv(s) && ClosedOk(s)
    ensures ClosedOk(Next(s, step))
  {
    hide WaitersOk, IdsOk, DeliveringOk, ChansOk, CallsOk;
  }

  lemma NextKeepsForgotten(s: State, step: Step)
    requires Inv(s) && ForgottenOk(s)
    ensures ForgottenOk(Next(s, step))
  {
    match step
    case Receive(t) => ReceiveKeepsForgotten(s, t);
    case Register(t) => hide WaitersOk, DeliveringOk, ChansOk;
    case _ => hide WaitersOk, IdsOk, DeliveringOk, ChansOk;
  }

  /** A channel with a reply in it, or closed, is no waiter's. */
  lemma ReceiveKeepsForgotten(s: State, t: nat)
    requires Inv(s) && ForgottenOk(s)
    ensures ForgottenOk(Next(s, Receive(t)))
  {
    hide DeliveringOk, ChansOk;
  }

  lemma ExpectedKept(s: State, step: Step, t: nat, id: nat)
    requires Inv(s) && Expected(s, t, id) && t in s.ids && s.ids[t] == id
    requires t in s.calls && (s.calls[t].Sending? || s.calls[t].Waiting?)
    requires var s' := Next(s, step); t in s'.calls && (s'.calls[t].Sending? || s'.calls[t].Waiting?)
    ensures Expected(Next(s, step), t, id)
  {
    if m :| OnTheWay(s, t, m) {
      hide CallsOk;
      assert OnTheWay(Next(s, step), t, m);
    } else {
      WaiterKept(s, step, t, id);
    }
  }

  lemma WaiterKept(s: State, step: Step, t: nat, id: nat)
    requires Inv(s) && t in s.ids && s.ids[t] == id
    requires (id in s.shared.waiters && s.shared.waiters[id] == t) || (t in s.shared.chans && s.shared.chans[t].closed)
    requires t in s.calls && (s.calls[t].Sending? || s.calls[t].Waiting?)
    requires var s' := Next(s, step); t in s'.calls && (s'.calls[t].Sending? || s'.calls[t].Waiting?)
    ensures Expected(Next(s, step), t, id)
  {
    match step
    case Take(m) =>
      hide Inv;
      assert id == m.id && id in s.shared.waiters ==> OnTheWay(Next(s, step), s.shared.waiters[id], m);
    case Register(u) =>
      RegisterKeepsWaiter(s, u, t, id);
      hide Inv, Next;
    case Forget(u) =>
      ForgetsOther(s, u, t);
      hide Inv, Next;
    case Receive(u) =>
      ReceiveOpens(s, u);
      hide Inv, Next;
    case Deliver(u, m) =>
      DeliverOpens(s, u, m);
      hide Inv, Next;
    case Sweep =>
      SweepCloses(s, t, id);
      hide Inv, Next;
    case _ => hide Inv;
  }

  lemma RegisterKeepsWaiter(s: State, u: nat, t: nat, id: nat)
    requires Inv(s) && t in s.ids && s.ids[t] == id
    ensures var s' := Next(s, Step.Register(u));
      && (id in s.shared.waiters ==> id in s'.shared.waiters && s'.shared.waiters[id] == s.shared.waiters[id])
      && (t in s.shared.chans ==> t in s'.shared.chans && s'.shared.chans[t] == s.shared.chans[t])
  {
    NotYetKnown(s, u);
    hide WaitersOk, DeliveringOk, ChansOk, CallsOk;
  }

  lemma DeliverOpens(s: State, u: nat, m: Message)
    requires Inv(s)
    ensures var s' := Next(s, Deliver(u, m));
      && s'.shared.waiters == s.shared.waiters
      && forall t :: t in s.shared.chans && s.shared.chans[t].closed ==> t in s'.shared.chans && s'.shared.chans[t].closed
  {
    hide WaitersOk, IdsOk, CallsOk;
  }

  lemma ReceiveOpens(s: State, u: nat)
    ensures var s' := Next(s, Receive(u));
      && s'.shared.waiters == s.shared.waiters
      && forall t :: t in s.shared.chans && s.shared.chans[t].closed ==> t in s'.shared.chans && s'.shared.chans[t].closed
  {
  }

  lemma SweepCloses(s: State, t: nat, id: nat)
    requires Inv(s)
    ensures var s' := Next(s, Step.Sweep);
      || s' == s
      || !((id in s.shared.waiters && s.shared.waiters[id] == t) || (t in s.shared.chans && s.shared.chans[t].closed))
      || (t in s'.shared.chans && s'.shared.chans[t].closed)
  {
    hide IdsOk, DeliveringOk, ChansOk, CallsOk;
  }

  lemma ForgetsOther(s: State, u: nat, t: nat)
    requires Inv(s) && t in s.calls && (s.calls[t].Sending? || s.calls[t].Waiting?) && t in s.ids
    ensures var s' := Next(s, Step.Forget(u));
      && s'.shared.chans == s.shared.chans
      && (s.ids[t] in s.shared.waiters ==>
            s.ids[t] in s'.shared.waiters && s'.shared.waiters[s.ids[t]] == s.shared.waiters[s.ids[t]])
  {
    hide WaitersOk, DeliveringOk, ChansOk;
  }

  lemma NextKeepsExpected(s: State, step: Step)
    requires Inv(s) && ExpectedOk(s)
    ensures ExpectedOk(Next(s, step))
  {
    var s' := Next(s, step);
    forall t | t in s'.calls && (s'.calls[t].Sending? || s'.calls[t].Waiting?)
      ensures Expected(s', t, s'.calls[t].id)
    {
      if step == Step.Register(t) && At(s, t) == Some(Registering) {
        assert s'.shared.waiters[s'.calls[t].id] == t;
      } else {
        SameCall(s, step, t);
        ExpectedKept(s, step, t, s.calls[t].id);
      }
    }
  }

  lemma SameCall(s: State, step: Step, t: nat)
    requires Inv(s) && t in Next(s, step).calls && !(step == Step.Register(t) && At(s, t) == Some(Registering))
    requires Next(s, step).calls[t].Sending? || Next(s, step).calls[t].Waiting?
    ensures t in s.calls && (s.calls[t].Sending? || s.calls[t].Waiting?) && s.calls[t].id == Next(s, step).calls[t].id
    ensures t in s.ids && s.ids[t] == s.calls[t].id
  {
    hide WaitersOk, IdsOk, DeliveringOk, ChansOk;
  }

  lemma {:induction false} RunKeepsAnswers(s: State, steps: seq<Step>)
    requires Inv(s) && AnswersOk(s)
    ensures Inv(Run(s, steps)) && AnswersOk(Run(s, steps))
    decreases |steps|
  {
    if steps != [] {
      NextKeepsInv(s, steps[0]);
      NextKeepsExpected(s, steps[0]);
      NextKeepsClosed(s, steps[0]);
      NextKeepsForgotten(s, steps[0]);
      hide Inv, Next, ExpectedOk, ClosedOk, ForgottenOk;
      RunKeepsAnswers(Next(s, steps[0]), steps[1..]);
    }
  }

  /**
   * In every reachable state: a call told that the session is closed is right about it; a call that
   * waits is in the map under its id, or its answer is on its way or its channel closed; and a call
   * that returned has left nothing in the map, unless its request could not be sent.
   */
  lemma AnswersSafe(steps: seq<Step>)
    ensures var s := Run(Init, steps);
      && (forall t :: t in s.calls && s.calls[t] == Returned(Closed) ==> s.shared.done)
      && (forall t :: t in s.calls && s.calls[t].Waiting? ==> Expected(s, t, s.calls[t].id))
      && (forall t :: t in s.calls && s.calls[t].Returned? && s.calls[t].result != SendFailed && t in s.ids ==>
            s.ids[t] !in s.shared.waiters)
  {
    RunKeepsAnswers(Init, steps);
    hide Run, Expected, Inv;
  }

  /** The steps that can be the cause of a result. */
  predicate Causes(step: Step, t: nat, r: Result) {
    match r
    case Reply(m) => step == Step.Take(m)
    case Closed => step == CloseBegins
    case SendFailed => step == Step.Send(t, false) || step == MarshalFails(t)
    case TimedOut => step == Timeout(t)
  }

  /** A result, or what leads to it, is there already. */
  predicate Underway(s: State, t: nat, r: Result) {
    || (t in s.calls && Ends(s.calls[t], r))
    || (r.Reply? && OnTheWay(s, t, r.msg))
    || (r == Closed && s.shared.done)
  }

  lemma UnderwayStep(s: State, step: Step, t: nat, r: Result)
    requires Inv(s) && ClosedOk(s) && Underway(Next(s, step), t, r)
    ensures Underway(s, t, r) || Causes(step, t, r)
  {
    hide WaitersOk, IdsOk, DeliveringOk, ChansOk, CallsOk;
  }

  lemma {:induction false} UnderwayRun(s: State, steps: seq<Step>, t: nat, r: Result)
    requires Inv(s) && AnswersOk(s) && Underway(Run(s, steps), t, r)
    ensures Underway(s, t, r) || exists step <- steps :: Causes(step, t, r)
    decreases |steps|
  {
    if steps != [] {
      var s' := Next(s, steps[0]);
      RunKeepsAnswers(s, [steps[0]]);
      assert [steps[0]][1..] == [] && Run(s', []) == s';
      UnderwayRun(s', steps[1..], t, r);
      if Underway(s', t, r) {
        UnderwayStep(s, steps[0], t, r);
      }
      hide Next, Inv, AnswersOk, Underway, Causes;
    }
  }

  /**
   * Every result has its cause: a reply, body and all, was received; a call timed out only when its
   * own time ran out; it was told so only when its request could not be sent; and closed only when
   * the session was.
   */
  lemma ResultsHaveCauses(steps: seq<Step>, t: nat, r: Result)
    requires var s := Run(Init, steps); t in s.calls && s.calls[t] == Returned(r)
    ensures exists step <- steps :: Causes(step, t, r)
  {
    UnderwayRun(Init, steps, t, r);
  }

  // -- a call gets its reply --------------------------------------------------------------

  /** The call has sent, or is sending, its request, and the reply `m` is on its way. */
  predicate ReplyComing(s: State, t: nat, m: Message) {
    t in s.calls && (s.calls[t].Sending? || s.calls[t].Waiting?) && OnTheWay(s, t, m)
  }

  /** Steps by which the call gives up before it looks at its channel. */
  predicate GivesUp(step: Step, t: nat) {
    step == Timeout(t) || step == SeeDone(t) || step == Step.Send(t, false) || step == MarshalFails(t)
  }

  /** The next step of the call, or of the callback on its behalf. */
  function ReplyStep(s: State, t: nat, m: Message): Step {
    if (t, m) in s.delivering then Deliver(t, m)
    else if t in s.calls && s.calls[t].Sending? then Step.Send(t, true)
    else Receive(t)
  }

  function ReplyRank(s: State, t: nat, m: Message): nat {
    if t !in s.calls || s.calls[t].Returned? then 0
    else 1 + (if (t, m) in s.delivering then 1 else 0) + if s.calls[t].Sending? then 1 else 0
  }

  /** A message taken for a call that waits is on its way to that call. */
  lemma TakenForCall(s: State, m: Message)
    requires Inv(s) && m.id in s.shared.waiters
    ensures var t := s.shared.waiters[m.id];
      && OnTheWay(Next(s, Step.Take(m)), t, m)
      && (t in s.calls && (s.calls[t].Sending? || s.calls[t].Waiting?) ==>
            s.calls[t].id == m.id && ReplyComing(Next(s, Step.Take(m)), t, m))
  {
  }

  /** The steps that are the call's own while it waits. */
  predicate IsOwn(step: Step, t: nat) { step == Receive(t) || step == Step.Send(t, true) || GivesUp(step, t) }

  lemma OthersKeepCall(s: State, step: Step, t: nat)
    requires t in s.calls && (s.calls[t].Sending? || s.calls[t].Waiting?) && !IsOwn(step, t)
    ensures t in Next(s, step).calls && Next(s, step).calls[t] == s.calls[t]
  {
  }

  lemma OthersKeepWay(s: State, step: Step, t: nat, m: Message)
    requires Inv(s) && OnTheWay(s, t, m) && step != Deliver(t, m) && step != Receive(t)
    ensures OnTheWay(Next(s, step), t, m) && ((t, m) in Next(s, step).delivering <==> (t, m) in s.delivering)
  {
    hide CallsOk;
    match step
    case Register(u) => assert At(s, u) == Some(Registering) ==> u !in s.ids by { NotYetKnown(s, u); }
    case _ =>
  }

  lemma NotYetKnown(s: State, u: nat)
    requires Inv(s)
    ensures At(s, u) == Some(Registering) ==> u !in s.ids
  {
    hide WaitersOk, IdsOk, DeliveringOk, ChansOk;
  }

  lemma DeliverBrings(s: State, t: nat, m: Message)
    requires Inv(s) && ReplyComing(s, t, m)
    ensures var s' := Next(s, Deliver(t, m));
      ReplyComing(s', t, m) && s'.calls == s.calls && (t, m) !in s'.delivering
  {
    hide WaitersOk, IdsOk, CallsOk;
  }

  lemma ReceiveBrings(s: State, t: nat, m: Message)
    requires Inv(s) && ReplyComing(s, t, m)
    ensures var s' := Next(s, Receive(t));
      if s.calls[t].Waiting? && (t, m) !in s.delivering then t in s'.calls && s'.calls[t] == Returned(Reply(m)) else s' == s
  {
    hide WaitersOk, IdsOk, CallsOk;
  }

  /** The reply stays on its way or is returned, no step sets it back, and the next one brings it nearer. */
  lemma ReplyKept(s: State, t: nat, m: Message, step: Step)
    requires Inv(s) && ReplyComing(s, t, m) && !GivesUp(step, t)
    ensures var s' := Next(s, step);
      && (ReplyComing(s', t, m) || (t in s'.calls && s'.calls[t] == Returned(Reply(m))))
      && ReplyRank(s', t, m) <= ReplyRank(s, t, m)
      && (step == ReplyStep(s, t, m) ==> ReplyRank(s', t, m) < ReplyRank(s, t, m))
  {
    if step == Receive(t) {
      ReceiveBrings(s, t, m);
      hide Next, Inv, OnTheWay;
    } else if step == Deliver(t, m) {
      DeliverBrings(s, t, m);
      hide Next, Inv, OnTheWay;
    } else {
      OthersKeepWay(s, step, t, m);
      if step == Step.Send(t, true) {
        hide Inv, OnTheWay;
      } else {
        OthersKeepCall(s, step, t);
        hide Next, Inv, OnTheWay;
      }
    }
  }

  /** Nothing the call does along the run gives up, and whoever can bring the reply nearer gets `turns` turns. */
  ghost predicate Patient(s: State, t: nat, m: Message, steps: seq<Step>, turns: nat)
    decreases |steps|
  {
    if steps == [] then turns == 0
    else
      && !GivesUp(steps[0], t)
      && Patient(Next(s, steps[0]), t, m, steps[1..],
                 if steps[0] == ReplyStep(s, t, m) && turns > 0 then turns - 1 else turns)
  }

  lemma {:induction false} PatientFewer(s: State, t: nat, m: Message, steps: seq<Step>, turns: nat, fewer: nat)
    requires fewer <= turns && Patient(s, t, m, steps, turns)
    ensures Patient(s, t, m, steps, fewer)
    decreases |steps|
  {
    hide Next, ReplyStep, GivesUp;
    if steps != [] {
      var less := if steps[0] == ReplyStep(s, t, m) then 1 else 0;
      PatientFewer(Next(s, steps[0]), t, m, steps[1..], if turns > 0 then turns - less else 0,
                   if fewer > 0 then fewer - less else 0);
    }
  }

  lemma {:induction false} ReturnedStays(s: State, t: nat, steps: seq<Step>)
    requires t in s.calls && s.calls[t].Returned?
    ensures t in Run(s, steps).calls && Run(s, steps).calls[t] == s.calls[t]
    decreases |steps|
  {
    if steps != [] {
      ReturnedStays(Next(s, steps[0]), t, steps[1..]);
    }
  }

  /**
   * A call whose reply was taken returns that very message, whatever everybody else does meanwhile,
   * if it is given its turns before it times out or looks at the done channel.
   */
  lemma {:induction false} ReplyReturned(s: State, t: nat, m: Message, steps: seq<Step>)
    requires Inv(s) && ReplyComing(s, t, m) && Patient(s, t, m, steps, ReplyRank(s, t, m))
    ensures t in Run(s, steps).calls && Run(s, steps).calls[t] == Returned(Reply(m))
    decreases |steps|
  {
    var s' := Next(s, steps[0]);
    ReplyKept(s, t, m, steps[0]);
    NextKeepsInv(s, steps[0]);
    if ReplyComing(s', t, m) {
      hide Inv, Next, ReplyStep, ReplyComing, GivesUp;
      var turns := ReplyRank(s, t, m);
      PatientFewer(s', t, m, steps[1..], if steps[0] == ReplyStep(s, t, m) && turns > 0 then turns - 1 else turns,
                   ReplyRank(s', t, m));
      ReplyReturned(s', t, m, steps[1..]);
    } else {
      hide Next;
      ReturnedStays(s', t, steps[1..]);
    }
  }

  /** A send leaves its message in the channel, or breaks: the channel must be there, open and empty. */
  lemma SendExactly(s: Shared, t: nat, m: Message)
    requires !s.broken
    ensures var s' := Sent(s, t, m);
      && (!s'.broken <==> t in s.chans && !s.chans[t].closed && s.chans[t].buf == None)
      && (!s'.broken ==> s'.chans[t].buf == Some(m))
  {
  }

  // -- what Close does ------------------------------------------------------------------

  /** The link is done exactly when Close began on it. */
  lemma {:induction false} DoneExactly(s: State, steps: seq<Step>)
    ensures Run(s, steps).shared.done <==> s.shared.done || CloseBegins in steps
    decreases |steps|
  {
    if steps != [] {
      DoneStep(s, steps[0]);
      hide Next;
      DoneExactly(Next(s, steps[0]), steps[1..]);
    }
  }

  lemma DoneStep(s: State, step: Step)
    ensures Next(s, step).shared.done <==> s.shared.done || step == CloseBegins
  {
  }

  /**
   * The sweep empties the map, and leaves no call waiting in vain that had registered before it:
   * its reply is there or on its way, or the call's next look at its channel returns.
   */
  lemma SweepReleases(s: State, t: nat)
    requires Inv(s) && ExpectedOk(s) && s.shared.done && !s.shared.swept
    ensures var s' := Next(s, Step.Sweep);
      && s'.shared.waiters == map[] && s'.shared.swept
      && (t in s'.calls && s'.calls[t].Waiting? ==>
            || (exists m :: OnTheWay(s', t, m))
            || Next(s', Receive(t)).calls[t] == Returned(Closed))
  {
    hide IdsOk, DeliveringOk, CallsOk;
    var s' := Next(s, Step.Sweep);
    if t in s.calls && s.calls[t].Waiting? {
      if m :| OnTheWay(s, t, m) {
        assert OnTheWay(s', t, m);
      }
    }
  }

  // -- a reply is received once ---------------------------------------------------------

  predicate IsReply(c: Call) { c.Returned? && c.result.Reply? }

  /** The channel of a call that returned a reply was sent to once, and is empty again. */
  ghost predicate ConsumedOk(s: State) {
    forall t :: t in s.calls && IsReply(s.calls[t]) ==>
      t in s.shared.chans && s.shared.chans[t] == Chan(None, false, 1)
  }

  lemma ReceiveKeepsConsumed(s: State, t: nat)
    requires Inv(s) && ConsumedOk(s)
    ensures ConsumedOk(Next(s, Receive(t)))
  {
    hide IdsOk, DeliveringOk, WaitersOk, CallsOk;
  }

  lemma DeliverKeepsConsumed(s: State, t: nat, m: Message)
    requires Inv(s) && ConsumedOk(s)
    ensures ConsumedOk(Next(s, Deliver(t, m)))
  {
    hide WaitersOk, IdsOk, ChansOk, CallsOk;
  }

  lemma SweepKeepsConsumed(s: State)
    requires Inv(s) && ConsumedOk(s)
    ensures ConsumedOk(Next(s, Step.Sweep))
  {
    hide IdsOk, DeliveringOk, ChansOk, CallsOk;
  }

  lemma RegisterKeepsConsumed(s: State, t: nat)
    requires Inv(s) && ConsumedOk(s)
    ensures ConsumedOk(Next(s, Step.Register(t)))
  {
    NotYetKnown(s, t);
    hide Inv;
  }

  /** Steps that touch no channel. */
  lemma OthersReceiveNothing(s: State, step: Step, t: nat)
    requires Inv(s) && !step.Register? && !step.Receive? && !step.Deliver? && !step.Sweep?
    ensures var s' := Next(s, step);
      s'.shared.chans == s.shared.chans && (t in s'.calls && IsReply(s'.calls[t]) ==> t in s.calls && IsReply(s.calls[t]))
  {
    hide WaitersOk, IdsOk, DeliveringOk, ChansOk;
  }

  lemma NextKeepsConsumed(s: State, step: Step)
    requires Inv(s) && ConsumedOk(s)
    ensures ConsumedOk(Next(s, step))
  {
    match step
    case Receive(t) => ReceiveKeepsConsumed(s, t);
    case Deliver(t, m) => DeliverKeepsConsumed(s, t, m);
    case Sweep => SweepKeepsConsumed(s);
    case Register(t) => RegisterKeepsConsumed(s, t);
    case _ =>
      forall t { OthersReceiveNothing(s, step, t); }
      hide Inv, Next;
  }

  lemma {:induction false} RunKeepsConsumed(s: State, steps: seq<Step>)
    requires Inv(s) && ConsumedOk(s)
    ensures ConsumedOk(Run(s, steps))
    decreases |steps|
  {
    if steps != [] {
      NextKeepsInv(s, steps[0]);
      NextKeepsConsumed(s, steps[0]);
      hide Inv, Next, ConsumedOk;
      RunKeepsConsumed(Next(s, steps[0]), steps[1..]);
    }
  }

  /** In every reachable state, a call's reply is the one message its channel ever got, and is no longer in it. */
  lemma ReceivedOnce(steps: seq<Step>)
    ensures var s := Run(Init, steps);
      forall t, m :: t in s.calls && s.calls[t] == Returned(Reply(m)) ==>
        t in s.shared.chans && s.shared.chans[t] == Chan(None, false, 1)
  {
    RunKeepsConsumed(Init, steps);
    hide Run, Inv;
  }

  // -- no call stays blocked ------------------------------------------------------------

  /** How many of its own steps a call still needs once the link is done. */
  function Rank(c: Call): nat {
    match c
    case Checking => 5
    case Registering => 4
    case Sending(_) => 3
    case Waiting(_) => 2
    case Forgetting(_, _) => 1
    case Returned(_) => 0
  }

  /** A step the call can take by itself. */
  function OwnStep(t: nat, c: Call): Step {
    match c
    case Checking => Check(t)
    case Registering => Step.Register(t)
    case Sending(_) => Step.Send(t, true)
    case Waiting(_) => SeeDone(t)
    case Forgetting(_, _) => Step.Forget(t)
    case Returned(_) => Check(t)
  }

  /** After done, an unfinished call always has a step that brings it nearer to returning. */
  lemma NeverBlocked(s: State, t: nat)
    requires s.shared.done && t in s.calls && !s.calls[t].Returned?
    ensures var s' := Next(s, OwnStep(t, s.calls[t]));
      s'.shared.done && t in s'.calls && Rank(s'.calls[t]) < Rank(s.calls[t])
  {
  }

  /** No step of anyone else takes that away, and the link never comes back. */
  lemma NeverSetBack(s: State, t: nat, step: Step)
    requires t in s.calls
    ensures t in Next(s, step).calls && Rank(Next(s, step).calls[t]) <= Rank(s.calls[t])
    ensures s.shared.done ==> Next(s, step).shared.done
  {
  }

  lemma {:induction false} RunNeverSetsBack(s: State, t: nat, steps: seq<Step>)
    requires t in s.calls
    ensures t in Run(s, steps).calls && Rank(Run(s, steps).calls[t]) <= Rank(s.calls[t])
    ensures s.shared.done ==> Run(s, steps).shared.done
    decreases |steps|
  {
    if steps != [] {
      NeverSetBack(s, t, steps[0]);
      hide Next, Rank;
      RunNeverSetsBack(Next(s, steps[0]), t, steps[1..]);
    }
  }

  /** A schedule in which, between any other steps, the call gets its own turn `turns` times. */
  ghost predicate Fair(s: State, t: nat, steps: seq<Step>, turns: nat)
    decreases |steps|
  {
    turns == 0
    || (steps != [] && t in s.calls
        && if steps[0] == OwnStep(t, s.calls[t]) then Fair(Next(s, steps[0]), t, steps[1..], turns - 1)
           else Fair(Next(s, steps[0]), t, steps[1..], turns))
  }

  /**
   * No call stays blocked after the link is done, even one that registered after Close swept
   * the map: five turns of its own, whatever happens in between, and it has returned.
   */
  lemma {:induction false} DoneReleasesCalls(s: State, t: nat, steps: seq<Step>)
    requires s.shared.done && t in s.calls && Fair(s, t, steps, Rank(s.calls[t]))
    ensures t in Run(s, steps).calls && Run(s, steps).calls[t].Returned?
    decreases |steps|
  {
    if s.calls[t].Returned? {
      RunNeverSetsBack(s, t, steps);
    } else {
      var s' := Next(s, steps[0]);
      NeverSetBack(s, t, steps[0]);
      if steps[0] == OwnStep(t, s.calls[t]) {
        NeverBlocked(s, t);
        FairFewer(s', t, steps[1..], Rank(s.calls[t]) - 1, Rank(s'.calls[t]));
      } else {
        FairFewer(s', t, steps[1..], Rank(s.calls[t]), Rank(s'.calls[t]));
      }
      DoneReleasesCalls(s', t, steps[1..]);
    }
  }

  lemma {:induction false} FairFewer(s: State, t: nat, steps: seq<Step>, turns: nat, fewer: nat)
    requires fewer <= turns && Fair(s, t, steps, turns)
    ensures Fair(s, t, steps, fewer)
    decreases |steps|
  {
    hide Next, OwnStep;
    if fewer > 0 {
      if steps[0] == OwnStep(t, s.calls[t]) {
        FairFewer(Next(s, steps[0]), t, steps[1..], turns - 1, fewer - 1);
      } else {
        FairFewer(Next(s, steps[0]), t, steps[1..], turns, fewer);
      }
    }
  }
}
