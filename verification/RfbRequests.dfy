/**
 * Requests and wakeups in jetkvm/rfb.go and the newest-frame store of jetkvm/video.go: one
 * goroutine reads requests, one answers them, decoders store frames, and their locked
 * regions and channel operations interleave freely.
 */
module RfbRequests {
  /** The one pending request, as the reader merges it. */
  datatype Request = Request(have: bool, incremental: bool)

  const NOTHING := Request(false, false)

  function Merged(pending: Request, incremental: bool): Request {
    Request(true, incremental && (!pending.have || pending.incremental))
  }

  /** The session's fields that reader and responder share. `wake` is a channel of capacity one. */
  class Mailbox {
    var pending: Request
    var wake: bool

    constructor ()
      ensures pending == NOTHING && !wake
    {
      pending, wake := NOTHING, false;
    }

    /** The reader's locked region: a full request outranks an incremental one. */
    method Merge(incremental: bool)
      modifies this`pending
      ensures pending == Merged(old(pending), incremental)
    {
      pending := Request(true, incremental && (!pending.have || pending.incremental));
    }

    /** The responder's locked region. */
    method Take() returns (req: Request)
      modifies this`pending
      ensures req == old(pending) && pending == NOTHING
    {
      req := pending;
      pending := NOTHING;
    }
  }

  /**
   * The newest frame's number, and the channel that the next frame will close. Channels are
   * numbered as they are made, so channel `c` is closed exactly when `c < notify`.
   */
  class FrameStore {
    var cur: nat
    var notify: nat

    constructor ()
      ensures cur == 0 && notify == 0
    {
      cur, notify := 0, 0;
    }

    method Set() returns (seqNo: nat)
      modifies this
      ensures cur == old(cur) + 1 && notify == old(notify) + 1 && seqNo == cur
    {
      cur := cur + 1;
      seqNo := cur;
      notify := notify + 1;
    }

    /** One look of Wait: a frame newer than `after`, or the channel to wait on. */
    method Look(after: nat) returns (found: bool, f: nat, ch: nat)
      ensures found == (cur > after) && f == cur && ch == notify
    {
      f, ch := cur, notify;
      found := f > after;
    }
  }

  // -- the whole system -----------------------------------------------------------------

  datatype Reader = Reading | AboutToWake

  /**
   * `Looking` and `Blocked` are inside the store's Wait for a frame after `after`; `first`
   * when no frame existed, so that a black one (number 0) is due in the end.
   */
  datatype Responder =
    | Sleeping
    | Woken
    | Picking(req: Request)
    | Looking(req: Request, after: nat, first: bool)
    | Blocked(req: Request, after: nat, first: bool, ch: nat)
    | Sending(req: Request, frame: nat)

  /** A reply: to which kind of request, which frame, and the frame sent before it. */
  datatype Reply = Reply(incremental: bool, frame: nat, prev: nat)

  datatype State = State(pending: Request, wake: bool, reader: Reader, responder: Responder,
                         cur: nat, notify: nat, lastSeq: nat, replies: seq<Reply>)

  datatype Step =
    | Ask(incremental: bool) | Wake
    | TakeWake | TakePending | Pick | Look | Notified | FirstFrameTimeout | Send
    | SetFrame

  /** A step that is not enabled changes nothing. */
  function Next(s: State, step: Step): State {
    match step
    case Ask(incremental) =>
      if s.reader != Reading then s else s.(reader := AboutToWake, pending := Merged(s.pending, incremental))
    case Wake => if s.reader != AboutToWake then s else s.(reader := Reading, wake := true)
    case TakeWake => if s.responder != Sleeping || !s.wake then s else s.(responder := Woken, wake := false)
    case TakePending =>
      if s.responder != Woken then s
      else s.(responder := if s.pending.have then Picking(s.pending) else Sleeping, pending := NOTHING)
    case Pick =>
      if !s.responder.Picking? then s
      else
        var req := s.responder.req;
        if s.cur > 0 && (!req.incremental || s.cur > s.lastSeq) then s.(responder := Sending(req, s.cur))
        else if s.cur == 0 then s.(responder := Looking(req, 0, true))
        else s.(responder := Looking(req, s.lastSeq, false))
    case Look =>
      if !s.responder.Looking? then s
      else
        var Looking(req, after, first) := s.responder;
        s.(responder := if s.cur > after then Sending(req, s.cur) else Blocked(req, after, first, s.notify))
    case Notified =>
      if !s.responder.Blocked? || s.responder.ch >= s.notify then s
      else s.(responder := Looking(s.responder.req, s.responder.after, s.responder.first))
    case FirstFrameTimeout =>
      if !s.responder.Blocked? || !s.responder.first then s else s.(responder := Sending(s.responder.req, 0))
    case Send =>
      if !s.responder.Sending? then s
      else
        var Sending(req, frame) := s.responder;
        s.(responder := Sleeping, lastSeq := frame, replies := s.replies + [Reply(req.incremental, frame, s.lastSeq)])
    case SetFrame => s.(cur := s.cur + 1, notify := s.notify + 1)
  }

  const Init := State(NOTHING, false, Reading, Sleeping, 0, 0, 0, [])

  function Run(s: State, steps: seq<Step>): State
    decreases |steps|
  {
    if steps == [] then s else Run(Next(s, steps[0]), steps[1..])
  }

  // -- nothing is lost ------------------------------------------------------------------

  /** A pending request has a token in the channel, or somebody on the way to it. */
  ghost predicate WakeupPending(s: State) {
    s.pending.have ==> s.wake || s.reader == AboutToWake || s.responder == Woken
  }

  /** What the request in the responder's hands may still be answered with. */
  ghost predicate ResponderOk(s: State) {
    match s.responder
    case Looking(_, after, first) => after == s.lastSeq && (first ==> s.lastSeq == 0)
    case Blocked(_, after, first, ch) => after == s.lastSeq && ch == after <= s.notify && (first ==> s.lastSeq == 0)
    case Sending(req, frame) =>
      && (frame == 0 ==> s.lastSeq == 0)
      && s.lastSeq <= frame <= s.cur && (req.incremental ==> frame > s.lastSeq || frame == 0)
    case _ => true
  }

  /** An incremental reply is strictly newer than the frame before it, black frames aside. */
  predicate ReplyOk(r: Reply) {
    && (r.incremental ==> r.frame > r.prev || r.frame == 0)
    && (r.frame == 0 ==> r.prev == 0) && r.frame >= r.prev
  }

  /** Each reply follows the one sent before it. */
  ghost predicate Chained(replies: seq<Reply>) {
    forall i :: 0 <= i < |replies| ==> replies[i].prev == LastFrame(replies[..i])
  }

  /** The frame sent last. */
  function LastFrame(replies: seq<Reply>): nat {
    if replies == [] then 0 else replies[|replies| - 1].frame
  }

  ghost predicate Inv(s: State) {
    && WakeupPending(s) && ResponderOk(s)
    && s.notify == s.cur && s.lastSeq <= s.cur
    && (forall r <- s.replies :: ReplyOk(r))
    && Chained(s.replies) && s.lastSeq == LastFrame(s.replies)
  }

  lemma NextKeepsInv(s: State, step: Step)
    requires Inv(s)
    ensures Inv(Next(s, step))
  {
    if step == Send && s.responder.Sending? {
      var r := Reply(s.responder.req.incremental, s.responder.frame, s.lastSeq);
      assert ReplyOk(r);
      assert forall x <- s.replies + [r] :: x in s.replies || x == r;
      var more := s.replies + [r];
      assert forall i :: 0 <= i < |s.replies| ==> more[..i] == s.replies[..i];
      assert more[..|s.replies|] == s.replies;
    }
  }

  lemma {:induction false} RunKeepsInv(s: State, steps: seq<Step>)
    requires Inv(s)
    ensures Inv(Run(s, steps))
    decreases |steps|
  {
    if steps != [] {
      NextKeepsInv(s, steps[0]);
      hide Inv, Next;
      RunKeepsInv(Next(s, steps[0]), steps[1..]);
    }
  }

  /**
   * Under every interleaving no request is left behind: while one is pending there is a wake
   * token, a reader about to send one, or a responder that has taken one, so when all are at
   * rest nothing is pending. Every incremental reply is strictly newer than the last frame
   * sent, except a black frame, which goes out only while no other has been sent.
   */
  lemma RequestsServed(steps: seq<Step>)
    ensures var s := Run(Init, steps);
      && WakeupPending(s)
      && (s.responder == Sleeping && s.reader == Reading && !s.wake ==> !s.pending.have)
      && (forall r <- s.replies :: ReplyOk(r))
      && (forall i :: 0 < i < |s.replies| ==> s.replies[i].prev == s.replies[i - 1].frame)
      && (s.replies != [] ==> s.replies[0].prev == 0)
  {
    RunKeepsInv(Init, steps);
    hide Run, ReplyOk;
    var replies := Run(Init, steps).replies;
    assert forall i :: 0 < i < |replies| ==> replies[..i][i - 1] == replies[i - 1];
  }

  /** Whether the black frame is what the responder is about to send. */
  predicate SendsBlack(s: State) { s.responder.Sending? && s.responder.frame == 0 }

  ghost predicate NoBlackFrom(replies: seq<Reply>, n: nat) {
    forall i :: n <= i < |replies| ==> replies[i].frame > 0
  }

  lemma BlackStep(s: State, step: Step, n: nat)
    requires !SendsBlack(s) && step != FirstFrameTimeout && NoBlackFrom(s.replies, n)
    ensures !SendsBlack(Next(s, step)) && NoBlackFrom(Next(s, step).replies, n)
  {
  }

  /** A black frame goes out only when the wait for the first frame ran out. */
  lemma {:induction false} BlackOnlyAfterTimeout(s: State, steps: seq<Step>, n: nat)
    requires !SendsBlack(s) && NoBlackFrom(s.replies, n) && FirstFrameTimeout !in steps
    ensures !SendsBlack(Run(s, steps)) && NoBlackFrom(Run(s, steps).replies, n)
    decreases |steps|
  {
    if steps != [] {
      assert FirstFrameTimeout !in steps[1..] && steps[0] != FirstFrameTimeout;
      BlackStep(s, steps[0], n);
      hide Next, SendsBlack, NoBlackFrom;
      BlackOnlyAfterTimeout(Next(s, steps[0]), steps[1..], n);
    }
  }

  /** And a request that finds no frame at all waits at most that long. */
  lemma BlackInTheEnd(s: State)
    requires s.responder.Picking? && s.cur == 0
    ensures var r := Next(Next(Next(Next(s, Pick), Look), FirstFrameTimeout), Send);
      r.replies == s.replies + [Reply(s.responder.req.incremental, 0, s.lastSeq)] && r.responder == Sleeping
  {
  }

  // -- tokens -----------------------------------------------------------------------------

  function Count(b: bool): nat { if b then 1 else 0 }

  /** The steps along a run by which the responder takes a token. */
  function WakesTaken(s: State, steps: seq<Step>): nat
    decreases |steps|
  {
    if steps == [] then 0
    else Count(steps[0] == TakeWake && s.responder == Sleeping && s.wake) + WakesTaken(Next(s, steps[0]), steps[1..])
  }

  /** The requests along a run that the reader takes off the wire. */
  function RequestsRead(s: State, steps: seq<Step>): nat
    decreases |steps|
  {
    if steps == [] then 0
    else Count(steps[0].Ask? && s.reader == Reading) + RequestsRead(Next(s, steps[0]), steps[1..])
  }

  /** The responder never wakes more often than there are requests: one token each, and used up. */
  lemma {:induction false} WakesAreUsedUp(s: State, steps: seq<Step>)
    ensures var r := Run(s, steps);
      WakesTaken(s, steps) + Count(r.wake) + Count(r.reader == AboutToWake)
        <= RequestsRead(s, steps) + Count(s.wake) + Count(s.reader == AboutToWake)
    decreases |steps|
  {
    if steps != [] {
      WakesAreUsedUp(Next(s, steps[0]), steps[1..]);
    }
  }

  /** The reader goes on reading after each request. */
  lemma ReaderGoesOn(s: State, incremental: bool)
    requires s.reader == Reading
    ensures var r := Next(Next(s, Ask(incremental)), Wake); r.reader == Reading && r.wake && r.pending.have
  {
  }

  /**
   * A responder that waits for a frame is never left waiting once there is one: the channel
   * it waits on has been closed, and its next two steps take it to sending.
   */
  lemma FrameWakeupNotLost(steps: seq<Step>)
    ensures var s := Run(Init, steps);
      s.responder.Blocked? && s.cur > s.responder.after ==>
        && s.responder.ch < s.notify
        && Next(Next(s, Notified), Look).responder == Sending(s.responder.req, s.cur)
  {
    RunKeepsInv(Init, steps);
    hide Run;
  }

  /** From the reader's word to the responder's hands a full request stays full. */
  ghost predicate FullOnTheWay(s: State) {
    s.pending == Request(true, false)
  }

  /** The responder has not taken the pending request along the run. */
  ghost predicate NotTaken(s: State, steps: seq<Step>)
    decreases |steps|
  {
    steps == [] || (!(steps[0] == TakePending && s.responder == Woken) && NotTaken(Next(s, steps[0]), steps[1..]))
  }

  /** The kinds of the requests that the reader merges along the run, true for incremental. */
  function Asked(s: State, steps: seq<Step>): seq<bool>
    decreases |steps|
  {
    if steps == [] then []
    else
      (if steps[0].Ask? && s.reader == Reading then [steps[0].incremental] else []) + Asked(Next(s, steps[0]), steps[1..])
  }

  /**
   * From one take to the next: something is pending exactly when something was asked for, and it is
   * incremental exactly when all that was asked for is.
   */
  lemma {:induction false} PendingExactly(s: State, steps: seq<Step>)
    requires NotTaken(s, steps)
    ensures var asked, pending := Asked(s, steps), Run(s, steps).pending;
      && (pending.have <==> s.pending.have || asked != [])
      && (pending.have ==>
            (pending.incremental <==> (s.pending.have ==> s.pending.incremental) && forall kind <- asked :: kind))
    decreases |steps|
  {
    if steps != [] {
      var s' := Next(s, steps[0]);
      PendingExactly(s', steps[1..]);
      var first := if steps[0].Ask? && s.reader == Reading then [steps[0].incremental] else [];
      var rest := Asked(s', steps[1..]);
      AllOf(first, rest);
    }
  }

  lemma AllOf(a: seq<bool>, b: seq<bool>)
    ensures (forall kind <- a + b :: kind) <==> (forall kind <- a :: kind) && (forall kind <- b :: kind)
    ensures |a| == 1 ==> ((forall kind <- a :: kind) <==> a[0])
  {
    assert forall kind :: kind in a + b <==> kind in a || kind in b;
  }

  lemma {:induction false} FullNeverDowngraded(s: State, steps: seq<Step>)
    requires FullOnTheWay(s) && NotTaken(s, steps)
    ensures FullOnTheWay(Run(s, steps))
    decreases |steps|
  {
    if steps != [] {
      FullNeverDowngraded(Next(s, steps[0]), steps[1..]);
    }
  }

  /** And once taken it is answered at once with the current frame, if there ever was one. */
  lemma FullAnsweredAtOnce(s: State)
    requires s.responder == Woken && FullOnTheWay(s) && s.cur > 0
    ensures Next(Next(s, TakePending), Pick).responder == Sending(Request(true, false), s.cur)
  {
  }

  // -- a pending request is answered in time ----------------------------------------------

  /** The responder has a request in hand. */
  predicate Holding(r: Responder) { r.Picking? || r.Looking? || r.Blocked? || r.Sending? }

  /** The steps until a request in the responder's hands is answered, once frames come. */
  function Left(s: State): nat {
    match s.responder
    case Picking(_) => 6
    case Looking(_, after, _) => if s.cur > after then 2 else 5
    case Blocked(_, _, _, ch) => if ch < s.notify then 3 else 4
    case Sending(_, _) => 1
    case _ => 0
  }

  /** The steps until a pending request is in the responder's hands. */
  function Distance(s: State): nat {
    (if s.responder == Woken then 1 else 2 + Left(s) + if s.wake then 0 else 1)
  }

  /**
   * The step that brings an answer nearer: the responder's own; the reader's, when the responder
   * sleeps and has no token; or a new frame, when it waits for one.
   */
  function Helpful(s: State): Step {
    match s.responder
    case Woken => TakePending
    case Sleeping => if s.wake then TakeWake else Wake
    case Picking(_) => Pick
    case Looking(_, _, _) => Look
    case Blocked(_, _, first, ch) => if ch < s.notify then Notified else if first then FirstFrameTimeout else SetFrame
    case Sending(_, _) => Send
  }

  /** The step by which the responder takes a pending request. */
  predicate Takes(s: State, step: Step) { step == TakePending && s.responder == Woken && s.pending.have }

  predicate Sends(s: State, step: Step) { step == Send && s.responder.Sending? }

  /**
   * While a request is pending, a step of the reader, the responder or the decoder takes it or
   * brings it nearer, and no step sets it back.
   */
  lemma PendingProgresses(s: State, step: Step)
    requires Inv(s) && s.pending.have && !Takes(s, step)
    ensures var s' := Next(s, step);
      && s'.pending.have && Distance(s') <= Distance(s)
      && (step == Helpful(s) ==> Distance(s') < Distance(s))
  {
  }

  /** Nor is a request set back once the responder has it, until it is answered. */
  lemma HeldProgresses(s: State, step: Step)
    requires Inv(s) && Holding(s.responder) && !Sends(s, step)
    ensures var s' := Next(s, step);
      && Holding(s'.responder) && s'.responder.req == s.responder.req && s'.replies == s.replies && Left(s') <= Left(s)
      && (step == Helpful(s) ==> Left(s') < Left(s))
  {
  }

  /** A schedule in which, between any other steps, the helpful one gets its turn `turns` times. */
  ghost predicate Fair(s: State, steps: seq<Step>, turns: nat)
    decreases |steps|
  {
    turns == 0
    || (steps != [] && Fair(Next(s, steps[0]), steps[1..], if steps[0] == Helpful(s) then turns - 1 else turns))
  }

  lemma {:induction false} FairFewer(s: State, steps: seq<Step>, turns: nat, fewer: nat)
    requires fewer <= turns && Fair(s, steps, turns)
    ensures Fair(s, steps, fewer)
    decreases |steps|
  {
    hide Next, Helpful;
    if fewer > 0 {
      var less := if steps[0] == Helpful(s) then 1 else 0;
      FairFewer(Next(s, steps[0]), steps[1..], turns - less, fewer - less);
    }
  }

  /** The responder takes the pending request somewhere along the run. */
  ghost predicate TakenAlong(s: State, steps: seq<Step>)
    decreases |steps|
  {
    steps != [] && (Takes(s, steps[0]) || TakenAlong(Next(s, steps[0]), steps[1..]))
  }

  /**
   * Nine turns of whoever can help, whatever the others do in between and however many requests
   * are merged into it, and a pending request has been taken.
   */
  lemma {:induction false} TakenInTime(s: State, steps: seq<Step>)
    requires Inv(s) && s.pending.have && Fair(s, steps, Distance(s))
    ensures TakenAlong(s, steps) && Distance(s) <= 9
    decreases |steps|
  {
    if !Takes(s, steps[0]) {
      var s' := Next(s, steps[0]);
      PendingProgresses(s, steps[0]);
      NextKeepsInv(s, steps[0]);
      hide Inv, Next, Helpful, Takes;
      FairFewer(s', steps[1..], if steps[0] == Helpful(s) then Distance(s) - 1 else Distance(s), Distance(s'));
      TakenInTime(s', steps[1..]);
    }
  }

  /** The next reply along the run answers a request of kind `incremental`. */
  ghost predicate AnsweredAlong(s: State, steps: seq<Step>, incremental: bool)
    decreases |steps|
  {
    steps != []
    && if Sends(s, steps[0]) then s.responder.req.incremental == incremental
       else AnsweredAlong(Next(s, steps[0]), steps[1..], incremental)
  }

  /** Six turns more, and the request in the responder's hands has been answered as what it is. */
  lemma {:induction false} AnsweredInTime(s: State, steps: seq<Step>)
    requires Inv(s) && Holding(s.responder) && Fair(s, steps, Left(s))
    ensures AnsweredAlong(s, steps, s.responder.req.incremental) && Left(s) <= 6
    decreases |steps|
  {
    if !Sends(s, steps[0]) {
      var s' := Next(s, steps[0]);
      HeldProgresses(s, steps[0]);
      NextKeepsInv(s, steps[0]);
      hide Inv, Next, Helpful, Sends;
      FairFewer(s', steps[1..], if steps[0] == Helpful(s) then Left(s) - 1 else Left(s), Left(s'));
      AnsweredInTime(s', steps[1..]);
    }
  }

  lemma {:induction false} RepliesGrow(s: State, steps: seq<Step>)
    ensures s.replies <= Run(s, steps).replies
    decreases |steps|
  {
    if steps != [] {
      RepliesGrow(Next(s, steps[0]), steps[1..]);
    }
  }

  lemma {:induction false} AnswerArrives(s: State, steps: seq<Step>, incremental: bool)
    requires AnsweredAlong(s, steps, incremental)
    ensures |s.replies| < |Run(s, steps).replies| && Run(s, steps).replies[|s.replies|].incremental == incremental
    decreases |steps|
  {
    var s' := Next(s, steps[0]);
    if Sends(s, steps[0]) {
      RepliesGrow(s', steps[1..]);
    } else {
      assert s'.replies == s.replies;
      hide Next, Sends;
      AnswerArrives(s', steps[1..], incremental);
    }
  }

  /**
   * From the reader's word to the wire: under every such schedule a full request is answered by a
   * full reply, whatever is asked, decoded and sent in between.
   */
  lemma {:induction false} FullServedInTime(s: State, steps: seq<Step>) returns (i: nat)
    requires Inv(s) && FullOnTheWay(s) && Fair(s, steps, Distance(s) + 6)
    ensures |s.replies| <= i < |Run(s, steps).replies| && !Run(s, steps).replies[i].incremental
    decreases |steps|
  {
    hide *;
    var s' := FullStep(s, steps);
    if Takes(s, steps[0]) {
      AnsweredInTime(s', steps[1..]);
      AnswerArrives(s', steps[1..], false);
      i := |s'.replies|;
    } else {
      i := FullServedInTime(s', steps[1..]);
    }
  }

  /** The first step of such a run, and what is left of it. */
  lemma FullStep(s: State, steps: seq<Step>) returns (s': State)
    requires Inv(s) && FullOnTheWay(s) && Fair(s, steps, Distance(s) + 6)
    ensures steps != [] && Inv(s') && Run(s, steps) == Run(s', steps[1..]) && |s'.replies| >= |s.replies|
    ensures if Takes(s, steps[0])
            then Holding(s'.responder) && !s'.responder.req.incremental && Fair(s', steps[1..], Left(s'))
            else FullOnTheWay(s') && Fair(s', steps[1..], Distance(s') + 6)
  {
    s' := Next(s, steps[0]);
    NextKeepsInv(s, steps[0]);
    if Takes(s, steps[0]) {
      assert Left(s') == 6;
      hide Inv, Next;
      FairFewer(s', steps[1..], Distance(s) + 5, 6);
    } else {
      PendingProgresses(s, steps[0]);
      FullKept(s, steps[0]);
      hide Inv, Next, Helpful;
      FairFewer(s', steps[1..], if steps[0] == Helpful(s) then Distance(s) + 5 else Distance(s) + 6, Distance(s') + 6);
    }
  }

  lemma FullKept(s: State, step: Step)
    requires FullOnTheWay(s) && !Takes(s, step)
    ensures FullOnTheWay(Next(s, step)) && |Next(s, step).replies| >= |s.replies|
  {
  }
}
