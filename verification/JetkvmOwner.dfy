/**
 * The session owner of jetkvm/owner.go: commands, the background maintainer and the video
 * keeper all connect through one routine, while sessions die and are taken over at any time.
 * Every locked region is one step; the steps of all goroutines interleave freely.
 */
module JetkvmOwner {
  import opened Bytes

  /** Seconds: the cap on the delay between background attempts, and the delay after a drop. */
  const MAX_BACKOFF: nat := 30
  const DROP_DELAY: nat := 1

  // -- the fields under the owner's mutex -----------------------------------------------

  /** Sessions are named by the order in which they were dialed. */
  datatype Fields = Fields(link: Option<nat>, kicked: bool, nextTry: nat, backoff: nat)

  /** A dial succeeded. */
  function Connected(f: Fields, l: nat): Fields {
    f.(link := Some(l), kicked := false, backoff := 0)
  }

  /** The watcher of session `l` saw it end. */
  function Ended(f: Fields, l: nat, kicked: bool, now: nat): Fields {
    if f.link != Some(l) then f
    else if kicked then f.(link := None, kicked := true)
    else f.(link := None, nextTry := now + DROP_DELAY)
  }

  function NextBackoff(b: nat): nat {
    if b == 0 then 1 else if 2 * b > MAX_BACKOFF then MAX_BACKOFF else 2 * b
  }

  /** A background attempt failed. */
  function Failed(f: Fields, now: nat): Fields {
    f.(backoff := NextBackoff(f.backoff), nextTry := now + NextBackoff(f.backoff))
  }

  predicate SkipsTick(f: Fields, now: nat) { f.kicked || now < f.nextTry }

  class Owner {
    var link: Option<nat>
    var kicked: bool
    var nextTry: nat
    var backoff: nat

    ghost function View(): Fields
      reads this
    {
      Fields(link, kicked, nextTry, backoff)
    }

    constructor ()
      ensures View() == Fields(None, false, 0, 0)
    {
      link, kicked, nextTry, backoff := None, false, 0, 0;
    }

    /** The end of a successful ensureLink. */
    method Connect(l: nat)
      modifies this
      ensures View() == Connected(old(View()), l)
    {
      link, kicked := Some(l), false;
      backoff := 0;
    }

    method Watch(l: nat, wasKicked: bool, now: nat)
      modifies this
      ensures View() == Ended(old(View()), l, wasKicked, now)
    {
      if link != Some(l) {
        return;
      }
      link := None;
      if wasKicked {
        kicked := true;
        return;
      }
      nextTry := now + DROP_DELAY;
    }

    method Skip(now: nat) returns (skip: bool)
      ensures skip == SkipsTick(View(), now)
    {
      skip := kicked || now < nextTry;
    }

    method NoteFailure(now: nat)
      modifies this
      ensures View() == Failed(old(View()), now)
    {
      if backoff == 0 {
        backoff := 1;
      } else {
        backoff := backoff * 2;
        if backoff > MAX_BACKOFF {
          backoff := MAX_BACKOFF;
        }
      }
      nextTry := now + backoff;
    }
  }

  // -- the whole system -----------------------------------------------------------------

  /**
   * A command (or a video client that just attached) means to connect; the others must not insist.
   * A video keeper that was cancelled may still be connecting when the next one starts.
   */
  datatype Caller = Explicit(n: nat) | Background | Keeper(n: nat)

  /**
   * Where a caller stands in a connect: `Asking` whether it may; `Fast` before the first look
   * at the session; then queued for, and holding, the dialing lock.
   */
  datatype Pc = Idle | Asking | Fast | Queued | Holding | Dialing | Dialed(link: Option<nat>) | BackingOff

  datatype Status = Status(done: bool, kicked: bool)

  /**
   * `sessions`: every session ever `dialed`. `watched`: those whose watcher has not run.
   * `fails`: background failures since the last success.
   */
  datatype State = State(fields: Fields, sessions: map<nat, Status>, dialed: nat, watched: set<nat>, lock: Option<Caller>,
                         pcs: map<Caller, Pc>, now: nat, fails: nat)

  datatype Step =
    | Begin(c: Caller) | Ask(c: Caller) | Look(c: Caller) | Lock(c: Caller) | LookAgain(c: Caller)
    | DialOk(c: Caller) | DialFails(c: Caller) | Record(c: Caller) | BackOff
    | KickArrives(l: nat) | Dies(l: nat) | WatchRuns(l: nat) | Elapse(d: nat)

  function PcOf(s: State, c: Caller): Pc { if c in s.pcs then s.pcs[c] else Idle }

  function To(s: State, c: Caller, pc: Pc): State { s.(pcs := s.pcs[c := pc]) }

  predicate Alive(s: State, l: nat) { l in s.sessions && !s.sessions[l].done }

  /** Whether liveLink finds a session. */
  predicate Live(s: State) { s.fields.link.Some? && Alive(s, s.fields.link.value) }

  /** A step that is not enabled changes nothing. */
  function Next(s: State, step: Step): State {
    match step
    case Begin(c) =>
      if PcOf(s, c) != Idle then s
      else if c.Explicit? then To(s, c, Fast)
      else if Live(s) then s else To(s, c, Asking)
    case Ask(c) =>
      if PcOf(s, c) != Asking then s
      else To(s, c, if (if c.Background? then SkipsTick(s.fields, s.now) else s.fields.kicked) then Idle else Fast)
    case Look(c) => if PcOf(s, c) != Fast then s else To(s, c, if Live(s) then Idle else Queued)
    case Lock(c) => if PcOf(s, c) != Queued || s.lock.Some? then s else To(s, c, Holding).(lock := Some(c))
    case LookAgain(c) =>
      if PcOf(s, c) != Holding then s
      else if Live(s) then To(s, c, Idle).(lock := None) else To(s, c, Dialing)
    case DialOk(c) =>
      if PcOf(s, c) != Dialing then s
      else
        To(s, c, Dialed(Some(s.dialed))).(sessions := s.sessions[s.dialed := Status(false, false)], dialed := s.dialed + 1)
    case DialFails(c) => if PcOf(s, c) != Dialing then s else To(s, c, Dialed(None))
    case Record(c) =>
      (match PcOf(s, c)
       case Dialed(Some(l)) =>
         To(s, c, Idle).(fields := Connected(s.fields, l), watched := s.watched + {l}, lock := None, fails := 0)
       case Dialed(None) => To(s, c, if c.Background? then BackingOff else Idle).(lock := None)
       case _ => s)
    case BackOff =>
      if PcOf(s, Background) != BackingOff then s
      else To(s, Background, Idle).(fields := Failed(s.fields, s.now), fails := s.fails + 1)
    case KickArrives(l) =>
      if !Alive(s, l) then s else s.(sessions := s.sessions[l := s.sessions[l].(kicked := true)])
    case Dies(l) =>
      if !Alive(s, l) then s else s.(sessions := s.sessions[l := s.sessions[l].(done := true)])
    case WatchRuns(l) =>
      if l !in s.watched || l !in s.sessions || Alive(s, l) then s
      else s.(fields := Ended(s.fields, l, s.sessions[l].kicked, s.now), watched := s.watched - {l})
    case Elapse(d) => s.(now := s.now + d)
  }

  const Init := State(Fields(None, false, 0, 0), map[], 0, {}, None, map[], 0, 0)

  function Run(s: State, steps: seq<Step>): State
    decreases |steps|
  {
    if steps == [] then s else Run(Next(s, steps[0]), steps[1..])
  }

  // -- at most one session --------------------------------------------------------------

  predicate Holds(pc: Pc) { pc.Holding? || pc.Dialing? || pc.Dialed? }

  ghost predicate LockOk(s: State) {
    forall c :: Holds(PcOf(s, c)) <==> s.lock == Some(c)
  }

  ghost predicate NamesOk(s: State) {
    && (forall l: nat :: l in s.sessions <==> l < s.dialed)
    && (s.fields.link.Some? ==> s.fields.link.value in s.sessions)
    && (forall c :: PcOf(s, c).Dialed? && PcOf(s, c).link.Some? ==> PcOf(s, c).link.value in s.sessions)
  }

  /** While someone dials there is no session; what they dialed is the only one. */
  ghost predicate DialingOk(s: State) {
    forall c :: PcOf(s, c).Dialing? || PcOf(s, c).Dialed? ==> !Live(s)
  }

  /** Every session but the owner's, and one just dialed, has ended. */
  ghost predicate OthersDone(s: State) {
    forall l: nat :: Alive(s, l) ==> s.fields.link == Some(l) || exists c :: PcOf(s, c) == Dialed(Some(l))
  }

  ghost predicate BackoffOk(s: State) {
    s.fields.backoff == BackoffAfter(s.fails)
  }

  /** The owner's session still has its watcher. */
  ghost predicate WatchedOk(s: State) {
    s.fields.link.Some? ==> s.fields.link.value in s.watched
  }

  /** min(2^(n-1), 30) seconds after the n-th failure in a row. */
  function BackoffAfter(n: nat): nat {
    if n == 0 then 0 else if n > 5 then 30 else Pow2(n - 1)
  }

  ghost predicate Inv(s: State) {
    && LockOk(s) && NamesOk(s) && DialingOk(s) && OthersDone(s) && BackoffOk(s) && WatchedOk(s)
    && (s.fields.kicked ==> s.fields.link == None)
  }

  lemma NextKeepsLock(s: State, step: Step)
    requires Inv(s)
    ensures LockOk(Next(s, step))
  {
    hide NamesOk, DialingOk, OthersDone, BackoffOk;
  }

  lemma NextKeepsNames(s: State, step: Step)
    requires Inv(s)
    ensures NamesOk(Next(s, step))
  {
    hide LockOk, DialingOk, OthersDone, BackoffOk;
    var s' := Next(s, step);
    forall c | PcOf(s', c).Dialed? && PcOf(s', c).link.Some?
      ensures PcOf(s', c).link.value in s'.sessions
    {
      assert PcOf(s', c) == PcOf(s, c) || step == DialOk(c);
    }
  }

  lemma NextKeepsDialing(s: State, step: Step)
    requires Inv(s)
    ensures DialingOk(Next(s, step))
  {
    hide OthersDone, BackoffOk;
    var s' := Next(s, step);
    forall c | PcOf(s', c).Dialing? || PcOf(s', c).Dialed?
      ensures !Live(s')
    {
      assert Holds(PcOf(s', c));
      assert PcOf(s', c) == PcOf(s, c) || step in {LookAgain(c), DialOk(c), DialFails(c)};
      assert Holds(PcOf(s, c));
    }
  }

  lemma DialOkKeepsOthers(s: State, c: Caller)
    requires Inv(s)
    ensures OthersDone(Next(s, DialOk(c)))
  {
    hide BackoffOk, LockOk, DialingOk;
    var s' := Next(s, DialOk(c));
    forall l: nat | Alive(s', l)
      ensures s'.fields.link == Some(l) || exists c :: PcOf(s', c) == Dialed(Some(l))
    {
      assert PcOf(s', c).Dialed? || s' == s;
      if Alive(s, l) && s.fields.link != Some(l) {
        var c' :| PcOf(s, c') == Dialed(Some(l));
        assert c' == c || PcOf(s', c') == Dialed(Some(l));
      }
    }
  }

  lemma RecordKeepsOthers(s: State, c: Caller)
    requires Inv(s)
    ensures OthersDone(Next(s, Record(c)))
  {
    hide BackoffOk, NamesOk;
    var s' := Next(s, Record(c));
    forall l: nat | Alive(s', l)
      ensures s'.fields.link == Some(l) || exists c :: PcOf(s', c) == Dialed(Some(l))
    {
      assert PcOf(s, c).Dialed? ==> !Live(s);
      if s.fields.link != Some(l) {
        var c' :| PcOf(s, c') == Dialed(Some(l));
        assert Holds(PcOf(s, c'));
        assert PcOf(s, c).Dialed? ==> Holds(PcOf(s, c));
        assert c' == c || PcOf(s', c') == Dialed(Some(l));
      }
    }
  }

  lemma NextKeepsOthers(s: State, step: Step)
    requires Inv(s)
    ensures OthersDone(Next(s, step))
  {
    match step
    case DialOk(c) => DialOkKeepsOthers(s, c);
    case Record(c) => RecordKeepsOthers(s, c);
    case _ =>
      hide BackoffOk, LockOk, NamesOk, DialingOk;
      forall l: nat | Alive(Next(s, step), l)
        ensures Next(s, step).fields.link == Some(l) || exists c :: PcOf(Next(s, step), c) == Dialed(Some(l))
      {
        LinkKept(s, step, l);
        if s.fields.link != Some(l) {
          var c :| PcOf(s, c) == Dialed(Some(l));
          PcKept(s, step, c);
        }
      }
  }

  lemma LinkKept(s: State, step: Step, l: nat)
    requires !step.DialOk? && !step.Record?
    ensures Alive(Next(s, step), l) ==> Alive(s, l) && (s.fields.link == Some(l) ==> Next(s, step).fields.link == Some(l))
  {
    hide PcOf;
  }

  lemma PcKept(s: State, step: Step, c: Caller)
    requires !step.Record?
    ensures PcOf(s, c).Dialed? ==> PcOf(Next(s, step), c) == PcOf(s, c)
  {
  }

  lemma NextKeepsBackoff(s: State, step: Step)
    requires Inv(s)
    ensures BackoffOk(Next(s, step))
  {
    hide LockOk, NamesOk, DialingOk, OthersDone;
    assert Pow2(0) == 1 && Pow2(1) == 2 && Pow2(2) == 4 && Pow2(3) == 8 && Pow2(4) == 16;
  }

  lemma NextKeepsWatched(s: State, step: Step)
    requires Inv(s)
    ensures WatchedOk(Next(s, step)) && (Next(s, step).fields.kicked ==> Next(s, step).fields.link == None)
  {
    hide LockOk, NamesOk, DialingOk, OthersDone, BackoffOk;
  }

  lemma NextKeepsInv(s: State, step: Step)
    requires Inv(s)
    ensures Inv(Next(s, step))
  {
    NextKeepsLock(s, step);
    NextKeepsWatched(s, step);
    NextKeepsNames(s, step);
    NextKeepsDialing(s, step);
    NextKeepsOthers(s, step);
    NextKeepsBackoff(s, step);
    hide LockOk, NamesOk, DialingOk, OthersDone, BackoffOk, WatchedOk, Live, PcOf;
  }

  lemma {:induction false} RunKeepsInv(s: State, steps: seq<Step>)
    requires Inv(s)
    ensures Inv(Run(s, steps))
    decreases |steps|
  {
    if steps != [] {
      NextKeepsInv(s, steps[0]);
      hide Inv, Next;
      RunKeepsInv(Next(s, steps[0]), steps[1..]);
    }
  }

  /**
   * Under every interleaving at most one session is alive: all that were ever dialed have
   * ended, except possibly the owner's, or one the dialing caller is about to record.
   */
  lemma AtMostOneSession(steps: seq<Step>)
    ensures var s := Run(Init, steps);
      && (forall l: nat, m: nat :: Alive(s, l) && Alive(s, m) ==> l == m)
      && (forall l: nat :: Alive(s, l) && s.fields.link != Some(l) ==>
            s.lock.Some? && PcOf(s, s.lock.value) == Dialed(Some(l)))
  {
    RunKeepsInv(Init, steps);
    OneAlive(Run(Init, steps));
  }

  lemma OneAlive(s: State)
    requires Inv(s)
    ensures forall l: nat, m: nat :: Alive(s, l) && Alive(s, m) ==> l == m
    ensures forall l: nat :: Alive(s, l) && s.fields.link != Some(l) ==>
              s.lock.Some? && PcOf(s, s.lock.value) == Dialed(Some(l))
  {
    hide NamesOk, BackoffOk;
    forall l: nat | Alive(s, l) && s.fields.link != Some(l)
      ensures s.lock.Some? && PcOf(s, s.lock.value) == Dialed(Some(l)) && !Live(s)
    {
      var c :| PcOf(s, c) == Dialed(Some(l));
      assert Holds(PcOf(s, c));
    }
  }

  // -- a recorded kick ------------------------------------------------------------------

  /** Not past the question whether to dial. */
  predicate NotInsisting(pc: Pc) { pc.Idle? || pc.Asking? || pc == Dialed(None) || pc.BackingOff? }

  /** No connect that nobody asked for is on its way. */
  ghost predicate Quiet(s: State) {
    forall c: Caller :: !c.Explicit? ==> NotInsisting(PcOf(s, c))
  }

  /** A command has dialed and holds the lock, about to record its session. */
  predicate CommandConnecting(s: State) {
    s.lock.Some? && s.lock.value.Explicit? && PcOf(s, s.lock.value).Dialed? && PcOf(s, s.lock.value).link.Some?
  }

  /** The step by which a command's connect succeeds. */
  predicate IsCommandConnect(s: State, step: Step) {
    step.Record? && step.c.Explicit? && PcOf(s, step.c).Dialed? && PcOf(s, step.c).link.Some?
  }

  /** No command's connect succeeds along the run. */
  ghost predicate NoExplicitConnect(s: State, steps: seq<Step>)
    decreases |steps|
  {
    steps == [] || (!IsCommandConnect(s, steps[0]) && NoExplicitConnect(Next(s, steps[0]), steps[1..]))
  }

  lemma QuietStep(s: State, step: Step)
    requires s.fields.kicked && Quiet(s) && !IsCommandConnect(s, step)
    ensures Next(s, step).fields.kicked && Quiet(Next(s, step))
  {
  }

  lemma ConnectingStep(s: State, step: Step)
    requires Inv(s) && s.fields.kicked && CommandConnecting(s) && !IsCommandConnect(s, step)
    ensures Next(s, step).fields.kicked && CommandConnecting(Next(s, step))
  {
    assert step.Record? && step.c != s.lock.value ==> !Holds(PcOf(s, step.c));
  }

  lemma NoneDials(s: State)
    requires Inv(s) && (Quiet(s) || CommandConnecting(s))
    ensures forall c: Caller :: !c.Explicit? ==> !PcOf(s, c).Dialing?
  {
    forall c: Caller | !c.Explicit?
      ensures !PcOf(s, c).Dialing?
    {
      assert PcOf(s, c).Dialing? ==> Holds(PcOf(s, c));
    }
  }

  /**
   * Once a kick is recorded, with no background attempt already past its check, nothing but a
   * command's connect takes the session back, or even dials, over every run.
   */
  lemma {:induction false} KickHolds(s: State, steps: seq<Step>)
    requires Inv(s) && s.fields.kicked && (Quiet(s) || CommandConnecting(s)) && NoExplicitConnect(s, steps)
    ensures Run(s, steps).fields.kicked
    ensures forall c: Caller :: !c.Explicit? ==> !PcOf(Run(s, steps), c).Dialing?
    decreases |steps|
  {
    hide Next, Quiet, PcOf, Inv, CommandConnecting;
    if steps == [] {
      NoneDials(s);
    } else {
      if Quiet(s) {
        QuietStep(s, steps[0]);
      } else {
        ConnectingStep(s, steps[0]);
      }
      NextKeepsInv(s, steps[0]);
      KickHolds(Next(s, steps[0]), steps[1..]);
    }
  }

  /** One more step of a schedule in which no command connects. */
  lemma Go(s0: State, steps: seq<Step>, s: State, step: Step) returns (steps': seq<Step>, s': State)
    requires s == Run(s0, steps) && NoExplicitConnect(s0, steps) && !IsCommandConnect(s, step)
    ensures s' == Next(s, step) == Run(s0, steps') && NoExplicitConnect(s0, steps')
  {
    steps', s' := steps + [step], Next(s, step);
    RunSnoc(s0, steps, step);
    NoConnectSnoc(s0, steps, step);
  }

  lemma {:induction false} NoConnectSnoc(s: State, steps: seq<Step>, step: Step)
    requires NoExplicitConnect(s, steps) && !IsCommandConnect(Run(s, steps), step)
    ensures NoExplicitConnect(s, steps + [step])
    decreases |steps|
  {
    hide Next, IsCommandConnect;
    if steps == [] {
      assert [step][1..] == [] && [] + [step] == [step];
      assert NoExplicitConnect(Next(s, step), []);
    } else {
      assert (steps + [step])[1..] == steps[1..] + [step] && (steps + [step])[0] == steps[0];
      NoConnectSnoc(Next(s, steps[0]), steps[1..], step);
    }
  }

  /** Whoever holds the dialing lock fails and lets go, or takes the session back itself. */
  lemma LetGo(s: State, c: Caller) returns (steps: seq<Step>, t: State)
    requires LockOk(s) && s.fields.kicked && s.fields.link == None && s.lock != Some(c) && !CommandConnecting(s)
    ensures t == Run(s, steps) && NoExplicitConnect(s, steps)
    ensures t.fields.kicked ==> t.lock == None && t.fields.link == None && PcOf(t, c) == PcOf(s, c)
  {
    hide Run, NoExplicitConnect;
    steps, t := NoSteps(s);
    if s.lock.Some? {
      var d := s.lock.value;
      if PcOf(t, d).Holding? {
        steps, t := Go(s, steps, t, LookAgain(d));
      }
      if PcOf(t, d).Dialing? {
        steps, t := Go(s, steps, t, DialFails(d));
      }
      steps, t := Go(s, steps, t, Record(d));
    }
  }

  lemma NoSteps(s: State) returns (steps: seq<Step>, t: State)
    ensures steps == [] && t == s == Run(s, steps) && NoExplicitConnect(s, steps)
  {
    steps, t := [], s;
  }

  ghost predicate Schedule(s: State, steps: seq<Step>, t: State) {
    t == Run(s, steps) && NoExplicitConnect(s, steps)
  }

  lemma GetsLock(s: State, c: Caller, steps0: seq<Step>, s1: State) returns (steps: seq<Step>, t: State)
    requires !NotInsisting(PcOf(s1, c)) && s1.fields.link == None && Schedule(s, steps0, s1)
    requires PcOf(s1, c).Fast? || PcOf(s1, c).Queued? ==> s1.lock == None
    ensures Schedule(s, steps, t) && t.fields == s1.fields && t.lock == (if Holds(PcOf(s1, c)) then s1.lock else Some(c))
    ensures PcOf(t, c) == if Holds(PcOf(s1, c)) then PcOf(s1, c) else Holding
  {
    hide Run, NoExplicitConnect;
    t, steps := s1, steps0;
    if PcOf(t, c).Fast? {
      steps, t := Go(s, steps, t, Look(c));
    }
    if PcOf(t, c).Queued? {
      steps, t := Go(s, steps, t, Lock(c));
    }
  }

  lemma DialsAndRecords(s: State, c: Caller, steps0: seq<Step>, s1: State) returns (steps: seq<Step>, t: State)
    requires !c.Explicit? && Holds(PcOf(s1, c)) && PcOf(s1, c) != Dialed(None)
    requires s1.fields.link == None && Schedule(s, steps0, s1)
    ensures Schedule(s, steps, t) && !t.fields.kicked
  {
    hide Run, NoExplicitConnect;
    t, steps := s1, steps0;
    if PcOf(t, c).Holding? {
      steps, t := Go(s, steps, t, LookAgain(c));
    }
    if PcOf(t, c).Dialing? {
      steps, t := Go(s, steps, t, DialOk(c));
    }
    steps, t := Go(s, steps, t, Record(c));
  }

  /**
   * The check and the dial are not one step, and that condition is exact: in any other state a
   * background attempt already past its check can still dial, take the session back and clear
   * the mark, with no command asking for it.
   */
  lemma KickHoldsExactly(s: State)
    requires Inv(s) && s.fields.kicked
    ensures (forall steps :: NoExplicitConnect(s, steps) ==> Run(s, steps).fields.kicked)
      <==> Quiet(s) || CommandConnecting(s)
  {
    hide Run, NoExplicitConnect;
    if Quiet(s) || CommandConnecting(s) {
      forall steps | NoExplicitConnect(s, steps)
        ensures Run(s, steps).fields.kicked
      {
        KickHolds(s, steps);
      }
    } else {
      var steps := TakenBack(s);
      assert NoExplicitConnect(s, steps) && !Run(s, steps).fields.kicked;
    }
  }

  lemma TakenBack(s: State) returns (steps: seq<Step>)
    requires Inv(s) && s.fields.kicked && !Quiet(s) && !CommandConnecting(s)
    ensures NoExplicitConnect(s, steps) && !Run(s, steps).fields.kicked
  {
    hide Run, NoExplicitConnect, Next;
    var c: Caller :| !c.Explicit? && !NotInsisting(PcOf(s, c));
    var t: State;
    if s.lock == Some(c) {
      steps, t := NoSteps(s);
      assert Holds(PcOf(s, c));
    } else {
      steps, t := LetGo(s, c);
    }
    if t.fields.kicked {
      steps, t := GetsLock(s, c, steps, t);
      steps, t := DialsAndRecords(s, c, steps, t);
    }
  }

  lemma FirstConnect() returns (steps: seq<Step>, s: State)
    ensures s == Run(Init, steps)
    ensures s == Init.(fields := Fields(Some(0), false, 0, 0), sessions := map[0 := Status(false, false)],
                       dialed := 1, watched := {0}, pcs := s.pcs) && PcOf(s, Background) == Idle
  {
    var c := Explicit(0);
    steps, s := [], Init;
    steps, s := Extend(steps, s, Begin(c));
    steps, s := Extend(steps, s, Look(c));
    steps, s := Extend(steps, s, Lock(c));
    steps, s := Extend(steps, s, LookAgain(c));
    steps, s := Extend(steps, s, DialOk(c));
    steps, s := Extend(steps, s, Record(c));
  }

  /** Such a state is reached: the attempt asks between the session's death and its watcher. */
  lemma InFlightHappens() returns (steps: seq<Step>)
    ensures var s := Run(Init, steps);
      Inv(s) && s.fields.kicked && PcOf(s, Background) == Fast && !Quiet(s) && !CommandConnecting(s)
  {
    hide Inv, Run;
    var s;
    steps, s := FirstConnect();
    steps, s := Extend(steps, s, KickArrives(0));
    steps, s := Extend(steps, s, Dies(0));
    steps, s := AskTooEarly(steps, s);
    InitOk();
    RunKeepsInv(Init, steps);
  }

  lemma InitOk()
    ensures Inv(Init)
  {
  }

  lemma AskTooEarly(steps0: seq<Step>, s0: State) returns (steps: seq<Step>, s: State)
    requires s0 == Run(Init, steps0) && PcOf(s0, Background) == Idle && s0.lock == None
    requires s0.fields == Fields(Some(0), false, 0, 0) && s0.watched == {0}
    requires s0.sessions == map[0 := Status(true, true)]
    ensures s == Run(Init, steps) && s.fields.kicked && PcOf(s, Background) == Fast && s.lock == None
  {
    hide Run;
    steps, s := Extend(steps0, s0, Begin(Background));
    steps, s := Extend(steps, s, Ask(Background));
    steps, s := Extend(steps, s, WatchRuns(0));
  }

  /** One more step of a run. */
  lemma Extend(steps: seq<Step>, s: State, step: Step) returns (steps': seq<Step>, s': State)
    requires s == Run(Init, steps)
    ensures steps' == steps + [step] && s' == Next(s, step) && s' == Run(Init, steps')
  {
    steps', s' := steps + [step], Next(s, step);
    RunSnoc(Init, steps, step);
  }

  lemma {:induction false} RunSnoc(s: State, steps: seq<Step>, step: Step)
    ensures Run(s, steps + [step]) == Next(Run(s, steps), step)
    decreases |steps|
  {
    hide Next;
    if steps == [] {
      assert [step][1..] == [] && [] + [step] == [step];
      assert Run(s, [step]) == Run(Next(s, step), []);
    } else {
      assert (steps + [step])[1..] == steps[1..] + [step];
      RunSnoc(Next(s, steps[0]), steps[1..], step);
    }
  }

  /** A session is watched to its end once. */
  lemma WatchedOnce(s: State, l: nat)
    requires l in s.watched && l in s.sessions && s.sessions[l].done
    ensures l !in Next(s, WatchRuns(l)).watched && Next(s, WatchRuns(l)).fields.link != Some(l)
  {
  }

  // -- backoff --------------------------------------------------------------------------

  /**
   * In every reachable state, the n-th background failure in a row asks for a pause of
   * min(2^(n-1), 30) seconds.
   */
  lemma BackoffGrows(steps: seq<Step>)
    ensures var s := Run(Init, steps);
      PcOf(s, Background) == BackingOff ==>
        && Next(s, BackOff).fails == s.fails + 1
        && Next(s, BackOff).fields.nextTry == s.now + BackoffAfter(s.fails + 1)
  {
    RunKeepsInv(Init, steps);
    var s := Run(Init, steps);
    NextKeepsBackoff(s, BackOff);
    hide Run;
  }

  /** No background attempt has got past its check. */
  predicate AtRest(s: State) { PcOf(s, Background).Idle? || PcOf(s, Background).Asking? }

  /** The watcher of the owner's session does not run along the way, and time stays before `until`. */
  ghost predicate Undisturbed(s: State, steps: seq<Step>, until: nat)
    decreases |steps|
  {
    s.now < until
    && (steps == []
        || (!(steps[0].WatchRuns? && s.fields.link == Some(steps[0].l))
            && Undisturbed(Next(s, steps[0]), steps[1..], until)))
  }

  /**
   * The pause is kept while the owner's session is not seen to end: until it is over, no background
   * attempt gets past its check, whoever connects meanwhile.
   */
  lemma {:induction false} BackoffHolds(s: State, steps: seq<Step>, until: nat)
    requires s.fields.nextTry >= until && AtRest(s) && Undisturbed(s, steps, until)
    ensures AtRest(Run(s, steps)) && Run(s, steps).fields.nextTry >= until
    decreases |steps|
  {
    if steps != [] {
      BackoffHolds(Next(s, steps[0]), steps[1..], until);
    }
  }

  /** The step by which anybody's connect succeeds. */
  predicate IsConnect(s: State, step: Step) {
    step.Record? && PcOf(s, step.c).Dialed? && PcOf(s, step.c).link.Some?
  }

  /** Nobody's connect succeeds along the run, and time stays before `until`. */
  ghost predicate Waiting(s: State, steps: seq<Step>, until: nat)
    decreases |steps|
  {
    s.now < until
    && (steps == [] || (!IsConnect(s, steps[0]) && Waiting(Next(s, steps[0]), steps[1..], until)))
  }

  /** No watcher can still cut the pause that lasts `until`: none is left, or what it sets is no earlier. */
  predicate PauseIsSafe(s: State, until: nat) {
    || s.fields.kicked || s.fields.link == None || until <= s.now + DROP_DELAY
    || (s.fields.link.value in s.sessions && s.sessions[s.fields.link.value].kicked)
  }

  lemma PauseStep(s: State, step: Step, until: nat)
    requires Inv(s) && AtRest(s) && PauseIsSafe(s, until) && (s.fields.kicked || s.fields.nextTry >= until)
    requires s.now < until && !IsConnect(s, step)
    ensures var s' := Next(s, step);
      AtRest(s') && PauseIsSafe(s', until) && (s'.fields.kicked || s'.fields.nextTry >= until)
  {
    hide LockOk, DialingOk, OthersDone, BackoffOk;
  }

  lemma {:induction false} PauseHolds(s: State, steps: seq<Step>, until: nat)
    requires Inv(s) && AtRest(s) && PauseIsSafe(s, until) && (s.fields.kicked || s.fields.nextTry >= until)
    requires Waiting(s, steps, until)
    ensures AtRest(Run(s, steps))
    decreases |steps|
  {
    hide Next, Inv, IsConnect, PauseIsSafe;
    if steps != [] {
      PauseStep(s, steps[0], until);
      NextKeepsInv(s, steps[0]);
      PauseHolds(Next(s, steps[0]), steps[1..], until);
    }
  }

  /**
   * The pause before the next background attempt is kept over every run in which nobody connects
   * exactly when no watcher can cut it: a kick is recorded, or there is no session, or the session
   * was kicked, or a drop noticed now would ask for no shorter pause. Otherwise the watcher of a
   * session that ended before the failures puts its own second in the pause's place.
   */
  lemma BackoffHoldsExactly(s: State, until: nat)
    requires Inv(s) && AtRest(s) && s.fields.nextTry >= until
    ensures (forall steps :: Waiting(s, steps, until) ==> AtRest(Run(s, steps)))
       <==> s.fields.kicked || s.fields.link == None || until <= s.now + DROP_DELAY
            || s.sessions[s.fields.link.value].kicked
  {
    hide Run, Waiting;
    if PauseIsSafe(s, until) {
      forall steps | Waiting(s, steps, until)
        ensures AtRest(Run(s, steps))
      {
        PauseHolds(s, steps, until);
      }
    } else {
      var steps := RetriedEarly(s, until);
      assert Waiting(s, steps, until) && !AtRest(Run(s, steps));
    }
  }

  /** The session ends if it has not, its watcher runs, and a second later the next attempt starts. */
  lemma RetriedEarly(s: State, until: nat) returns (steps: seq<Step>)
    requires Inv(s) && AtRest(s) && !PauseIsSafe(s, until)
    ensures Waiting(s, steps, until) && !AtRest(Run(s, steps))
  {
    hide Run, Waiting, Inv;
    var t;
    steps, t := DropNoticed(s, until);
    steps, t := WaitMore(s, steps, t, Elapse(DROP_DELAY), until);
    if PcOf(t, Background).Idle? {
      steps, t := WaitMore(s, steps, t, Begin(Background), until);
    }
    steps, t := WaitMore(s, steps, t, Ask(Background), until);
  }

  lemma DropNoticed(s: State, until: nat) returns (steps: seq<Step>, t: State)
    requires Inv(s) && !PauseIsSafe(s, until)
    ensures t == Run(s, steps) && Waiting(s, steps, until)
    ensures t.fields == s.fields.(link := None, nextTry := s.now + DROP_DELAY) && t.now == s.now && t.pcs == s.pcs
    ensures !t.fields.kicked && t.now + DROP_DELAY < until
  {
    hide Run, Waiting, LockOk, DialingOk, OthersDone, BackoffOk;
    var l := s.fields.link.value;
    steps, t := WaitNone(s, until);
    if Alive(t, l) {
      steps, t := WaitMore(s, steps, t, Dies(l), until);
    }
    steps, t := WaitMore(s, steps, t, WatchRuns(l), until);
  }

  lemma WaitNone(s: State, until: nat) returns (steps: seq<Step>, t: State)
    requires s.now < until
    ensures steps == [] && t == s == Run(s, steps) && Waiting(s, steps, until)
  {
    steps, t := [], s;
  }

  lemma WaitMore(s0: State, steps: seq<Step>, s: State, step: Step, until: nat) returns (steps': seq<Step>, s': State)
    requires s == Run(s0, steps) && Waiting(s0, steps, until)
    requires !IsConnect(s, step) && Next(s, step).now < until
    ensures s' == Next(s, step) == Run(s0, steps') && Waiting(s0, steps', until)
  {
    steps', s' := steps + [step], Next(s, step);
    RunSnoc(s0, steps, step);
    WaitingSnoc(s0, steps, step, until);
  }

  lemma {:induction false} WaitingSnoc(s: State, steps: seq<Step>, step: Step, until: nat)
    requires Waiting(s, steps, until)
    requires !IsConnect(Run(s, steps), step) && Next(Run(s, steps), step).now < until
    ensures Waiting(s, steps + [step], until)
    decreases |steps|
  {
    hide Next, IsConnect;
    if steps == [] {
      assert [step][1..] == [] && [] + [step] == [step];
      assert Waiting(Next(s, step), [], until);
    } else {
      assert (steps + [step])[1..] == steps[1..] + [step] && (steps + [step])[0] == steps[0];
      WaitingSnoc(Next(s, steps[0]), steps[1..], step, until);
    }
  }

  /**
   * Such a pause is reached: the session has ended, two attempts have failed, and its watcher,
   * which has not run, would shorten the pause of two seconds to one.
   */
  lemma EarlyRetryHappens() returns (steps: seq<Step>)
    ensures var s := Run(Init, steps);
      Inv(s) && AtRest(s) && s.fails == 2 && s.fields.nextTry == s.now + 2 && !PauseIsSafe(s, s.fields.nextTry)
  {
    hide Inv, Run;
    var s;
    steps, s := FirstConnect();
    steps, s := Extend(steps, s, Dies(0));
    steps, s := AttemptFails(steps, s);
    steps, s := Extend(steps, s, Elapse(1));
    steps, s := AttemptFails(steps, s);
    InitOk();
    RunKeepsInv(Init, steps);
  }

  lemma AttemptStarts(steps0: seq<Step>, s0: State) returns (steps: seq<Step>, s: State)
    requires s0 == Run(Init, steps0) && PcOf(s0, Background) == Idle && !Live(s0) && !SkipsTick(s0.fields, s0.now)
    ensures s == Run(Init, steps) && PcOf(s, Background) == Queued && s == s0.(pcs := s.pcs)
  {
    hide Run;
    steps, s := Extend(steps0, s0, Begin(Background));
    steps, s := Extend(steps, s, Ask(Background));
    steps, s := Extend(steps, s, Look(Background));
  }

  lemma AttemptFails(steps0: seq<Step>, s0: State) returns (steps: seq<Step>, s: State)
    requires s0 == Run(Init, steps0) && PcOf(s0, Background) == Idle && s0.lock == None
    requires !Live(s0) && !SkipsTick(s0.fields, s0.now)
    ensures s == Run(Init, steps) && PcOf(s, Background) == Idle
    ensures s == s0.(fields := Failed(s0.fields, s0.now), fails := s0.fails + 1, pcs := s.pcs)
  {
    hide Run;
    var c := Background;
    steps, s := AttemptStarts(steps0, s0);
    steps, s := Extend(steps, s, Lock(c));
    steps, s := Extend(steps, s, LookAgain(c));
    steps, s := Extend(steps, s, DialFails(c));
    steps, s := Extend(steps, s, Record(c));
    steps, s := Extend(steps, s, BackOff);
  }
}
