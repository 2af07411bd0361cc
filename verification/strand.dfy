/**
  The interaction protocol of Strand.h and strand.c between two endpoints, as a machine whose steps
  are the calls and method executions of either side.  A call into the peer sets a bit in the
  peer's `stateScheduled`; the peer's loop runs the method of the lowest bit set and clears the
  bit only when the method has returned.
 */
module StrandProtocol {
  /** The methods of a strand with one interaction that touch the protocol, in the order of their bits. */
  datatype Method = CompleteOpen | PostControl | Post | PostOther | Ack | AckOther | Close | CloseOther {
    function Rank(): nat {
      match this
      case CompleteOpen => 0 case PostControl => 1 case Post => 2 case PostOther => 3
      case Ack => 4 case AckOther => 5 case Close => 6 case CloseOther => 7
    }
  }

  /** What the strand is executing: nothing, a scheduled method, or a timer, auxiliary or cancel method. */
  datatype Running = Idle | Running(m: Method) | Auxiliary

  datatype Slot = Empty | Holding(msg: nat)

  /** One side: the flags of its `InteractionInfo`, its scheduled methods, and its message slots. */
  datatype End = End(
    isOpen: bool,
    thisClosedOther: bool,
    thisAckPending: bool,
    otherClosedThis: bool,
    otherAckPending: bool,
    scheduled: set<Method>,
    running: Running,
    stored: Slot,
    control: Slot,
    otherMsg: Slot,
    finished: bool)

  datatype Side = Left | Right {
    function Other(): Side { if this == Left then Right else Left }
  }

  datatype Pair = Pair(left: End, right: End) {
    function At(i: Side): End { if i == Left then left else right }
    function With(i: Side, e: End): Pair {
      if i == Left then this.(left := e) else this.(right := e)
    }
  }

  datatype Opening = Direct(withMessage: bool) | Async

  /**
    The right side has accepted the interaction.  The left side opened it, with or without an
    initial message, which counts as a Post already delivered (`_Strand_StartOpenImp`,
    `Strand_AcceptOpen`); or it has yet to complete the opening (`Strand_AcceptOpenAsync`).
   */
  function Opened(how: Opening): Pair {
    var e := End(true, false, false, false, false, {}, Idle, Empty, Empty, Empty, false);
    match how
    case Direct(withMessage) => Pair(e.(thisAckPending := withMessage), e.(otherAckPending := withMessage))
    case Async => Pair(e.(isOpen := false, scheduled := {CompleteOpen}), e)
  }

  datatype Action =
    | SendPost(msg: nat)
    | SendControl(msg: nat)
    | SendAck
    | SendClose
    | SchedulePost(msg: nat)
    | ScheduleAck
    | ScheduleClose
    | Begin(m: Method) // the loop picks the method of the lowest bit, which is `m`, and starts it
    | BeginAuxiliary   // a timer, auxiliary or cancel method starts
    | Return           // the running method returns and its bit is cleared
    | Finish

  /** The method of the lowest bit set. */
  function First(s: set<Method>): (m: Method)
    requires s != {}
    ensures m in s && forall k <- s :: m.Rank() <= k.Rank()
  {
    assert forall k <- s ::
      || k.CompleteOpen? || k.PostControl? || k.Post? || k.PostOther?
      || k.Ack? || k.AckOther? || k.Close? || k.CloseOther?;
    if CompleteOpen in s then CompleteOpen
    else if PostControl in s then PostControl
    else if Post in s then Post
    else if PostOther in s then PostOther
    else if Ack in s then Ack
    else if AckOther in s then AckOther
    else if Close in s then Close
    else CloseOther
  }

  /** Calls into the peer, common to a direct call and the execution of its scheduled form. */
  function Posted(p: Pair, i: Side, msg: nat): Pair {
    var j := i.Other();
    p.With(i, p.At(i).(thisAckPending := true))
     .With(j, p.At(j).(stored := Holding(msg), scheduled := p.At(j).scheduled + {Post}))
  }

  function Controlled(p: Pair, i: Side, msg: nat): Pair {
    var j := i.Other();
    p.With(j, p.At(j).(control := Holding(msg), scheduled := p.At(j).scheduled + {PostControl}))
  }

  function Acked(p: Pair, i: Side): Pair {
    var j := i.Other();
    p.With(i, p.At(i).(otherAckPending := false, isOpen := true))
     .With(j, p.At(j).(scheduled := p.At(j).scheduled + {Ack}))
  }

  function Closed(p: Pair, i: Side): Pair {
    var j := i.Other();
    p.With(i, p.At(i).(thisClosedOther := true)).With(j, p.At(j).(scheduled := p.At(j).scheduled + {Close}))
  }

  /** Start the scheduled method `m`: its effect on the flags. */
  function Started(p: Pair, i: Side, m: Method): Pair {
    var e := p.At(i).(running := Running(m));
    match m
    case CompleteOpen => p.With(i, e.(isOpen := true))
    case PostControl => p.With(i, e)
    case Post => p.With(i, e.(otherAckPending := true))
    case Ack => p.With(i, e.(thisAckPending := false))
    case Close => p.With(i, e.(otherClosedThis := true))
    case PostOther => Posted(p.With(i, e), i, if e.otherMsg.Holding? then e.otherMsg.msg else 0)
    case AckOther => Acked(p.With(i, e), i)
    case CloseOther => Closed(p.With(i, e), i)
  }

  /** The running method returns: its bit is cleared and the message it was given is released. */
  function Returned(p: Pair, i: Side): Pair {
    var e := p.At(i);
    if !e.running.Running? then p.With(i, e.(running := Idle))
    else
      var e' := e.(running := Idle, scheduled := e.scheduled - {e.running.m});
      match e.running.m
      case Post => p.With(i, e'.(stored := Empty))
      case PostControl => p.With(i, e'.(control := Empty))
      case PostOther => p.With(i, e'.(otherMsg := Empty))
      case _ => p.With(i, e')
  }

  /** `_StrandMethodImp_CheckFinished`. */
  predicate CheckFinished(e: End) {
    e.thisClosedOther && !e.thisAckPending && e.otherClosedThis && !e.otherAckPending
  }

  function Step(p: Pair, i: Side, a: Action): Pair {
    var e := p.At(i);
    match a
    case SendPost(msg) => Posted(p, i, msg)
    case SendControl(msg) => Controlled(p, i, msg)
    case SendAck => Acked(p, i)
    case SendClose => Closed(p, i)
    case SchedulePost(msg) => p.With(i, e.(otherMsg := Holding(msg), scheduled := e.scheduled + {PostOther}))
    case ScheduleAck => p.With(i, e.(scheduled := e.scheduled + {AckOther}))
    case ScheduleClose => p.With(i, e.(scheduled := e.scheduled + {CloseOther}))
    case Begin(m) => Started(p, i, m)
    case BeginAuxiliary => p.With(i, e.(running := Auxiliary))
    case Return => Returned(p, i)
    case Finish => p.With(i, e.(finished := true))
  }

  /**
    The assertions on the caller's side: `_Strand_Post_CommonImp`, `_Strand_Ack_Imp`, `_Strand_Close_Imp`;
    STRAND_VERIFYPROPERLYOPENED is below.
   */
  predicate MayPost(e: End) { !e.thisClosedOther && !e.thisAckPending }
  predicate MayAck(e: End) { e.otherAckPending }
  predicate MayClose(e: End) { !e.thisClosedOther }

  /** What the callers of the protocol owe: the assertions above, on the strand where they must be. */
  predicate Enabled(p: Pair, i: Side, a: Action) {
    var e := p.At(i);
    && !e.finished
    && match a
       case SendPost(_) => e.running != Idle && e.isOpen && MayPost(e)
       case SendControl(_) => e.running != Idle && e.isOpen && !e.thisClosedOther
       case SendAck => e.running != Idle && MayAck(e)
       case SendClose => e.running != Idle && e.isOpen && MayClose(e)
       case SchedulePost(_) => PostOther !in e.scheduled
       case ScheduleAck => AckOther !in e.scheduled
       case ScheduleClose => CloseOther !in e.scheduled
       case Begin(m) =>
         && e.running == Idle && e.scheduled != {} && m == First(e.scheduled)
         && (match m
             case PostOther => MayPost(e) && e.otherMsg.Holding?
             case AckOther => MayAck(e)
             case CloseOther => MayClose(e)
             case _ => true)
       case BeginAuxiliary => e.running == Idle
       case Return => e.running != Idle
       case Finish => e.running == Idle && e.scheduled == {} && CheckFinished(e)
  }

  /**
    The discipline the comments of multiplex.c and strand.c ask for: an Ack is not sent from inside
    a Post, nor a Post from inside an Ack; the scheduled forms serve there.
   */
  predicate Disciplined(p: Pair, i: Side, a: Action) {
    && (a.SendAck? ==> p.At(i).running != Running(Post))
    && (a.SendPost? ==> p.At(i).running != Running(Ack))
  }

  // ---------------------------------------------------------------------------------------
  // The invariant
  // ---------------------------------------------------------------------------------------

  /** Method `m` is scheduled at `e` and has not been started. */
  predicate Waiting(e: End, m: Method) {
    m in e.scheduled && e.running != Running(m)
  }

  /** The three places the one outstanding Post from `e` to `o` can be. */
  predicate Undelivered(o: End) { Waiting(o, Post) }
  predicate Awaited(o: End) { o.otherAckPending }
  predicate AckOnTheWay(e: End) { Waiting(e, Ack) }

  predicate ExactlyOne(a: bool, b: bool, c: bool) {
    (a && !b && !c) || (!a && b && !c) || (!a && !b && c)
  }

  /** Flow control from `e` to `o`. */
  predicate FlowOk(e: End, o: End) {
    && (e.thisAckPending ==> ExactlyOne(Undelivered(o), Awaited(o), AckOnTheWay(e)))
    && (!e.thisAckPending ==> !Undelivered(o) && !Awaited(o) && !AckOnTheWay(e))
    && (o.running == Running(Post) ==> o.otherAckPending)
    && (e.running == Running(Ack) ==> !e.thisAckPending)
    && (o.stored.Holding? <==> Post in o.scheduled)
  }

  /** Closing from `e` to `o`. */
  predicate CloseOk(e: End, o: End) {
    && (e.thisClosedOther <==> Waiting(o, Close) || o.otherClosedThis)
    && !(Waiting(o, Close) && o.otherClosedThis)
    && (o.running == Running(Close) ==> o.otherClosedThis)
    && (o.otherClosedThis ==> !Waiting(o, Post) && !Waiting(o, PostControl))
    && (o.control.Holding? <==> PostControl in o.scheduled)
  }

  predicate LocalOk(e: End) {
    && (e.running.Running? ==> e.running.m in e.scheduled)
    && (e.otherMsg.Holding? <==> PostOther in e.scheduled)
    && (e.isOpen <==> !Waiting(e, CompleteOpen))
    && (e.otherAckPending || e.running.Running? ==> e.isOpen)
    && (e.finished ==> CheckFinished(e) && e.running == Idle && e.scheduled == {})
  }

  /** The invariant between a side and its peer; it does not matter which is which. */
  predicate EndsOk(e: End, o: End) {
    FlowOk(e, o) && FlowOk(o, e) && CloseOk(e, o) && CloseOk(o, e) && LocalOk(e) && LocalOk(o)
  }

  predicate Inv(p: Pair) {
    EndsOk(p.left, p.right)
  }

  lemma {:induction false} PostKeeps(e: End, o: End, msg: nat)
    requires EndsOk(e, o) && MayPost(e) && e.running != Running(Ack) && !e.finished
    ensures Post !in o.scheduled && o.stored == Empty && !o.finished
    ensures EndsOk(e.(thisAckPending := true), o.(stored := Holding(msg), scheduled := o.scheduled + {Post}))
  {
  }

  lemma {:induction false} ControlKeeps(e: End, o: End, msg: nat)
    requires EndsOk(e, o) && !e.thisClosedOther && !e.finished
    ensures !o.finished
    ensures EndsOk(e, o.(control := Holding(msg), scheduled := o.scheduled + {PostControl}))
  {
  }

  lemma {:induction false} AckKeeps(e: End, o: End)
    requires EndsOk(e, o) && MayAck(e) && e.running != Running(Post) && !e.finished
    ensures Ack !in o.scheduled && !o.finished
    ensures EndsOk(e.(otherAckPending := false, isOpen := true), o.(scheduled := o.scheduled + {Ack}))
  {
  }

  lemma {:induction false} CloseKeeps(e: End, o: End)
    requires EndsOk(e, o) && MayClose(e) && !e.finished
    ensures Close !in o.scheduled && !o.finished
    ensures EndsOk(e.(thisClosedOther := true), o.(scheduled := o.scheduled + {Close}))
  {
  }

  lemma {:induction false} SchedulePostKeeps(e: End, o: End, msg: nat)
    requires EndsOk(e, o) && !e.finished
    ensures EndsOk(e.(otherMsg := Holding(msg), scheduled := e.scheduled + {PostOther}), o)
  {
  }

  lemma {:induction false} ScheduleKeeps(e: End, o: End, m: Method)
    requires EndsOk(e, o) && !e.finished && (m.AckOther? || m.CloseOther?)
    ensures EndsOk(e.(scheduled := e.scheduled + {m}), o)
  {
  }

  /** A method whose start touches no flag. */
  lemma {:induction false} RunKeeps(e: End, o: End, m: Method)
    requires EndsOk(e, o) && !e.finished && e.running == Idle && m in e.scheduled
    requires m.PostControl? || m.PostOther? || m.AckOther? || m.CloseOther?
    requires CompleteOpen !in e.scheduled
    ensures e.isOpen
    ensures EndsOk(e.(running := Running(m)), o) && EndsOk(e.(running := Auxiliary), o)
  {
  }

  lemma {:induction false} OpenKeeps(e: End, o: End)
    requires EndsOk(e, o) && !e.finished && e.running == Idle && CompleteOpen in e.scheduled
    ensures !e.isOpen && EndsOk(e.(running := Running(CompleteOpen), isOpen := true), o)
  {
  }

  /** Delivery: what the peer sent takes effect, and the receiver's own assertions hold. */
  lemma {:induction false} DeliverPost(e: End, o: End)
    requires EndsOk(e, o) && !e.finished && e.running == Idle && Post in e.scheduled
    requires CompleteOpen !in e.scheduled
    ensures e.isOpen && !e.otherClosedThis && !e.otherAckPending && e.stored.Holding?
    ensures EndsOk(e.(running := Running(Post), otherAckPending := true), o)
  {
  }

  lemma {:induction false} DeliverAck(e: End, o: End)
    requires EndsOk(e, o) && !e.finished && e.running == Idle && Ack in e.scheduled
    requires CompleteOpen !in e.scheduled
    ensures e.isOpen && e.thisAckPending
    ensures EndsOk(e.(running := Running(Ack), thisAckPending := false), o)
  {
  }

  lemma {:induction false} DeliverClose(e: End, o: End)
    requires EndsOk(e, o) && !e.finished && e.running == Idle && Close in e.scheduled
    requires Post !in e.scheduled && PostControl !in e.scheduled && CompleteOpen !in e.scheduled
    ensures e.isOpen && !e.otherClosedThis
    ensures EndsOk(e.(running := Running(Close), otherClosedThis := true), o)
  {
  }

  /** The running method returns, and its slot is emptied. */
  lemma {:induction false} ReturnKeeps(e: End, o: End, m: Method)
    requires EndsOk(e, o) && e.running == Running(m)
    ensures EndsOk(e.(stored := if m.Post? then Empty else e.stored,
                      control := if m.PostControl? then Empty else e.control,
                      otherMsg := if m.PostOther? then Empty else e.otherMsg,
                      running := Idle, scheduled := e.scheduled - {m}), o)
  {
    var e' := e.(stored := if m.Post? then Empty else e.stored,
                 control := if m.PostControl? then Empty else e.control,
                 otherMsg := if m.PostOther? then Empty else e.otherMsg,
                 running := Idle, scheduled := e.scheduled - {m});
    assert forall k: Method :: Waiting(e', k) <==> Waiting(e, k);
  }

  lemma {:induction false} FlowIsSymmetric(e: End, o: End)
    requires EndsOk(e, o)
    ensures EndsOk(o, e)
  {
  }

  lemma {:induction false} ReceiveKeeps(p: Pair, i: Side, m: Method)
    requires EndsOk(p.At(i), p.At(i.Other())) && Enabled(p, i, Begin(m))
    requires m.CompleteOpen? || m.PostControl? || m.Post? || m.Ack? || m.Close?
    ensures var p' := Started(p, i, m); EndsOk(p'.At(i), p'.At(i.Other()))
  {
    hide EndsOk;
    var e, o := p.At(i), p.At(i.Other());
    match m {
      case CompleteOpen => OpenKeeps(e, o);
      case PostControl => RunKeeps(e, o, m);
      case Post => DeliverPost(e, o);
      case Ack => DeliverAck(e, o);
      case Close => DeliverClose(e, o);
    }
  }

  lemma {:induction false} CallKeeps(p: Pair, i: Side, m: Method)
    requires EndsOk(p.At(i), p.At(i.Other())) && Enabled(p, i, Begin(m))
    requires m.PostOther? || m.AckOther? || m.CloseOther?
    ensures var p' := Started(p, i, m); EndsOk(p'.At(i), p'.At(i.Other()))
  {
    hide EndsOk;
    var e, o := p.At(i), p.At(i.Other());
    RunKeeps(e, o, m);
    var e' := e.(running := Running(m));
    match m {
      case PostOther => PostKeeps(e', o, e.otherMsg.msg);
      case AckOther => AckKeeps(e', o);
      case CloseOther => CloseKeeps(e', o);
    }
  }

  lemma {:induction false} StartKeeps(p: Pair, i: Side, m: Method)
    requires EndsOk(p.At(i), p.At(i.Other())) && Enabled(p, i, Begin(m))
    ensures var p' := Started(p, i, m); EndsOk(p'.At(i), p'.At(i.Other()))
  {
    hide EndsOk, Started, First;
    if m.PostOther? || m.AckOther? || m.CloseOther? {
      CallKeeps(p, i, m);
    } else {
      ReceiveKeeps(p, i, m);
    }
  }

  lemma {:induction false} IdleKeeps(e: End, o: End)
    requires EndsOk(e, o) && !e.finished
    ensures e.running == Idle ==> EndsOk(e.(running := Auxiliary), o)
    ensures e.running == Auxiliary ==> EndsOk(e.(running := Idle), o)
    ensures e.running == Idle && e.scheduled == {} && CheckFinished(e) ==> EndsOk(e.(finished := true), o)
  {
  }

  lemma {:induction false} StepKeepsEnds(p: Pair, i: Side, a: Action)
    requires EndsOk(p.At(i), p.At(i.Other())) && Enabled(p, i, a) && Disciplined(p, i, a)
    ensures var p' := Step(p, i, a); EndsOk(p'.At(i), p'.At(i.Other()))
  {
    hide EndsOk;
    var e, o := p.At(i), p.At(i.Other());
    match a {
      case SendPost(msg) => PostKeeps(e, o, msg);
      case SendControl(msg) => ControlKeeps(e, o, msg);
      case SendAck => AckKeeps(e, o);
      case SendClose => CloseKeeps(e, o);
      case SchedulePost(msg) => SchedulePostKeeps(e, o, msg);
      case ScheduleAck => ScheduleKeeps(e, o, AckOther);
      case ScheduleClose => ScheduleKeeps(e, o, CloseOther);
      case Begin(m) => StartKeeps(p, i, m);
      case BeginAuxiliary => IdleKeeps(e, o);
      case Return => if e.running.Running? { ReturnKeeps(e, o, e.running.m); } else { IdleKeeps(e, o); }
      case Finish => IdleKeeps(e, o);
    }
  }

  /** A permitted step keeps the invariant exactly when it obeys the discipline. */
  lemma {:induction false} StepKeepsInv(p: Pair, i: Side, a: Action)
    requires Inv(p) && Enabled(p, i, a)
    ensures Inv(Step(p, i, a)) <==> Disciplined(p, i, a)
  {
    hide EndsOk;
    if i == Right { FlowIsSymmetric(p.left, p.right); }
    if Disciplined(p, i, a) {
      StepKeepsEnds(p, i, a);
      if i == Right { FlowIsSymmetric(Step(p, i, a).right, Step(p, i, a).left); }
    } else {
      UndisciplinedBreaks(p, i, a);
    }
  }

  lemma {:induction false} UndisciplinedBreaks(p: Pair, i: Side, a: Action)
    requires Inv(p) && Enabled(p, i, a) && !Disciplined(p, i, a)
    ensures !Inv(Step(p, i, a))
  {
  }

  // ---------------------------------------------------------------------------------------
  // Runs
  // ---------------------------------------------------------------------------------------

  datatype Event = Event(side: Side, action: Action)

  /** Every step is permitted, and disciplined if `strict`. */
  ghost predicate IsRun(p: Pair, t: seq<Event>, strict: bool)
    decreases |t|
  {
    t != [] ==>
      && Enabled(p, t[0].side, t[0].action) && (strict ==> Disciplined(p, t[0].side, t[0].action))
      && IsRun(Step(p, t[0].side, t[0].action), t[1..], strict)
  }

  function Run(p: Pair, t: seq<Event>): Pair
    decreases |t|
  {
    if t == [] then p else Run(Step(p, t[0].side, t[0].action), t[1..])
  }

  lemma {:induction false} DirectIsOk(withMessage: bool)
    ensures Inv(Opened(Direct(withMessage)))
  {
  }

  lemma {:induction false} AsyncIsOk()
    ensures Inv(Opened(Async))
  {
    hide FlowOk, CloseOk, LocalOk;
    var p := Opened(Async);
    JustOpened(p.left, p.right);
    JustOpened(p.right, p.left);
  }

  lemma {:induction false} JustOpened(e: End, o: End)
    requires !e.thisClosedOther && !e.thisAckPending && !e.otherClosedThis && !e.otherAckPending && !e.finished
    requires !o.otherClosedThis && !o.otherAckPending && e.running == o.running == Idle
    requires e.stored == e.control == e.otherMsg == o.stored == o.control == Empty
    requires e.scheduled == (if e.isOpen then {} else {CompleteOpen})
    requires o.scheduled == (if o.isOpen then {} else {CompleteOpen})
    ensures FlowOk(e, o) && CloseOk(e, o) && LocalOk(e)
  {
  }

  lemma {:induction false} OpenedIsOk(how: Opening)
    ensures Inv(Opened(how))
  {
    hide Inv, Opened;
    match how
    case Direct(withMessage) => DirectIsOk(withMessage);
    case Async => AsyncIsOk();
  }

  lemma {:induction false} RunKeepsInv(p: Pair, t: seq<Event>)
    requires Inv(p) && IsRun(p, t, true)
    ensures Inv(Run(p, t))
    decreases |t|
  {
    if t != [] {
      StepKeepsInv(p, t[0].side, t[0].action);
      RunKeepsInv(Step(p, t[0].side, t[0].action), t[1..]);
    }
  }

  /**
    In every disciplined run: an ack is pending at a side exactly when one Post of its is
    undelivered, being handled by the peer, or acknowledged by an Ack it has not received; and a
    side that may post finds the peer's slot empty and its bit clear.  Control messages have no
    such flow control: one overwrites the one before exactly when that one is still scheduled.
   */
  lemma {:induction false} OnePostOutstanding(how: Opening, t: seq<Event>, i: Side)
    requires IsRun(Opened(how), t, true)
    ensures var p := Run(Opened(how), t);
            var e, o := p.At(i), p.At(i.Other());
            && (e.thisAckPending <==> Undelivered(o) || Awaited(o) || AckOnTheWay(e))
            && (e.thisAckPending ==> ExactlyOne(Undelivered(o), Awaited(o), AckOnTheWay(e)))
            && (MayPost(e) && e.running != Running(Ack) ==> o.stored == Empty && Post !in o.scheduled)
            && (MayAck(e) && e.running != Running(Post) ==> Ack !in o.scheduled)
            && (MayClose(e) ==> Close !in o.scheduled)
            && (o.control == Empty <==> PostControl !in o.scheduled)
  {
    OpenedIsOk(how);
    RunKeepsInv(Opened(how), t);
  }

  /** In every disciplined run, whatever method a side starts, the assertions at its head hold. */
  lemma {:induction false} ReceiverAssertionsHold(how: Opening, t: seq<Event>, i: Side, m: Method)
    requires IsRun(Opened(how), t, true)
    requires Enabled(Run(Opened(how), t), i, Begin(m))
    ensures var e := Run(Opened(how), t).At(i);
            match m
            case CompleteOpen => !e.isOpen
            case PostControl => e.isOpen && !e.otherClosedThis && e.control.Holding?
            case Post => e.isOpen && !e.otherClosedThis && !e.otherAckPending && e.stored.Holding?
            case Ack => e.isOpen && e.thisAckPending
            case Close => e.isOpen && !e.otherClosedThis
            case _ => true
  {
    OpenedIsOk(how);
    RunKeepsInv(Opened(how), t);
  }

  /** Both close flags are set and no ack is awaited. */
  predicate Done(e: End) {
    e.thisClosedOther && e.otherClosedThis && !e.thisAckPending
  }

  predicate NothingComing(e: End) {
    !Waiting(e, Post) && !Waiting(e, PostControl) && !Waiting(e, Ack) && !Waiting(e, Close)
  }

  lemma {:induction false} DoneStays(p: Pair, i: Side, k: Side, a: Action)
    requires Inv(p) && Done(p.At(i)) && Enabled(p, k, a) && Disciplined(p, k, a)
    ensures Done(Step(p, k, a).At(i)) && NothingComing(p.At(i))
    ensures k == i.Other() ==> !a.SendPost? && !a.SendControl? && !a.SendAck? && !a.SendClose?
  {
  }

  /**
    Finish is safe: once a side is done, no Post, PostControl, Ack or Close can reach it in any
    continuation, and none is waiting to be run.
   */
  lemma {:induction false} DoneIsFinal(p: Pair, i: Side, t: seq<Event>)
    requires Inv(p) && Done(p.At(i)) && IsRun(p, t, true)
    ensures Done(Run(p, t).At(i)) && NothingComing(Run(p, t).At(i))
    ensures p.At(i).finished ==> Run(p, t).At(i) == p.At(i)
    decreases |t|
  {
    if t != [] {
      var k, a := t[0].side, t[0].action;
      DoneStays(p, i, k, a);
      StepKeepsInv(p, k, a);
      if p.At(i).finished { FinishedIsUntouched(p, i, k, a); }
      DoneIsFinal(Step(p, k, a), i, t[1..]);
    }
  }

  lemma {:induction false} FinishedIsUntouched(p: Pair, i: Side, k: Side, a: Action)
    requires Inv(p) && Done(p.At(i)) && Enabled(p, k, a) && Disciplined(p, k, a) && p.At(i).finished
    ensures Step(p, k, a).At(i) == p.At(i)
  {
  }

  // ---------------------------------------------------------------------------------------
  // Why the discipline is needed
  // ---------------------------------------------------------------------------------------

  /** The peer is between methods with nothing scheduled and has not closed. */
  predicate AtRest(o: End) {
    o.running == Idle && o.scheduled == {} && !o.finished && !o.thisClosedOther
  }

  lemma {:induction false} FiveSteps(p: Pair, a: Event, b: Event, c: Event, d: Event, e: Event)
    ensures var p1 := Step(p, a.side, a.action);
            var p2 := Step(p1, b.side, b.action);
            var p3 := Step(p2, c.side, c.action);
            var p4 := Step(p3, d.side, d.action);
            && Run(p, [a, b, c, d, e]) == Step(p4, e.side, e.action)
            && (IsRun(p, [a, b, c, d, e], false) <==>
                  && Enabled(p, a.side, a.action) && Enabled(p1, b.side, b.action) && Enabled(p2, c.side, c.action)
                  && Enabled(p3, d.side, d.action) && Enabled(p4, e.side, e.action))
  {
    hide Step, Enabled;
    var p4 := Step(Step(Step(Step(p, a.side, a.action), b.side, b.action), c.side, c.action), d.side, d.action);
    assert [a, b, c, d, e][1..] == [b, c, d, e] && [b, c, d, e][1..] == [c, d, e] && [c, d, e][1..] == [d, e];
    assert [d, e][1..] == [e] && [e][1..] == [];
    assert Run(p4, [e]) == Step(p4, e.side, e.action);
    assert IsRun(p4, [e], false) <==> Enabled(p4, e.side, e.action);
    var p3 := Step(Step(Step(p, a.side, a.action), b.side, b.action), c.side, c.action);
    assert Run(p3, [d, e]) == Run(p4, [e]);
    assert IsRun(p3, [d, e], false) <==> Enabled(p3, d.side, d.action) && IsRun(p4, [e], false);
    var p2 := Step(Step(p, a.side, a.action), b.side, b.action);
    assert Run(p2, [c, d, e]) == Run(p3, [d, e]);
    assert IsRun(p2, [c, d, e], false) <==> Enabled(p2, c.side, c.action) && IsRun(p3, [d, e], false);
  }

  function AckInsidePost(i: Side, msg: nat): seq<Event> {
    var j := i.Other();
    [Event(i, SendAck), Event(j, Begin(Ack)), Event(j, Return), Event(j, BeginAuxiliary), Event(j, SendPost(msg))]
  }

  /**
    A side that acks from inside its Post lets a peer at rest post again at once: the slot that
    still holds the first message is overwritten, and the second Post is dropped when the first
    method returns and clears the bit they share.
   */
  lemma {:induction false} AckInsidePostLosesAMessage(p: Pair, i: Side, msg: nat)
    requires Inv(p) && p.At(i).running == Running(Post) && AtRest(p.At(i.Other()))
    ensures IsRun(p, AckInsidePost(i, msg), false)
    ensures var q := Run(p, AckInsidePost(i, msg));
            && p.At(i).stored.Holding? && q.At(i).stored == Holding(msg)
            && !Undelivered(Returned(q, i).At(i)) && !Awaited(Returned(q, i).At(i))
            && Returned(q, i).At(i.Other()).thisAckPending
  {
    var j := i.Other();
    FiveSteps(p, Event(i, SendAck), Event(j, Begin(Ack)), Event(j, Return), Event(j, BeginAuxiliary), Event(j,
        SendPost(msg)));
    AckIsTaken(p, i);
    FlowFacts(p, i);
    hide IsRun, Run, Inv, Started, Acked;
    assert j.Other() == i && i.Other() == j && i != j;
    var p3 := Step(Step(Step(p, i, SendAck), j, Begin(Ack)), j, Return);
    var p4 := Step(p3, j, BeginAuxiliary);
    assert p4.At(j) == p.At(j).(thisAckPending := false, running := Auxiliary) && p4.At(i) == p3.At(i);
  }

  /** The peer takes the ack and is at rest again. */
  lemma {:induction false} AckIsTaken(p: Pair, i: Side)
    requires Inv(p) && p.At(i).running == Running(Post) && AtRest(p.At(i.Other()))
    ensures var j := i.Other();
            var p1 := Step(p, i, SendAck);
            var p2 := Step(p1, j, Begin(Ack));
            var p3 := Step(p2, j, Return);
            && Enabled(p, i, SendAck) && Enabled(p1, j, Begin(Ack)) && Enabled(p2, j, Return)
            && p3.At(j) == p.At(j).(thisAckPending := false) && p3.At(i) == p.At(i).(otherAckPending := false)
  {
    FlowFacts(p, i);
    hide Inv;
    var j := i.Other();
    var o := p.At(j);
    assert j.Other() == i && i != j;
    var p1 := Step(p, i, SendAck);
    assert p1.At(j).scheduled == {Ack} && First({Ack}) == Ack;
    hide First;
    var p2 := Step(p1, j, Begin(Ack));
    assert p2.At(j) == o.(scheduled := {Ack}, running := Running(Ack), thisAckPending := false);
  }

  lemma {:induction false} FlowFacts(p: Pair, i: Side)
    requires Inv(p)
    ensures p.At(i).running == Running(Post) ==>
              p.At(i).otherAckPending && p.At(i.Other()).thisAckPending && Post in p.At(i).scheduled
              && p.At(i).stored.Holding?
    ensures p.At(i).running == Running(Ack) ==>
              !p.At(i).thisAckPending && Ack in p.At(i).scheduled && !p.At(i.Other()).otherAckPending
    ensures p.At(i).running != Idle ==> !p.At(i).finished
    ensures p.At(i).running.Running? || p.At(i).scheduled == {} ==> p.At(i).isOpen
    ensures p.At(i.Other()).scheduled == {} ==> p.At(i.Other()).isOpen
  {
  }

  function PostInsideAck(i: Side, msg: nat): seq<Event> {
    var j := i.Other();
    [Event(i, SendPost(msg)), Event(j, Begin(Post)), Event(j, Return), Event(j, ScheduleAck),
      Event(j, Begin(AckOther))]
  }

  /**
    A side that posts from inside its Ack can be acked while that method still runs: when it
    returns it clears the new Ack with its own bit, and waits for ever.
   */
  lemma {:induction false} PostInsideAckLosesTheAck(p: Pair, i: Side, msg: nat)
    requires Inv(p) && p.At(i).running == Running(Ack) && !p.At(i).thisClosedOther && AtRest(p.At(i.Other()))
    ensures IsRun(p, PostInsideAck(i, msg), false)
    ensures var q := Returned(Run(p, PostInsideAck(i, msg)), i);
            && q.At(i).thisAckPending
            && !Undelivered(q.At(i.Other())) && !Awaited(q.At(i.Other())) && !AckOnTheWay(q.At(i))
  {
    hide IsRun, Run, Inv;
    var j := i.Other();
    FiveSteps(p, Event(i, SendPost(msg)), Event(j, Begin(Post)), Event(j, Return), Event(j, ScheduleAck),
      Event(j, Begin(AckOther)));
    FlowFacts(p, i);
    PostIsTaken(p, i, msg);
    var e, o := p.At(i), p.At(j);
    assert j.Other() == i && i.Other() == j && i != j;
    var p3 := Step(Step(Step(p, i, SendPost(msg)), j, Begin(Post)), j, Return);
    var p4 := Step(p3, j, ScheduleAck);
    assert p4.At(j).scheduled == {AckOther} && First({AckOther}) == AckOther;
    hide First;
    var p5 := Step(p4, j, Begin(AckOther));
    assert p5.At(i) == e.(thisAckPending := true, scheduled := e.scheduled + {Ack});
  }

  /** The peer takes the post and is at rest again, owing the ack. */
  lemma {:induction false} PostIsTaken(p: Pair, i: Side, msg: nat)
    requires Inv(p) && p.At(i).running == Running(Ack) && !p.At(i).thisClosedOther && AtRest(p.At(i.Other()))
    ensures var j := i.Other();
            var p1 := Step(p, i, SendPost(msg));
            var p2 := Step(p1, j, Begin(Post));
            var p3 := Step(p2, j, Return);
            && Enabled(p, i, SendPost(msg)) && Enabled(p1, j, Begin(Post)) && Enabled(p2, j, Return)
            && p3.At(j) == p.At(j).(otherAckPending := true, stored := Empty)
            && p3.At(i) == p.At(i).(thisAckPending := true)
  {
    hide Inv;
    FlowFacts(p, i);
    var j := i.Other();
    var o := p.At(j);
    assert j.Other() == i && i.Other() == j && i != j;
    var p1 := Step(p, i, SendPost(msg));
    assert p1.At(j).scheduled == {Post} && First({Post}) == Post;
    hide First;
    var p2 := Step(p1, j, Begin(Post));
    assert p2.At(j)
      == o.(scheduled := {Post}, running := Running(Post), otherAckPending := true, stored := Holding(msg));
  }
}
