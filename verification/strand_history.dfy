/**
  What a run of the interaction protocol leaves behind, read off its events: every flag, scheduled
  method and message slot of either side as the last event says that concerns it.
 */
module StrandHistory {
  import opened StrandProtocol

  // ---------------------------------------------------------------------------------------
  // Events
  // ---------------------------------------------------------------------------------------

  /** Side `i` calls its peer: directly, or in the scheduled form when its turn has come. */
  predicate Posts(x: Event, i: Side) { x.side == i && (x.action.SendPost? || x.action == Begin(PostOther)) }
  predicate Acks(x: Event, i: Side) { x.side == i && (x.action.SendAck? || x.action == Begin(AckOther)) }
  predicate Closes(x: Event, i: Side) { x.side == i && (x.action.SendClose? || x.action == Begin(CloseOther)) }
  predicate Controls(x: Event, i: Side) { x.side == i && x.action.SendControl? }
  predicate Starts(x: Event, i: Side, m: Method) { x.side == i && x.action == Begin(m) }

  /** The event schedules method `m` at side `i`. */
  predicate Schedules(x: Event, i: Side, m: Method) {
    match m
    case CompleteOpen => false
    case PostControl => Controls(x, i.Other())
    case Post => Posts(x, i.Other())
    case Ack => Acks(x, i.Other())
    case Close => Closes(x, i.Other())
    case PostOther => x.side == i && x.action.SchedulePost?
    case AckOther => x.side == i && x.action.ScheduleAck?
    case CloseOther => x.side == i && x.action.ScheduleClose?
  }

  function Last(t: seq<Event>): Event
    requires t != []
  {
    t[|t| - 1]
  }

  function Front(t: seq<Event>): seq<Event>
    requires t != []
  {
    t[..|t| - 1]
  }

  // ---------------------------------------------------------------------------------------
  // Read off the events
  // ---------------------------------------------------------------------------------------

  function After(r: Running, a: Action): Running {
    match a
    case Begin(m) => Running(m)
    case BeginAuxiliary => Auxiliary
    case Return => Idle
    case _ => r
  }

  /** What side `i` is executing. */
  function Executing(t: seq<Event>, i: Side): Running {
    if t == [] then Idle
    else if Last(t).side != i then Executing(Front(t), i)
    else After(Executing(Front(t), i), Last(t).action)
  }

  /** Method `m` has been scheduled at side `i` and has not returned since. */
  predicate Pending(how: Opening, t: seq<Event>, i: Side, m: Method) {
    if t == [] then how.Async? && i == Left && m == CompleteOpen
    else if Schedules(Last(t), i, m) then true
    else if Last(t) == Event(i, Return) && Executing(Front(t), i) == Running(m) then false
    else Pending(how, Front(t), i, m)
  }

  predicate HasOpened(how: Opening, t: seq<Event>, i: Side) {
    if t == [] then how.Direct? || i == Right
    else Starts(Last(t), i, CompleteOpen) || Acks(Last(t), i) || HasOpened(how, Front(t), i)
  }

  /** Side `i` has closed the interaction, and has been told that its peer has. */
  predicate HasClosed(t: seq<Event>, i: Side) {
    t != [] && (Closes(Last(t), i) || HasClosed(Front(t), i))
  }

  predicate WasClosed(t: seq<Event>, i: Side) {
    t != [] && (Starts(Last(t), i, Close) || WasClosed(Front(t), i))
  }

  predicate HasFinished(t: seq<Event>, i: Side) {
    t != [] && (Last(t) == Event(i, Finish) || HasFinished(Front(t), i))
  }

  /** Side `i` awaits an ack: it posted, or opened with a message, and no Ack has been delivered since. */
  predicate Awaits(how: Opening, t: seq<Event>, i: Side) {
    if t == [] then how == Direct(true) && i == Left
    else if Posts(Last(t), i) then true
    else if Starts(Last(t), i, Ack) then false
    else Awaits(how, Front(t), i)
  }

  /** Side `i` owes an ack: a Post has been delivered to it and it has not acked since. */
  predicate Owes(how: Opening, t: seq<Event>, i: Side) {
    if t == [] then how == Direct(true) && i == Right
    else if Starts(Last(t), i, Post) then true
    else if Acks(Last(t), i) then false
    else Owes(how, Front(t), i)
  }

  /** The message of the last control message that side `i` sent. */
  function LastControl(t: seq<Event>, i: Side): Slot {
    if t == [] then Empty
    else if Controls(Last(t), i) then Holding(Last(t).action.msg)
    else LastControl(Front(t), i)
  }

  /** The message that side `i` scheduled last. */
  function LastScheduled(t: seq<Event>, i: Side): Slot {
    if t == [] then Empty
    else if Schedules(Last(t), i, PostOther) then Holding(Last(t).action.msg)
    else LastScheduled(Front(t), i)
  }

  /** The message of a Post of side `i`: that of the call, or the one scheduled for it. */
  function MessageOf(t: seq<Event>, x: Event, i: Side): Slot
    requires Posts(x, i)
  {
    if x.action.SendPost? then Holding(x.action.msg) else LastScheduled(t, i)
  }

  /** The message that side `i` posted last. */
  function LastPost(t: seq<Event>, i: Side): Slot {
    if t == [] then Empty
    else if Posts(Last(t), i) then MessageOf(Front(t), Last(t), i)
    else LastPost(Front(t), i)
  }

  function IfSo(b: bool, s: Slot): Slot { if b then s else Empty }

  // ---------------------------------------------------------------------------------------
  // The state is the record
  // ---------------------------------------------------------------------------------------

  predicate FlagsRecorded(how: Opening, t: seq<Event>, i: Side, e: End) {
    && e.isOpen == HasOpened(how, t, i) && e.finished == HasFinished(t, i) && e.running == Executing(t, i)
    && e.thisClosedOther == HasClosed(t, i) && e.otherClosedThis == WasClosed(t, i)
    && e.thisAckPending == Awaits(how, t, i) && e.otherAckPending == Owes(how, t, i)
  }

  ghost predicate MethodsRecorded(how: Opening, t: seq<Event>, i: Side, e: End) {
    forall m: Method :: m in e.scheduled <==> Pending(how, t, i, m)
  }

  predicate SlotsRecorded(how: Opening, t: seq<Event>, i: Side, e: End) {
    && e.stored == IfSo(Pending(how, t, i, Post), LastPost(t, i.Other()))
    && e.control == IfSo(Pending(how, t, i, PostControl), LastControl(t, i.Other()))
    && e.otherMsg == IfSo(Pending(how, t, i, PostOther), LastScheduled(t, i))
  }

  /** One side is as the events have left it. */
  ghost predicate Recorded(how: Opening, t: seq<Event>, i: Side, e: End) {
    FlagsRecorded(how, t, i, e) && MethodsRecorded(how, t, i, e) && SlotsRecorded(how, t, i, e)
  }

  lemma {:induction false} OneMoreEvent(t: seq<Event>, x: Event)
    ensures Last(t + [x]) == x && Front(t + [x]) == t
  {
  }

  lemma {:induction false} NextFlags(how: Opening, t: seq<Event>, x: Event, i: Side)
    ensures HasOpened(how, t + [x], i) == (Starts(x, i, CompleteOpen) || Acks(x, i) || HasOpened(how, t, i))
    ensures HasClosed(t + [x], i) == (Closes(x, i) || HasClosed(t, i))
    ensures WasClosed(t + [x], i) == (Starts(x, i, Close) || WasClosed(t, i))
    ensures HasFinished(t + [x], i) == (x == Event(i, Finish) || HasFinished(t, i))
    ensures Awaits(how, t + [x], i)
      == if Posts(x, i) then true else if Starts(x, i, Ack) then false else Awaits(how, t, i)
    ensures Owes(how, t + [x], i)
      == if Starts(x, i, Post) then true else if Acks(x, i) then false else Owes(how, t, i)
  {
    OneMoreEvent(t, x);
  }

  lemma {:induction false} NextExecuting(t: seq<Event>, x: Event, i: Side)
    ensures x.side != i ==> Executing(t + [x], i) == Executing(t, i)
    ensures x.side == i ==> Executing(t + [x], i) == After(Executing(t, i), x.action)
  {
    OneMoreEvent(t, x);
  }

  lemma {:induction false} NextPending(how: Opening, t: seq<Event>, x: Event, i: Side, m: Method)
    ensures Pending(how, t + [x], i, m) ==
      if Schedules(x, i, m) then true
      else if x == Event(i, Return) && Executing(t, i) == Running(m) then false
      else Pending(how, t, i, m)
  {
    hide Executing, Schedules;
    OneMoreEvent(t, x);
  }

  lemma {:induction false} NextMessages(t: seq<Event>, x: Event, i: Side)
    ensures LastControl(t + [x], i) == if Controls(x, i) then Holding(x.action.msg) else LastControl(t, i)
    ensures LastScheduled(t + [x], i) ==
      if Schedules(x, i, PostOther) then Holding(x.action.msg) else LastScheduled(t, i)
    ensures LastPost(t + [x], i) == if Posts(x, i) then MessageOf(t, x, i) else LastPost(t, i)
  {
    OneMoreEvent(t, x);
  }

  /** A step from the sides' own points of view: the one that acts, and its peer. */
  function Actor(e: End, a: Action): End {
    match a
    case SendPost(_) => e.(thisAckPending := true)
    case SendControl(_) => e
    case SendAck => e.(otherAckPending := false, isOpen := true)
    case SendClose => e.(thisClosedOther := true)
    case SchedulePost(msg) => e.(otherMsg := Holding(msg), scheduled := e.scheduled + {PostOther})
    case ScheduleAck => e.(scheduled := e.scheduled + {AckOther})
    case ScheduleClose => e.(scheduled := e.scheduled + {CloseOther})
    case Begin(m) => Starting(e, m)
    case BeginAuxiliary => e.(running := Auxiliary)
    case Return => if e.running.Running? then Ending(e, e.running.m) else e.(running := Idle)
    case Finish => e.(finished := true)
  }

  function Starting(e: End, m: Method): End {
    match m
    case CompleteOpen => e.(running := Running(m), isOpen := true)
    case PostControl => e.(running := Running(m))
    case Post => e.(running := Running(m), otherAckPending := true)
    case Ack => e.(running := Running(m), thisAckPending := false)
    case Close => e.(running := Running(m), otherClosedThis := true)
    case PostOther => e.(running := Running(m), thisAckPending := true)
    case AckOther => e.(running := Running(m), otherAckPending := false, isOpen := true)
    case CloseOther => e.(running := Running(m), thisClosedOther := true)
  }

  function Ending(e: End, m: Method): End {
    e.(running := Idle, scheduled := e.scheduled - {m},
      stored := if m.Post? then Empty else e.stored,
      control := if m.PostControl? then Empty else e.control,
      otherMsg := if m.PostOther? then Empty else e.otherMsg)
  }

  /** What the peer has scheduled for it. */
  function Added(a: Action): set<Method> {
    if a.SendPost? || a == Begin(PostOther) then {Post}
    else if a.SendControl? then {PostControl}
    else if a.SendAck? || a == Begin(AckOther) then {Ack}
    else if a.SendClose? || a == Begin(CloseOther) then {Close}
    else {}
  }

  function Peer(o: End, e: End, a: Action): End {
    o.(stored := if a.SendPost? then Holding(a.msg) else if a == Begin(PostOther) then e.otherMsg else o.stored,
      control := if a.SendControl? then Holding(a.msg) else o.control,
      scheduled := o.scheduled + Added(a))
  }

  lemma {:induction false} StartAtActor(p: Pair, i: Side, m: Method)
    ensures Started(p, i, m).At(i) == Starting(p.At(i), m)
  {
    assert i.Other() != i;
    match m { case CompleteOpen => case PostControl => case Post => case PostOther => case Ack => case AckOther =>
      case Close => case CloseOther => }
  }

  lemma {:induction false} PeerUnchanged(o: End, e: End, a: Action)
    requires Added(a) == {}
    ensures Peer(o, e, a) == o
  {
    assert o.scheduled + {} == o.scheduled;
  }

  lemma {:induction false} StartAtPeer(p: Pair, i: Side, m: Method)
    requires m.PostOther? ==> p.At(i).otherMsg.Holding?
    ensures Started(p, i, m).At(i.Other()) == Peer(p.At(i.Other()), p.At(i), Begin(m))
  {
    assert i.Other() != i;
    if !m.PostOther? && !m.AckOther? && !m.CloseOther? {
      hide Peer;
      PeerUnchanged(p.At(i.Other()), p.At(i), Begin(m));
    }
  }

  lemma {:induction false} StepAtActor(p: Pair, i: Side, a: Action)
    ensures Step(p, i, a).At(i) == Actor(p.At(i), a)
  {
    hide Started, Starting;
    assert i.Other() != i;
    match a {
      case Begin(m) => StartAtActor(p, i, m);
      case Return => ReturnAtActor(p, i);
      case SendPost(_) => case SendControl(_) => case SendAck => case SendClose => case SchedulePost(_) =>
      case ScheduleAck => case ScheduleClose => case BeginAuxiliary => case Finish =>
    }
  }

  lemma {:induction false} ReturnAtActor(p: Pair, i: Side)
    ensures Returned(p, i).At(i) == Actor(p.At(i), Return)
    ensures Returned(p, i).At(i.Other()) == p.At(i.Other())
  {
  }

  lemma {:induction false} StepAtPeer(p: Pair, i: Side, a: Action)
    requires a == Begin(PostOther) ==> p.At(i).otherMsg.Holding?
    ensures Step(p, i, a).At(i.Other()) == Peer(p.At(i.Other()), p.At(i), a)
  {
    hide Started, Returned, Peer;
    assert i.Other() != i;
    match a {
      case Begin(m) => StartAtPeer(p, i, m);
      case SendPost(_) => CallAtPeer(p, i, a);
      case SendControl(_) => CallAtPeer(p, i, a);
      case SendAck => CallAtPeer(p, i, a);
      case SendClose => CallAtPeer(p, i, a);
      case _ =>
        ReturnAtActor(p, i);
        PeerUnchanged(p.At(i.Other()), p.At(i), a);
    }
  }

  lemma {:induction false} CallAtPeer(p: Pair, i: Side, a: Action)
    requires a.SendPost? || a.SendControl? || a.SendAck? || a.SendClose?
    ensures Step(p, i, a).At(i.Other()) == Peer(p.At(i.Other()), p.At(i), a)
  {
    assert i.Other() != i;
  }

  lemma {:induction false} StepIsTwoSided(p: Pair, i: Side, a: Action)
    requires Enabled(p, i, a)
    ensures Step(p, i, a).At(i) == Actor(p.At(i), a)
    ensures Step(p, i, a).At(i.Other()) == Peer(p.At(i.Other()), p.At(i), a)
  {
    hide Step, Actor, Peer;
    ScheduledHolds(p, i, a);
    StepAtActor(p, i, a);
    StepAtPeer(p, i, a);
  }

  lemma {:induction false} StartingParts(e: End, m: Method)
    ensures var f := Starting(e, m);
      && f.isOpen == (m.CompleteOpen? || m.AckOther? || e.isOpen)
      && f.thisClosedOther == (m.CloseOther? || e.thisClosedOther)
      && f.otherClosedThis == (m.Close? || e.otherClosedThis)
      && f.thisAckPending == (m.PostOther? || (e.thisAckPending && !m.Ack?))
      && f.otherAckPending == (m.Post? || (e.otherAckPending && !m.AckOther?))
      && f.finished == e.finished && f.running == Running(m) && f.scheduled == e.scheduled
      && f.stored == e.stored && f.control == e.control && f.otherMsg == e.otherMsg
  {
    match m { case CompleteOpen => case PostControl => case Post => case PostOther => case Ack => case AckOther =>
      case Close => case CloseOther => }
  }

  lemma {:induction false} EndingParts(e: End, m: Method)
    ensures var f := Ending(e, m);
      && f.isOpen == e.isOpen && f.thisClosedOther == e.thisClosedOther && f.otherClosedThis == e.otherClosedThis
      && f.thisAckPending == e.thisAckPending && f.otherAckPending == e.otherAckPending
      && f.finished == e.finished && f.running == Idle && f.scheduled == e.scheduled - {m}
      && f.stored == IfSo(!m.Post?, e.stored) && f.control == IfSo(!m.PostControl?, e.control)
      && f.otherMsg == IfSo(!m.PostOther?, e.otherMsg)
  {
  }

  /** What a step does to the flags of the side that acts. */
  lemma {:induction false} ActorFlagParts(e: End, a: Action)
    ensures var f := Actor(e, a);
      && f.isOpen == (a == Begin(CompleteOpen) || a == SendAck || a == Begin(AckOther) || e.isOpen)
      && f.thisClosedOther == (a == SendClose || a == Begin(CloseOther) || e.thisClosedOther)
      && f.otherClosedThis == (a == Begin(Close) || e.otherClosedThis)
      && f.thisAckPending == (a.SendPost? || a == Begin(PostOther) || (e.thisAckPending && a != Begin(Ack)))
      && f.otherAckPending == (a == Begin(Post) || (e.otherAckPending && a != SendAck && a != Begin(AckOther)))
      && f.finished == (a == Finish || e.finished) && f.running == After(e.running, a)
  {
    hide Starting, Ending;
    match a {
      case Begin(m) => StartingParts(e, m);
      case Return => if e.running.Running? { EndingParts(e, e.running.m); }
      case SendPost(_) => case SendControl(_) => case SendAck => case SendClose => case SchedulePost(_) =>
      case ScheduleAck => case ScheduleClose => case BeginAuxiliary => case Finish =>
    }
  }

  lemma {:induction false} ActorFlags(how: Opening, t: seq<Event>, x: Event, e: End)
    requires FlagsRecorded(how, t, x.side, e)
    ensures FlagsRecorded(how, t + [x], x.side, Actor(e, x.action))
  {
    hide HasOpened, HasClosed, WasClosed, HasFinished, Awaits, Owes, Executing, Actor;
    NextFlags(how, t, x, x.side);
    NextExecuting(t, x, x.side);
    ActorFlagParts(e, x.action);
  }

  lemma {:induction false} PeerFlagParts(o: End, e: End, a: Action)
    ensures var f := Peer(o, e, a);
      && f.isOpen == o.isOpen && f.thisClosedOther == o.thisClosedOther && f.otherClosedThis == o.otherClosedThis
      && f.thisAckPending == o.thisAckPending && f.otherAckPending == o.otherAckPending
      && f.finished == o.finished && f.running == o.running && f.otherMsg == o.otherMsg
  {
  }

  lemma {:induction false} PeerFlags(how: Opening, t: seq<Event>, x: Event, o: End, e: End)
    requires FlagsRecorded(how, t, x.side.Other(), o)
    ensures FlagsRecorded(how, t + [x], x.side.Other(), Peer(o, e, x.action))
  {
    hide HasOpened, HasClosed, WasClosed, HasFinished, Awaits, Owes, Executing, Peer;
    NextFlags(how, t, x, x.side.Other());
    NextExecuting(t, x, x.side.Other());
    PeerFlagParts(o, e, x.action);
  }

  /** What a step schedules at the side that acts, and what it takes off. */
  lemma {:induction false} ActorMethodParts(e: End, a: Action, m: Method)
    ensures m in Actor(e, a).scheduled <==>
      || (m.PostOther? && a.SchedulePost?) || (m.AckOther? && a.ScheduleAck?) || (m.CloseOther? && a.ScheduleClose?)
      || (m in e.scheduled && !(a.Return? && e.running == Running(m)))
  {
    hide Starting, Ending;
    match a {
      case Begin(k) => StartingParts(e, k);
      case Return => if e.running.Running? { EndingParts(e, e.running.m); }
      case SendPost(_) => case SendControl(_) => case SendAck => case SendClose => case SchedulePost(_) =>
      case ScheduleAck => case ScheduleClose => case BeginAuxiliary => case Finish =>
    }
  }

  lemma {:induction false} ActorMethods(how: Opening, t: seq<Event>, x: Event, e: End)
    requires e.running == Executing(t, x.side) && MethodsRecorded(how, t, x.side, e)
    ensures MethodsRecorded(how, t + [x], x.side, Actor(e, x.action))
  {
    hide Executing, Pending, Actor;
    var i := x.side;
    assert i.Other() != i;
    forall m: Method ensures m in Actor(e, x.action).scheduled <==> Pending(how, t + [x], i, m) {
      NextPending(how, t, x, i, m);
      ActorMethodParts(e, x.action, m);
    }
  }

  /** What a step schedules at the peer. */
  lemma {:induction false} PeerMethodParts(o: End, e: End, a: Action, m: Method)
    ensures m in Peer(o, e, a).scheduled <==>
      || (m.PostControl? && a.SendControl?) || (m.Post? && (a.SendPost? || a == Begin(PostOther)))
      || (m.Ack? && (a.SendAck? || a == Begin(AckOther))) || (m.Close? && (a.SendClose? || a == Begin(CloseOther)))
      || m in o.scheduled
  {
  }

  lemma {:induction false} PeerMethods(how: Opening, t: seq<Event>, x: Event, o: End, e: End)
    requires MethodsRecorded(how, t, x.side.Other(), o)
    ensures MethodsRecorded(how, t + [x], x.side.Other(), Peer(o, e, x.action))
  {
    hide Executing, Pending, Peer;
    var j := x.side.Other();
    assert j.Other() == x.side && j != x.side;
    forall m: Method ensures m in Peer(o, e, x.action).scheduled <==> Pending(how, t + [x], j, m) {
      NextPending(how, t, x, j, m);
      PeerMethodParts(o, e, x.action, m);
    }
  }

  lemma {:induction false} ActorSlotParts(e: End, a: Action)
    ensures var f := Actor(e, a);
      && f.stored == IfSo(!(a.Return? && e.running == Running(Post)), e.stored)
      && f.control == IfSo(!(a.Return? && e.running == Running(PostControl)), e.control)
      && f.otherMsg == if a.SchedulePost? then Holding(a.msg)
        else IfSo(!(a.Return? && e.running == Running(PostOther)), e.otherMsg)
  {
    hide Starting, Ending;
    match a {
      case Begin(k) => StartingParts(e, k);
      case Return => if e.running.Running? { EndingParts(e, e.running.m); }
      case SendPost(_) => case SendControl(_) => case SendAck => case SendClose => case SchedulePost(_) =>
      case ScheduleAck => case ScheduleClose => case BeginAuxiliary => case Finish =>
    }
  }

  lemma {:induction false} ActorSlots(how: Opening, t: seq<Event>, x: Event, e: End)
    requires e.running == Executing(t, x.side) && SlotsRecorded(how, t, x.side, e)
    ensures SlotsRecorded(how, t + [x], x.side, Actor(e, x.action))
  {
    hide Executing, Pending, LastPost, LastControl, LastScheduled, Actor;
    var i := x.side;
    assert i.Other() != i;
    ActorSlotParts(e, x.action);
    NextMessages(t, x, i);
    NextMessages(t, x, i.Other());
    NextPending(how, t, x, i, Post);
    NextPending(how, t, x, i, PostControl);
    NextPending(how, t, x, i, PostOther);
  }

  lemma {:induction false} PeerSlotParts(o: End, e: End, a: Action)
    ensures var f := Peer(o, e, a);
      && f.stored == (if a.SendPost? then Holding(a.msg) else if a == Begin(PostOther) then e.otherMsg else o.stored)
      && f.control == (if a.SendControl? then Holding(a.msg) else o.control) && f.otherMsg == o.otherMsg
  {
  }

  lemma {:induction false} PeerSlots(how: Opening, t: seq<Event>, x: Event, o: End, e: End)
    requires SlotsRecorded(how, t, x.side.Other(), o) && SlotsRecorded(how, t, x.side, e)
    requires x.action == Begin(PostOther) ==> e.otherMsg.Holding?
    ensures SlotsRecorded(how, t + [x], x.side.Other(), Peer(o, e, x.action))
  {
    hide Executing, Pending, LastPost, LastControl, LastScheduled, Peer;
    var j := x.side.Other();
    assert j.Other() == x.side && j != x.side;
    PeerSlotParts(o, e, x.action);
    NextMessages(t, x, x.side);
    NextMessages(t, x, j);
    NextPending(how, t, x, j, Post);
    NextPending(how, t, x, j, PostControl);
    NextPending(how, t, x, j, PostOther);
  }

  lemma {:induction false} StepRecorded(how: Opening, t: seq<Event>, x: Event, p: Pair)
    requires Recorded(how, t, Left, p.left) && Recorded(how, t, Right, p.right) && Enabled(p, x.side, x.action)
    ensures var q := Step(p, x.side, x.action);
      Recorded(how, t + [x], Left, q.left) && Recorded(how, t + [x], Right, q.right)
  {
    hide SlotsRecorded, MethodsRecorded, Step, Actor, Peer;
    var e, o := p.At(x.side), p.At(x.side.Other());
    StepIsTwoSided(p, x.side, x.action);
    ScheduledHolds(p, x.side, x.action);
    assert e.running == Executing(t, x.side);
    hide FlagsRecorded, Enabled;
    ActorFlags(how, t, x, e);
    ActorMethods(how, t, x, e);
    ActorSlots(how, t, x, e);
    PeerFlags(how, t, x, o, e);
    PeerMethods(how, t, x, o, e);
    PeerSlots(how, t, x, o, e);
  }

  lemma {:induction false} ScheduledHolds(p: Pair, i: Side, a: Action)
    requires Enabled(p, i, a)
    ensures a == Begin(PostOther) ==> p.At(i).otherMsg.Holding?
  {
  }

  // ---------------------------------------------------------------------------------------
  // Runs
  // ---------------------------------------------------------------------------------------

  lemma {:induction false} RunSplits(p: Pair, t: seq<Event>, x: Event, strict: bool)
    ensures IsRun(p, t + [x], strict) <==>
      && IsRun(p, t, strict) && Enabled(Run(p, t), x.side, x.action)
      && (strict ==> Disciplined(Run(p, t), x.side, x.action))
    ensures Run(p, t + [x]) == Step(Run(p, t), x.side, x.action)
    decreases |t|
  {
    hide Step, Enabled, Disciplined;
    if t == [] {
      assert [] + [x] == [x] && [x][1..] == [];
    } else {
      assert (t + [x])[1..] == t[1..] + [x];
      RunSplits(Step(p, t[0].side, t[0].action), t[1..], x, strict);
    }
  }

  lemma {:induction false} OpeningRecorded(how: Opening)
    ensures Recorded(how, [], Left, Opened(how).left) && Recorded(how, [], Right, Opened(how).right)
  {
  }

  /**
    In every run, disciplined or not, both sides are as the events have left them: each flag, each
    scheduled method, and in each slot the message that was sent last.
   */
  lemma {:induction false} StateIsRecord(how: Opening, t: seq<Event>, strict: bool)
    requires IsRun(Opened(how), t, strict)
    ensures Recorded(how, t, Left, Run(Opened(how), t).left) && Recorded(how, t, Right, Run(Opened(how), t).right)
    decreases |t|
  {
    hide Recorded, Opened, Step, Enabled, Disciplined, IsRun, Run;
    if t == [] {
      OpeningRecorded(how);
      EmptyRun(Opened(how));
    } else {
      assert t == Front(t) + [Last(t)];
      RunSplits(Opened(how), Front(t), Last(t), strict);
      StateIsRecord(how, Front(t), strict);
      StepRecorded(how, Front(t), Last(t), Run(Opened(how), Front(t)));
    }
  }

  lemma {:induction false} EmptyRun(p: Pair)
    ensures Run(p, []) == p
  {
  }

  lemma {:induction false} RecordOf(how: Opening, t: seq<Event>, strict: bool, i: Side)
    requires IsRun(Opened(how), t, strict)
    ensures Recorded(how, t, i, Run(Opened(how), t).At(i))
  {
    hide Recorded, Opened, IsRun, Run;
    StateIsRecord(how, t, strict);
  }

  /**
    In every disciplined run, the message that a side is given when it starts Post is the one its
    peer posted last, and when it starts PostControl the one its peer sent last.
   */
  lemma {:induction false} GivenIsSent(how: Opening, t: seq<Event>, i: Side, m: Method)
    requires IsRun(Opened(how), t, true) && Enabled(Run(Opened(how), t), i, Begin(m))
    ensures var e := Run(Opened(how), t).At(i);
      && (m.Post? ==> e.stored.Holding? && e.stored == LastPost(t, i.Other()))
      && (m.PostControl? ==> e.control.Holding? && e.control == LastControl(t, i.Other()))
      && (m.PostOther? ==> e.otherMsg.Holding? && e.otherMsg == LastScheduled(t, i))
  {
    hide Opened, IsRun, Run, FlagsRecorded, MethodsRecorded, Pending, LastPost, LastControl, LastScheduled, First;
    RecordOf(how, t, true, i);
    ReceiverAssertionsHold(how, t, i, m);
  }

  // ---------------------------------------------------------------------------------------
  // Every Post is delivered once, in order
  // ---------------------------------------------------------------------------------------

  function AsSeq(s: Slot): seq<nat> { if s.Holding? then [s.msg] else [] }

  /** The messages that side `i` posted. */
  function Sent(t: seq<Event>, i: Side): seq<nat> {
    if t == [] then []
    else Sent(Front(t), i) + if Posts(Last(t), i) then AsSeq(MessageOf(Front(t), Last(t), i)) else []
  }

  /** The messages that were in the slot of side `i` when it started Post. */
  function Given(how: Opening, t: seq<Event>, i: Side): seq<nat> {
    if t == [] then []
    else
      var now := if Starts(Last(t), i, Post) then AsSeq(Run(Opened(how), Front(t)).At(i).stored) else [];
      Given(how, Front(t), i) + now
  }

  function InTransit(o: End): seq<nat> { if Undelivered(o) then AsSeq(o.stored) else [] }

  /** The receiver acts: nothing new is in transit, and what is comes out when it starts Post. */
  lemma {:induction false} ReceiverTransit(o: End, a: Action)
    requires a == Begin(Post) ==> Post in o.scheduled && o.running == Idle
    requires a.Begin? || a.BeginAuxiliary? ==> o.running == Idle
    ensures InTransit(Actor(o, a)) == if a == Begin(Post) then [] else InTransit(o)
    ensures a == Begin(Post) ==> InTransit(o) == AsSeq(o.stored)
  {
    hide Actor;
    ActorMethodParts(o, a, Post);
    ActorSlotParts(o, a);
    ActorFlagParts(o, a);
  }

  /** The sender acts: what it posts is in transit, and nothing was. */
  lemma {:induction false} SenderTransit(o: End, e: End, a: Action)
    requires a.SendPost? || a == Begin(PostOther) ==> Post !in o.scheduled && o.running != Running(Post)
    ensures a.SendPost? ==> InTransit(o) == [] && InTransit(Peer(o, e, a)) == [a.msg]
    ensures a == Begin(PostOther) ==> InTransit(o) == [] && InTransit(Peer(o, e, a)) == AsSeq(e.otherMsg)
    ensures !a.SendPost? && a != Begin(PostOther) ==> InTransit(Peer(o, e, a)) == InTransit(o)
  {
    hide Peer;
    PeerMethodParts(o, e, a, Post);
    PeerSlotParts(o, e, a);
    PeerFlagParts(o, e, a);
  }

  lemma {:induction false} RoomForPost(p: Pair, i: Side, a: Action)
    requires Inv(p) && Enabled(p, i, a) && Disciplined(p, i, a) && (a.SendPost? || a == Begin(PostOther))
    ensures Post !in p.At(i.Other()).scheduled && p.At(i.Other()).running != Running(Post)
  {
    hide First;
  }

  lemma {:induction false} ReadyToStart(p: Pair, i: Side, a: Action)
    requires Enabled(p, i, a)
    ensures a == Begin(Post) ==> Post in p.At(i).scheduled
    ensures a.Begin? || a.BeginAuxiliary? ==> p.At(i).running == Idle
  {
    hide First;
  }

  /** What is in transit from side `i` after one more step. */
  lemma {:induction false} TransitStep(how: Opening, t: seq<Event>, x: Event, i: Side, p: Pair)
    requires Inv(p) && Recorded(how, t, i, p.At(i)) && Enabled(p, x.side, x.action) && Disciplined(p, x.side, x.action)
    ensures var o, o' := p.At(i.Other()), Step(p, x.side, x.action).At(i.Other());
      && (Posts(x, i) ==> InTransit(o) == [] && InTransit(o') == AsSeq(MessageOf(t, x, i)))
      && (Starts(x, i.Other(), Post) ==> InTransit(o) == AsSeq(o.stored) && InTransit(o') == [])
      && (!Posts(x, i) && !Starts(x, i.Other(), Post) ==> InTransit(o') == InTransit(o))
  {
    hide FlagsRecorded, MethodsRecorded, Step, Actor, Peer, InTransit, Inv, Disciplined, Pending, LastPost, LastControl,
      LastScheduled;
    assert i.Other().Other() == i && i.Other() != i;
    StepIsTwoSided(p, x.side, x.action);
    ScheduledHolds(p, x.side, x.action);
    ReadyToStart(p, x.side, x.action);
    if x.side == i {
      if Posts(x, i) { RoomForPost(p, i, x.action); }
      hide Enabled;
      SenderTransit(p.At(i.Other()), p.At(i), x.action);
    } else {
      hide Enabled;
      ReceiverTransit(p.At(i.Other()), x.action);
    }
  }

  /**
    In every disciplined run the messages that a side was given are those its peer posted, each
    once and in order; the last one posted may still be in transit.
   */
  lemma {:induction false} PostsArriveInOrder(how: Opening, t: seq<Event>, i: Side)
    requires IsRun(Opened(how), t, true)
    ensures Sent(t, i) == Given(how, t, i.Other()) + InTransit(Run(Opened(how), t).At(i.Other()))
    decreases |t|
  {
    hide Recorded, Opened, Step, Enabled, Disciplined, IsRun, Run, Inv, InTransit, MessageOf;
    if t == [] {
      EmptyRun(Opened(how));
      NothingInTransit(how, i.Other());
    } else {
      var f, x := Front(t), Last(t);
      assert t == f + [x];
      RunSplits(Opened(how), f, x, true);
      PostsArriveInOrder(how, f, i);
      RecordOf(how, f, true, i);
      OpenedIsOk(how);
      RunKeepsInv(Opened(how), f);
      TransitStep(how, f, x, i, Run(Opened(how), f));
    }
  }

  lemma {:induction false} NothingInTransit(how: Opening, i: Side)
    ensures InTransit(Opened(how).At(i)) == []
  {
  }
}
