/**
  The connection side of the multiplexer (multiplex.c): one incoming connection fans its messages
  out to operations by operationId and is closed back when the peer has closed and no operation
  is left.
 */
module Multiplexer {
  datatype Tag = Cancel | Unsubscribe | Other

  datatype Message = Message(id: nat, tag: Tag, operationId: nat)

  datatype Slot = Empty | Full(msg: Message)

  /**
    An `OperationOut`: its key, the one message that waits in `fromParent.msg`, the requests made
    of it, and its flags `thisAckPending` and `thisClosedOther`; and, for the record, the messages
    handed to it (the first one opened it), those it passed on, those lost while they waited, and
    how many acks it received.
   */
  datatype Operation = Operation(
    key: nat,
    slot: Slot,
    cancels: nat,
    closes: nat,
    ackPending: bool,
    closed: bool,
    inbox: seq<Message>,
    passed: seq<Message>,
    lost: seq<Message>,
    acks: nat)

  function Waiting(o: Operation): seq<Message> { if o.slot.Full? then [o.slot.msg] else [] }

  /** A new operation: `Strand_Open` passes its first message on at once and awaits the ack. */
  function Opened(msg: Message): Operation {
    Operation(msg.operationId, Empty, 0, 0, true, false, [msg], [msg], [], 0)
  }

  /** What became of a posted message. */
  datatype Outcome =
    | OpenedBy(msg: Message)
    | Forwarded(msg: Message)
    | Dropped(msg: Message)        // an unsubscribe for an operation that is gone
    | Canceled(msg: Message)
    | CancelMissed(msg: Message)

  /**
    A `ConnectionIn`: the live operations, their count, the two close flags, how often the
    connection was closed back; and, for the record, the operations deleted so far and the
    outcome of every message.
   */
  datatype Connection = Connection(
    many: seq<Operation>,
    numEntries: nat,
    otherClosedThis: bool,
    thisClosedOther: bool,
    closedBack: nat,
    deleted: seq<Operation>,
    log: seq<Outcome>)

  const FRESH: Connection := Connection([], 0, false, false, 0, [], [])

  /** `_ConnectionIn_FindOperation`: the position of the operation with this key, or the number of them. */
  function Find(many: seq<Operation>, key: nat): (i: nat)
    ensures i <= |many| && (i < |many| ==> many[i].key == key)
    ensures forall j | 0 <= j < i :: many[j].key != key
  {
    if many == [] || many[0].key == key then 0 else 1 + Find(many[1..], key)
  }

  /** `StrandMany_PostEntry`: whatever waits in the slot is overwritten. */
  function Deliver(o: Operation, msg: Message): Operation {
    o.(slot := Full(msg), inbox := o.inbox + [msg], lost := o.lost + Waiting(o))
  }

  /** The assertions of `_StrandMethod_Entry_PostInternal` and of the `Strand_Post` that it calls. */
  predicate MayPass(o: Operation) { o.slot.Full? && !o.ackPending && !o.closed }

  /** `_StrandMethod_Entry_PostInternal`, on the operation's own strand. */
  function PassOn(o: Operation): Operation {
    o.(slot := Empty, ackPending := true, passed := o.passed + Waiting(o))
  }

  /** The ack arrives (`_StrandMethodImp_Ack`). */
  function TakeAck(o: Operation): Operation { o.(ackPending := false, acks := o.acks + 1) }

  /** An operation is removed with whatever waits in its slot. */
  function Removed(o: Operation): Operation { o.(slot := Empty, lost := o.lost + Waiting(o)) }

  /**
    The operation has closed and awaits no ack (`_StrandMethodImp_CheckFinished`).  The parent
    removes it later, on its own strand, and may have handed it a message in between.
   */
  predicate MayGo(o: Operation) { o.closed && !o.ackPending }

  /** `_ConnectionIn_Post`. */
  function Post(c: Connection, msg: Message): Connection {
    var i := Find(c.many, msg.operationId);
    if msg.tag == Cancel then
      if i < |c.many|
      then c.(many := c.many[i := c.many[i].(cancels := c.many[i].cancels + 1)], log := c.log + [Canceled(msg)])
      else c.(log := c.log + [CancelMissed(msg)])
    else if i < |c.many| then
      c.(many := c.many[i := Deliver(c.many[i], msg)], log := c.log + [Forwarded(msg)])
    else if msg.tag == Unsubscribe then
      c.(log := c.log + [Dropped(msg)])
    else
      c.(many := c.many + [Opened(msg)], numEntries := c.numEntries + 1,
         log := c.log + [OpenedBy(msg)])
  }

  /** `Strand_Close` on the connection. */
  function CloseBack(c: Connection): Connection {
    c.(thisClosedOther := true, closedBack := c.closedBack + 1)
  }

  /** `StrandMany_CloseAllEntries`. */
  function CloseAll(many: seq<Operation>): (r: seq<Operation>)
    ensures |r| == |many|
    ensures forall i | 0 <= i < |many| :: r[i] == many[i].(closes := many[i].closes + 1)
  {
    seq(|many|, i requires 0 <= i < |many| => many[i].(closes := many[i].closes + 1))
  }

  /** `_ConnectionIn_Close`, the flag having been set by the strand. */
  function PeerClosed(c: Connection): Connection {
    var c1 := c.(otherClosedThis := true, many := CloseAll(c.many));
    if c1.numEntries == 0 then CloseBack(c1) else c1
  }

  function Without<T>(s: seq<T>, i: nat): seq<T>
    requires i < |s|
  {
    s[..i] + s[i + 1..]
  }

  /** `_StrandEntryOperation_Deleted` and `_ConnectionIn_EntryDeleted` for the operation at position `i`. */
  function EntryDeleted(c: Connection, i: nat): Connection
    requires i < |c.many|
  {
    var c1 := c.(many := Without(c.many, i), numEntries := if c.numEntries > 0 then c.numEntries - 1 else 0,
                 deleted := c.deleted + [Removed(c.many[i])]);
    if c1.otherClosedThis && c1.numEntries == 0 then CloseBack(c1) else c1
  }

  datatype Event =
    | Posted(msg: Message)
    | PeerClose
    | Passing(i: nat)   // operation `i` passes on the message that waits
    | Acked(i: nat)     // it receives the ack
    | Closing(i: nat)   // it closes the interaction to the right
    | Delete(i: nat)

  /** Once the peer's Close has been delivered the protocol delivers no Post and no second Close. */
  predicate Enabled(c: Connection, e: Event) {
    match e
    case Posted(_) => !c.otherClosedThis
    case PeerClose => !c.otherClosedThis
    case Passing(i) => i < |c.many| && MayPass(c.many[i])
    case Acked(i) => i < |c.many| && c.many[i].ackPending
    case Closing(i) => i < |c.many| && !c.many[i].closed
    case Delete(i) => i < |c.many| && MayGo(c.many[i])
  }

  function Step(c: Connection, e: Event): Connection
    requires Enabled(c, e)
  {
    match e
    case Posted(msg) => Post(c, msg)
    case PeerClose => PeerClosed(c)
    case Passing(i) => c.(many := c.many[i := PassOn(c.many[i])])
    case Acked(i) => c.(many := c.many[i := TakeAck(c.many[i])])
    case Closing(i) => c.(many := c.many[i := c.many[i].(closed := true)])
    case Delete(i) => EntryDeleted(c, i)
  }

  predicate IsRun(c: Connection, t: seq<Event>)
    decreases |t|
  {
    t != [] ==> Enabled(c, t[0]) && IsRun(Step(c, t[0]), t[1..])
  }

  function Run(c: Connection, t: seq<Event>): Connection
    requires IsRun(c, t)
    decreases |t|
  {
    if t == [] then c else Run(Step(c, t[0]), t[1..])
  }

  // ---------------------------------------------------------------------------------------
  // The invariant
  // ---------------------------------------------------------------------------------------

  predicate KeysDistinct(many: seq<Operation>) {
    forall i, j | 0 <= i < j < |many| :: many[i].key != many[j].key
  }

  /**
    Every message handed over was passed on, waits, or was lost; and in order, if none was lost.
   */
  predicate Conserved(o: Operation) {
    && multiset(o.inbox) == multiset(o.passed) + multiset(Waiting(o)) + multiset(o.lost)
    && (o.lost == [] ==> o.passed + Waiting(o) == o.inbox)
  }

  /** An operation is handed only messages for its key, and was opened by the first. */
  predicate InboxOk(o: Operation) {
    && o.inbox != [] && Conserved(o) && AcksOk(o)
    && forall m <- o.inbox :: m.operationId == o.key && m.tag != Cancel
  }

  /** Every message passed on has been acked, but for the last one while its ack is pending. */
  predicate AcksOk(o: Operation) { |o.passed| == o.acks + if o.ackPending then 1 else 0 }

  lemma {:induction false} DeliverKeepsInbox(o: Operation, msg: Message)
    requires InboxOk(o) && msg.operationId == o.key && msg.tag != Cancel
    ensures InboxOk(Deliver(o, msg))
  {
    if Deliver(o, msg).lost == [] { assert o.lost == [] && o.slot.Empty?; }
  }

  lemma {:induction false} AckKeepsInbox(o: Operation)
    requires InboxOk(o) && o.ackPending
    ensures InboxOk(TakeAck(o))
  {
  }

  lemma {:induction false} PassKeepsInbox(o: Operation)
    requires InboxOk(o) && MayPass(o)
    ensures InboxOk(PassOn(o))
  {
    if o.lost == [] { assert o.passed + Waiting(o) + [] == o.passed + Waiting(o); }
  }

  lemma {:induction false} RemovalKeepsInbox(o: Operation)
    requires InboxOk(o)
    ensures InboxOk(Removed(o))
  {
    if Removed(o).lost == [] { assert o.lost == [] && o.slot.Empty?; }
  }

  lemma {:induction false} OpenedIsOk(msg: Message)
    requires msg.tag != Cancel
    ensures InboxOk(Opened(msg))
  {
  }

  /** The messages handed to operations with key `k`, in order. */
  function InboxesOf(ops: seq<Operation>, k: nat): seq<Message> {
    if ops == [] then []
    else InboxesOf(ops[..|ops| - 1], k) + (if ops[|ops| - 1].key == k then ops[|ops| - 1].inbox else [])
  }

  /** The messages the log says were accepted for key `k`. */
  function AcceptedFor(log: seq<Outcome>, k: nat): seq<Message> {
    if log == [] then []
    else
      var last := log[|log| - 1];
      AcceptedFor(log[..|log| - 1], k)
        + (if (last.OpenedBy? || last.Forwarded?) && last.msg.operationId == k then [last.msg] else [])
  }

  /** The inbox of the live operation with key `k`, if there is one. */
  function LiveInbox(many: seq<Operation>, k: nat): seq<Message> {
    var i := Find(many, k);
    if i < |many| then many[i].inbox else []
  }

  /** All that was handed to operations with key `k`, first to those deleted since, then to the live one. */
  function History(c: Connection, k: nat): seq<Message> {
    InboxesOf(c.deleted, k) + LiveInbox(c.many, k)
  }

  ghost predicate HistoryOk(c: Connection) {
    forall k: nat :: History(c, k) == AcceptedFor(c.log, k)
  }

  predicate CloseOk(c: Connection) {
    && c.numEntries == |c.many|
    && (c.thisClosedOther <==> c.otherClosedThis && c.numEntries == 0)
    && c.closedBack == (if c.thisClosedOther then 1 else 0)
    && (forall o <- c.many :: o.closes == if c.otherClosedThis then 1 else 0)
  }

  ghost predicate Inv(c: Connection) {
    && KeysDistinct(c.many) && CloseOk(c) && HistoryOk(c)
    && InboxesOk(c.many) && InboxesOk(c.deleted)
    && (forall o <- c.deleted :: o.slot.Empty? && MayGo(o))
  }

  lemma {:induction false} FindIs(many: seq<Operation>, i: nat)
    requires KeysDistinct(many) && i < |many|
    ensures Find(many, many[i].key) == i
  {
  }

  lemma {:induction false} LogSnoc(log: seq<Outcome>, x: Outcome, k: nat)
    ensures AcceptedFor(log + [x], k)
         == AcceptedFor(log, k) + (if (x.OpenedBy? || x.Forwarded?) && x.msg.operationId == k then [x.msg] else [])
  {
    assert (log + [x])[..|log|] == log;
  }

  lemma {:induction false} InboxesSnoc(ops: seq<Operation>, o: Operation, k: nat)
    ensures InboxesOf(ops + [o], k) == InboxesOf(ops, k) + (if o.key == k then o.inbox else [])
  {
    assert (ops + [o])[..|ops|] == ops;
  }

  /** Replacing an operation by one with the same key changes the live inbox of that key only. */
  lemma {:induction false} LiveInboxUpdate(many: seq<Operation>, i: nat, o: Operation, k: nat)
    requires KeysDistinct(many) && i < |many| && o.key == many[i].key
    ensures KeysDistinct(many[i := o])
    ensures LiveInbox(many[i := o], k) == if k == o.key then o.inbox else LiveInbox(many, k)
  {
    var many' := many[i := o];
    assert forall j | 0 <= j < |many| :: many'[j].key == many[j].key;
    var j, j' := Find(many, k), Find(many', k);
    assert j == j';
    if k == o.key { FindIs(many, i); }
  }

  lemma {:induction false} LiveInboxSnoc(many: seq<Operation>, o: Operation, k: nat)
    requires Find(many, o.key) == |many|
    ensures LiveInbox(many + [o], k) == if k == o.key then o.inbox else LiveInbox(many, k)
  {
    var many' := many + [o];
    var j, j' := Find(many, k), Find(many', k);
    assert forall x | 0 <= x < |many| :: many'[x] == many[x];
    assert many'[|many|] == o;
    if j < |many| { assert j' == j; }
  }

  lemma {:induction false} WithoutAt(many: seq<Operation>, i: nat)
    requires KeysDistinct(many) && i < |many|
    ensures KeysDistinct(Without(many, i)) && |Without(many, i)| == |many| - 1
    ensures forall x | 0 <= x < |many| - 1 :: Without(many, i)[x] == many[if x < i then x else x + 1]
    ensures forall x | 0 <= x < |many| - 1 :: Without(many, i)[x].key != many[i].key
  {
  }

  lemma {:induction false} LiveInboxWithout(many: seq<Operation>, i: nat, k: nat)
    requires KeysDistinct(many) && i < |many|
    ensures KeysDistinct(Without(many, i))
    ensures LiveInbox(Without(many, i), k) == if k == many[i].key then [] else LiveInbox(many, k)
  {
    hide Without, KeysDistinct, Find;
    WithoutAt(many, i);
    var rest := Without(many, i);
    var j, j' := Find(many, k), Find(rest, k);
    if k != many[i].key && j < |many| {
      var x := if j < i then j else j - 1;
      assert rest[x] == many[j];
      FindIs(rest, x);
    }
  }

  lemma {:induction false} LiveInboxCloseAll(many: seq<Operation>, k: nat)
    ensures LiveInbox(CloseAll(many), k) == LiveInbox(many, k)
  {
    var j, j' := Find(many, k), Find(CloseAll(many), k);
    assert j == j';
  }

  /** An operation replaced by one that holds `more` besides, and the log extended by as much. */
  lemma {:induction false} UpdateKeepsHistory(c: Connection, i: nat, o: Operation, x: Outcome, more: seq<Message>)
    requires KeysDistinct(c.many) && HistoryOk(c) && i < |c.many|
    requires o.key == c.many[i].key && o.inbox == c.many[i].inbox + more
    requires forall k: nat :: AcceptedFor(c.log + [x], k) == AcceptedFor(c.log, k) + if k == o.key then more else []
    ensures HistoryOk(c.(many := c.many[i := o], log := c.log + [x])) && KeysDistinct(c.many[i := o])
  {
    var c' := c.(many := c.many[i := o], log := c.log + [x]);
    LiveInboxUpdate(c.many, i, o, 0);
    FindIs(c.many, i);
    forall k: nat ensures History(c', k) == AcceptedFor(c'.log, k) {
      assert History(c, k) == AcceptedFor(c.log, k);
      LiveInboxUpdate(c.many, i, o, k);
    }
  }

  lemma {:induction false} OpenKeepsHistory(c: Connection, msg: Message)
    requires KeysDistinct(c.many) && HistoryOk(c) && Find(c.many, msg.operationId) == |c.many|
    ensures var many' := c.many + [Opened(msg)];
            && HistoryOk(c.(many := many', numEntries := c.numEntries + 1, log := c.log + [OpenedBy(msg)]))
            && KeysDistinct(many')
  {
    var o := Opened(msg);
    var c' := c.(many := c.many + [o], numEntries := c.numEntries + 1, log := c.log + [OpenedBy(msg)]);
    forall k: nat ensures History(c', k) == AcceptedFor(c'.log, k) {
      assert History(c, k) == AcceptedFor(c.log, k);
      LogSnoc(c.log, OpenedBy(msg), k);
      LiveInboxSnoc(c.many, o, k);
    }
  }

  lemma {:induction false} PostKeepsHistory(c: Connection, msg: Message)
    requires KeysDistinct(c.many) && HistoryOk(c)
    ensures HistoryOk(Post(c, msg)) && KeysDistinct(Post(c, msg).many)
  {
    hide KeysDistinct, AcceptedFor, InboxesOf, LiveInbox, Find;
    var c', i := Post(c, msg), Find(c.many, msg.operationId);
    var x := c'.log[|c.log|];
    forall k: nat
      ensures AcceptedFor(c'.log, k)
           == AcceptedFor(c.log, k) + if (x.OpenedBy? || x.Forwarded?) && x.msg.operationId == k then [x.msg] else []
    {
      LogSnoc(c.log, x, k);
    }
    if i < |c.many| {
      UpdateKeepsHistory(c, i, c'.many[i], x, if msg.tag == Cancel then [] else [msg]);
    } else if x.OpenedBy? {
      OpenKeepsHistory(c, msg);
    } else {
      forall k: nat ensures History(c', k) == AcceptedFor(c'.log, k) {
        assert History(c, k) == AcceptedFor(c.log, k);
      }
    }
  }

  lemma {:induction false} DeleteKeepsHistory(c: Connection, i: nat)
    requires KeysDistinct(c.many) && HistoryOk(c) && i < |c.many|
    ensures HistoryOk(EntryDeleted(c, i)) && KeysDistinct(EntryDeleted(c, i).many)
  {
    hide Without, KeysDistinct, InboxesOf, AcceptedFor, LiveInbox;
    var c' := EntryDeleted(c, i);
    LiveInboxWithout(c.many, i, 0);
    forall k: nat ensures History(c', k) == AcceptedFor(c'.log, k) {
      assert History(c, k) == AcceptedFor(c.log, k);
      InboxesSnoc(c.deleted, Removed(c.many[i]), k);
      LiveInboxWithout(c.many, i, k);
      if k == c.many[i].key { LiveInboxAt(c.many, i); }
    }
  }

  lemma {:induction false} LiveInboxAt(many: seq<Operation>, i: nat)
    requires KeysDistinct(many) && i < |many|
    ensures LiveInbox(many, many[i].key) == many[i].inbox
  {
    FindIs(many, i);
  }

  lemma {:induction false} CloseKeepsHistory(c: Connection)
    requires KeysDistinct(c.many) && HistoryOk(c)
    ensures HistoryOk(PeerClosed(c)) && KeysDistinct(PeerClosed(c).many)
  {
    var c' := PeerClosed(c);
    forall k: nat ensures History(c', k) == AcceptedFor(c'.log, k) {
      assert History(c, k) == AcceptedFor(c.log, k);
      LiveInboxCloseAll(c.many, k);
    }
  }

  /** An operation's own step changes no inbox. */
  lemma {:induction false} OwnStepKeepsHistory(c: Connection, i: nat, o: Operation)
    requires KeysDistinct(c.many) && HistoryOk(c) && i < |c.many|
    requires o.key == c.many[i].key && o.inbox == c.many[i].inbox
    ensures HistoryOk(c.(many := c.many[i := o])) && KeysDistinct(c.many[i := o])
  {
    hide KeysDistinct, LiveInbox, InboxesOf, AcceptedFor;
    var c' := c.(many := c.many[i := o]);
    LiveInboxUpdate(c.many, i, o, 0);
    LiveInboxAt(c.many, i);
    forall k: nat ensures History(c', k) == AcceptedFor(c'.log, k) {
      assert History(c, k) == AcceptedFor(c.log, k);
      LiveInboxUpdate(c.many, i, o, k);
    }
  }

  lemma {:induction false} StepKeepsClose(c: Connection, e: Event)
    requires CloseOk(c) && Enabled(c, e)
    ensures CloseOk(Step(c, e))
  {
  }

  predicate InboxesOk(ops: seq<Operation>) { forall i | 0 <= i < |ops| :: InboxOk(ops[i]) }

  lemma {:induction false} PostKeepsInboxes(c: Connection, msg: Message)
    requires InboxesOk(c.many)
    ensures InboxesOk(Post(c, msg).many)
  {
    hide Conserved, Deliver, Opened;
    var i := Find(c.many, msg.operationId);
    if msg.tag == Cancel {
      if i < |c.many| { FlagsDoNotMatter(c.many[i], c.many[i].(cancels := c.many[i].cancels + 1)); }
    } else if i < |c.many| {
      DeliverKeepsInbox(c.many[i], msg);
    } else {
      OpenedIsOk(msg);
    }
  }

  lemma {:induction false} FlagsDoNotMatter(o: Operation, p: Operation)
    requires InboxOk(o) && p.key == o.key && p.slot == o.slot
    requires p.inbox == o.inbox && p.passed == o.passed && p.lost == o.lost
    requires p.ackPending == o.ackPending && p.acks == o.acks
    ensures InboxOk(p)
  {
  }

  lemma {:induction false} StepKeepsInboxes(c: Connection, e: Event)
    requires InboxesOk(c.many) && InboxesOk(c.deleted) && Enabled(c, e)
    ensures InboxesOk(Step(c, e).many) && InboxesOk(Step(c, e).deleted)
  {
    hide InboxOk, PassOn;
    match e
    case Posted(msg) => PostKeepsInboxes(c, msg);
    case PeerClose =>
      forall i | 0 <= i < |c.many| ensures InboxOk(CloseAll(c.many)[i]) {
        FlagsDoNotMatter(c.many[i], CloseAll(c.many)[i]);
      }
    case Passing(i) => PassKeepsInbox(c.many[i]);
    case Acked(i) => AckKeepsInbox(c.many[i]);
    case Closing(i) => FlagsDoNotMatter(c.many[i], c.many[i].(closed := true));
    case Delete(i) => RemovalKeepsInbox(c.many[i]);
  }

  lemma {:induction false} StepKeepsInv(c: Connection, e: Event)
    requires Inv(c) && Enabled(c, e)
    ensures Inv(Step(c, e))
  {
    hide HistoryOk, KeysDistinct, CloseOk, InboxesOk;
    StepKeepsClose(c, e);
    StepKeepsInboxes(c, e);
    match e
    case Posted(msg) => PostKeepsHistory(c, msg);
    case PeerClose => CloseKeepsHistory(c);
    case Passing(i) => OwnStepKeepsHistory(c, i, PassOn(c.many[i]));
    case Acked(i) => OwnStepKeepsHistory(c, i, TakeAck(c.many[i]));
    case Closing(i) => OwnStepKeepsHistory(c, i, c.many[i].(closed := true));
    case Delete(i) => DeleteKeepsHistory(c, i);
  }

  /** In every run of a connection the invariant holds. */
  lemma {:induction false} RunKeepsInv(c: Connection, t: seq<Event>)
    requires Inv(c) && IsRun(c, t)
    ensures Inv(Run(c, t))
    decreases |t|
  {
    if t != [] {
      StepKeepsInv(c, t[0]);
      RunKeepsInv(Step(c, t[0]), t[1..]);
    }
  }

  // ---------------------------------------------------------------------------------------
  // What it means
  // ---------------------------------------------------------------------------------------

  /** The messages posted in a run, in order. */
  function PostsOf(t: seq<Event>): seq<Message> {
    if t == [] then [] else (if t[0].Posted? then [t[0].msg] else []) + PostsOf(t[1..])
  }

  function MessagesOf(log: seq<Outcome>): seq<Message> {
    seq(|log|, i requires 0 <= i < |log| => log[i].msg)
  }

  lemma {:induction false} EveryPostHasItsOutcome(c: Connection, t: seq<Event>)
    requires IsRun(c, t)
    ensures MessagesOf(Run(c, t).log) == MessagesOf(c.log) + PostsOf(t)
    decreases |t|
  {
    hide Step, Enabled, MessagesOf;
    if t != [] {
      var c' := Step(c, t[0]);
      EveryPostHasItsOutcome(c', t[1..]);
      StepLogs(c, t[0]);
    }
  }

  lemma {:induction false} StepLogs(c: Connection, e: Event)
    requires Enabled(c, e)
    ensures MessagesOf(Step(c, e).log) == MessagesOf(c.log) + if e.Posted? then [e.msg] else []
  {
    hide Find;
  }

  lemma {:induction false} FreshIsOk()
    ensures Inv(FRESH)
  {
  }

  /**
    In every run of a connection: the live operations have distinct keys; each holds exactly its
    own non-cancel messages, and over the life of the connection the operations with key `k` were
    handed, in order, the messages the log records as accepted for `k`; the log has one outcome
    for each message posted.
   */
  lemma {:induction false} MessagesAreRouted(t: seq<Event>, k: nat)
    requires IsRun(FRESH, t)
    ensures var c := Run(FRESH, t);
            && KeysDistinct(c.many)
            && (forall o <- c.many :: forall m <- o.inbox :: m.operationId == o.key && m.tag != Cancel)
            && History(c, k) == AcceptedFor(c.log, k)
            && MessagesOf(c.log) == PostsOf(t)
  {
    hide Step, Enabled, Conserved, KeysDistinct, CloseOk, AcceptedFor, MessagesOf, PostsOf, IsRun, Run;
    FreshIsOk();
    RunKeepsInv(FRESH, t);
    EveryPostHasItsOutcome(FRESH, t);
    NothingLogged();
  }

  lemma {:induction false} NothingLogged()
    ensures MessagesOf(FRESH.log) == []
  {
  }

  // ---------------------------------------------------------------------------------------
  // What is lost
  // ---------------------------------------------------------------------------------------

  /** An operation passed on or still holds all the messages it was handed, in order. */
  predicate Complete(o: Operation) { o.passed + Waiting(o) == o.inbox }

  lemma {:induction false} CompleteIff(o: Operation)
    requires Conserved(o)
    ensures Complete(o) <==> o.lost == []
    ensures o.slot.Empty? ==> (o.passed == o.inbox <==> o.lost == [])
  {
    assert |multiset(o.inbox)| == |o.inbox| && |multiset(o.lost)| == |o.lost|;
    assert |multiset(o.passed)| == |o.passed| && |multiset(Waiting(o))| == |Waiting(o)|;
    assert o.slot.Empty? ==> o.passed + Waiting(o) == o.passed;
  }

  predicate LostIn(ops: seq<Operation>) { exists i | 0 <= i < |ops| :: ops[i].lost != [] }

  predicate SomeLost(c: Connection) { LostIn(c.many) || LostIn(c.deleted) }

  /** The message finds its operation with another message still waiting. */
  predicate Overruns(c: Connection, e: Event) {
    && e.Posted? && e.msg.tag != Cancel
    && var i := Find(c.many, e.msg.operationId); i < |c.many| && c.many[i].slot.Full?
  }

  /** A message is handed to an operation, or the operation removed, while another message waits in its slot. */
  predicate Loses(c: Connection, e: Event) {
    Overruns(c, e) || (e.Delete? && e.i < |c.many| && c.many[e.i].slot.Full?)
  }

  /** No step of the run does that. */
  predicate Paced(c: Connection, t: seq<Event>)
    requires IsRun(c, t)
    decreases |t|
  {
    t != [] ==> !Loses(c, t[0]) && Paced(Step(c, t[0]), t[1..])
  }

  lemma {:induction false} LostUpdate(ops: seq<Operation>, i: nat, o: Operation)
    requires i < |ops| && (ops[i].lost != [] ==> o.lost != [])
    ensures LostIn(ops[i := o]) <==> LostIn(ops) || o.lost != []
  {
    var after := ops[i := o];
    if j :| 0 <= j < |ops| && ops[j].lost != [] { assert after[j].lost != []; }
    if o.lost != [] { assert after[i].lost != []; }
  }

  lemma {:induction false} LostSnoc(ops: seq<Operation>, o: Operation)
    ensures LostIn(ops + [o]) <==> LostIn(ops) || o.lost != []
  {
    var after := ops + [o];
    if j :| 0 <= j < |ops| && ops[j].lost != [] { assert after[j].lost != []; }
    if o.lost != [] { assert after[|ops|].lost != []; }
  }

  lemma {:induction false} LostWithout(ops: seq<Operation>, i: nat)
    requires i < |ops|
    ensures LostIn(ops) <==> LostIn(Without(ops, i)) || ops[i].lost != []
  {
    var rest := Without(ops, i);
    if j :| 0 <= j < |ops| && ops[j].lost != [] {
      assert j < i ==> rest[j] == ops[j];
      assert j > i ==> rest[j - 1] == ops[j];
    }
    if j :| 0 <= j < |rest| && rest[j].lost != [] {
      assert rest[j] == ops[if j < i then j else j + 1];
    }
  }

  lemma {:induction false} LostCloseAll(ops: seq<Operation>)
    ensures LostIn(CloseAll(ops)) <==> LostIn(ops)
  {
    if j :| 0 <= j < |ops| && ops[j].lost != [] { assert CloseAll(ops)[j].lost != []; }
  }

  lemma {:induction false} LostOwnStep(c: Connection, i: nat, o: Operation)
    requires i < |c.many| && o.lost == c.many[i].lost
    ensures SomeLost(c.(many := c.many[i := o])) <==> SomeLost(c)
  {
    hide LostIn;
    LostUpdate(c.many, i, c.many[i]);
    assert c.many[i := c.many[i]] == c.many;
    LostUpdate(c.many, i, o);
  }

  /** A message is lost in these two ways and in no other. */
  lemma {:induction false} LostByStep(c: Connection, e: Event)
    requires Enabled(c, e)
    ensures SomeLost(Step(c, e)) <==> SomeLost(c) || Loses(c, e)
  {
    hide LostIn, Without;
    match e
    case Posted(msg) =>
      var i, c' := Find(c.many, msg.operationId), Post(c, msg);
      if i < |c.many| {
        LostUpdate(c.many, i, c.many[i]);
        assert c.many[i := c.many[i]] == c.many;
        LostUpdate(c.many, i, c'.many[i]);
      } else if msg.tag == Other {
        LostSnoc(c.many, Opened(msg));
      }
    case PeerClose => LostCloseAll(c.many);
    case Passing(i) => LostOwnStep(c, i, PassOn(c.many[i]));
    case Acked(i) => LostOwnStep(c, i, TakeAck(c.many[i]));
    case Closing(i) => LostOwnStep(c, i, c.many[i].(closed := true));
    case Delete(i) =>
      LostWithout(c.many, i);
      LostSnoc(c.deleted, Removed(c.many[i]));
  }

  lemma {:induction false} LostInRun(c: Connection, t: seq<Event>)
    requires IsRun(c, t)
    ensures SomeLost(Run(c, t)) <==> SomeLost(c) || !Paced(c, t)
    decreases |t|
  {
    hide SomeLost, Loses;
    if t != [] {
      LostByStep(c, t[0]);
      LostInRun(Step(c, t[0]), t[1..]);
    }
  }

  /**
    In every run of a connection, each operation that was removed passed on all the messages it was
    handed, in order, and each live one passed on or still holds them, exactly when no message was
    handed to an operation, and no operation removed, while another message waited in its slot.
   */
  lemma {:induction false} NothingLostIff(t: seq<Event>)
    requires IsRun(FRESH, t)
    ensures var c := Run(FRESH, t);
      Paced(FRESH, t) <==> (forall o <- c.many :: Complete(o)) && (forall o <- c.deleted :: o.passed == o.inbox)
  {
    hide Conserved, Complete;
    FreshIsOk();
    RunKeepsInv(FRESH, t);
    LostInRun(FRESH, t);
    var c := Run(FRESH, t);
    forall o <- c.many ensures Complete(o) <==> o.lost == [] { CompleteIff(o); }
    forall o <- c.deleted ensures o.passed == o.inbox <==> o.lost == [] { CompleteIff(o); }
    assert forall i | 0 <= i < |c.many| :: c.many[i] in c.many;
    assert forall i | 0 <= i < |c.deleted| :: c.deleted[i] in c.deleted;
  }

  // ---------------------------------------------------------------------------------------
  // One message, and the close
  // ---------------------------------------------------------------------------------------

  predicate HasKey(many: seq<Operation>, k: nat) {
    exists o <- many :: o.key == k
  }

  /**
    One message: a non-cancel message is appended to the inbox of the operation with its
    operationId and of no other, an operation being opened exactly when there is none and the
    message is not an unsubscribe; a cancel changes no inbox and opens nothing.
   */
  lemma {:induction false} PostReachesItsOperation(c: Connection, msg: Message, k: nat)
    requires KeysDistinct(c.many)
    ensures var c', there := Post(c, msg), HasKey(c.many, msg.operationId);
            && (HasKey(c'.many, k) <==>
                  HasKey(c.many, k) || (k == msg.operationId && msg.tag == Other))
            && LiveInbox(c'.many, k) == LiveInbox(c.many, k)
                 + (if k == msg.operationId && (msg.tag == Other || (msg.tag == Unsubscribe && there))
                    then [msg] else [])
  {
    hide HasKey, LiveInbox, KeysDistinct, Find;
    var c', i := Post(c, msg), Find(c.many, msg.operationId);
    FindsKey(c.many, msg.operationId);
    FindsKey(c.many, k);
    FindsKey(c'.many, k);
    if i < |c.many| {
      LiveInboxAt(c.many, i);
      LiveInboxUpdate(c.many, i, c'.many[i], k);
      SameKeysSameFind(c.many, c'.many, k);
    } else if msg.tag == Other {
      NoLiveInbox(c.many, msg.operationId);
      LiveInboxSnoc(c.many, Opened(msg), k);
      SnocKey(c.many, Opened(msg), k);
    }
  }

  lemma {:induction false} NoLiveInbox(many: seq<Operation>, k: nat)
    requires Find(many, k) == |many|
    ensures LiveInbox(many, k) == []
  {
  }

  /** What the log says of a message: by its tag, and whether its operation was live. */
  lemma {:induction false} OutcomeIs(c: Connection, msg: Message)
    ensures var c', there := Post(c, msg), HasKey(c.many, msg.operationId);
      && |c'.log| == |c.log| + 1 && c'.log[..|c.log|] == c.log && c'.log[|c.log|].msg == msg
      && (c'.log[|c.log|].Canceled? <==> msg.tag == Cancel && there)
      && (c'.log[|c.log|].CancelMissed? <==> msg.tag == Cancel && !there)
      && (c'.log[|c.log|].Forwarded? <==> msg.tag != Cancel && there)
      && (c'.log[|c.log|].Dropped? <==> msg.tag == Unsubscribe && !there)
      && (c'.log[|c.log|].OpenedBy? <==> msg.tag == Other && !there)
  {
    hide HasKey, Find;
    FindsKey(c.many, msg.operationId);
  }

  /** How often the live operation with key `k` has been canceled. */
  function CancelsOf(many: seq<Operation>, k: nat): nat {
    var i := Find(many, k);
    if i < |many| then many[i].cancels else 0
  }

  /** A cancel raises by one the count of the live operation with its operationId, and of no other. */
  lemma {:induction false} CancelReachesItsOperation(c: Connection, msg: Message, k: nat)
    requires KeysDistinct(c.many)
    ensures CancelsOf(Post(c, msg).many, k) == CancelsOf(c.many, k)
      + if msg.tag == Cancel && k == msg.operationId && HasKey(c.many, k) then 1 else 0
  {
    hide HasKey, KeysDistinct;
    var c', i := Post(c, msg), Find(c.many, msg.operationId);
    FindsKey(c.many, k);
    if i < |c.many| {
      FindIs(c.many, i);
      SameKeysSameFind(c.many, c'.many, k);
    } else if msg.tag == Other {
      FindSnoc(c.many, Opened(msg), k);
    }
  }

  lemma {:induction false} FindSnoc(many: seq<Operation>, o: Operation, k: nat)
    ensures Find(many + [o], k) == if Find(many, k) < |many| || o.key == k then Find(many, k) else |many| + 1
  {
    hide Find;
    var i, j := Find(many, k), Find(many + [o], k);
    assert forall x | 0 <= x < |many| :: (many + [o])[x] == many[x];
    assert (many + [o])[|many|] == o;
    assert !(i < |many| && j < i) && !(i < |many| && i < j);
  }

  lemma {:induction false} FindsKey(many: seq<Operation>, k: nat)
    ensures HasKey(many, k) <==> Find(many, k) < |many|
  {
  }

  lemma {:induction false} SameKeysSameFind(a: seq<Operation>, b: seq<Operation>, k: nat)
    requires |a| == |b| && forall i | 0 <= i < |a| :: a[i].key == b[i].key
    ensures Find(a, k) == Find(b, k)
  {
  }

  lemma {:induction false} SnocKey(many: seq<Operation>, o: Operation, k: nat)
    ensures HasKey(many + [o], k) <==> HasKey(many, k) || o.key == k
  {
    assert (many + [o])[|many|] == o;
    assert forall x <- many :: x in many + [o];
  }

  /**
    The connection is closed back exactly once, by the step after which the peer has closed and no
    operation is left, and by no other.
   */
  lemma {:induction false} ClosedBackOnce(t: seq<Event>, e: Event)
    requires IsRun(FRESH, t) && Enabled(Run(FRESH, t), e)
    ensures var c, c' := Run(FRESH, t), Step(Run(FRESH, t), e);
            && (c.closedBack == 1 <==> c.otherClosedThis && c.many == [])
            && c.closedBack <= 1
            && (c'.closedBack > c.closedBack <==>
                  (c'.otherClosedThis && c'.many == []) && !(c.otherClosedThis && c.many == []))
  {
    FreshIsOk();
    RunKeepsInv(FRESH, t);
    StepKeepsInv(Run(FRESH, t), e);
  }

  // ---------------------------------------------------------------------------------------
  // The object
  // ---------------------------------------------------------------------------------------

  class ConnectionIn {
    var many: seq<Operation>
    var numEntries: nat
    var otherClosedThis: bool
    var thisClosedOther: bool
    ghost var closedBack: nat
    ghost var deleted: seq<Operation>
    ghost var log: seq<Outcome>

    ghost function Now(): Connection
      reads this
    {
      Connection(many, numEntries, otherClosedThis, thisClosedOther, closedBack, deleted, log)
    }

    constructor ()
      ensures Now() == FRESH
    {
      many, numEntries, otherClosedThis, thisClosedOther := [], 0, false, false;
      closedBack, deleted, log := 0, [], [];
    }

    /** `HashMap_Find` with the procedures above. */
    method FindOperation(operationId: nat) returns (i: nat)
      ensures i == Find(many, operationId)
    {
      i := 0;
      while i < |many| && many[i].key != operationId
        invariant i <= |many| && forall j | 0 <= j < i :: many[j].key != operationId
      {
        i := i + 1;
      }
    }

    method HandlePost(msg: Message)
      requires Inv(Now()) && !otherClosedThis
      modifies this
      ensures Now() == Post(old(Now()), msg) && Inv(Now())
    {
      hide Inv, Deliver, Opened, Find;
      StepKeepsInv(Now(), Posted(msg));
      var i := FindOperation(msg.operationId);
      if msg.tag == Cancel {
        if i < |many| {
          many := many[i := many[i].(cancels := many[i].cancels + 1)];
          log := log + [Canceled(msg)];
        } else {
          log := log + [CancelMissed(msg)];
        }
      } else if i < |many| {
        many := many[i := Deliver(many[i], msg)];
        log := log + [Forwarded(msg)];
      } else {
        if msg.tag == Unsubscribe {
          log := log + [Dropped(msg)];
          return;
        }
        many := many + [Opened(msg)];
        numEntries := numEntries + 1;
        log := log + [OpenedBy(msg)];
      }
    }

    /** `_StrandMethod_Entry_PostInternal` of entry `i`. */
    method HandlePassing(i: nat)
      requires Inv(Now()) && i < |many| && MayPass(many[i])
      modifies this`many
      ensures Now() == Step(old(Now()), Passing(i)) && Inv(Now())
    {
      StepKeepsInv(Now(), Passing(i));
      hide Inv;
      many := many[i := PassOn(many[i])];
    }

    /** The ack that operation `i` awaits arrives (`_StrandMethodImp_Ack`). */
    method HandleAck(i: nat)
      requires Inv(Now()) && i < |many| && many[i].ackPending
      modifies this`many
      ensures Now() == Step(old(Now()), Acked(i)) && Inv(Now())
    {
      StepKeepsInv(Now(), Acked(i));
      hide Inv;
      many := many[i := TakeAck(many[i])];
    }

    /** `_OperationOut_Close` and `_StrandMethod_Entry_CloseInternal` of operation `i`: closed once. */
    method HandleOperationClose(i: nat)
      requires Inv(Now()) && i < |many|
      modifies this`many
      ensures Now() == (if old(many[i].closed) then old(Now()) else Step(old(Now()), Closing(i))) && Inv(Now())
    {
      if !many[i].closed {
        StepKeepsInv(Now(), Closing(i));
        hide Inv;
        many := many[i := many[i].(closed := true)];
      }
    }

    method CloseConnection()
      requires !thisClosedOther
      modifies this`thisClosedOther, this`closedBack
      ensures Now() == CloseBack(old(Now()))
    {
      thisClosedOther := true;
      closedBack := closedBack + 1;
    }

    /** `StrandMany_CloseAllEntries`: every entry is told to close. */
    method CloseAllEntries()
      modifies this`many
      ensures many == CloseAll(old(many))
    {
      var i := 0;
      while i < |many|
        invariant 0 <= i <= |many| == |old(many)|
        invariant forall j | 0 <= j < i :: many[j] == old(many)[j].(closes := old(many)[j].closes + 1)
        invariant forall j | i <= j < |many| :: many[j] == old(many)[j]
      {
        many := many[i := many[i].(closes := many[i].closes + 1)];
        i := i + 1;
      }
    }

    method HandleClose()
      requires Inv(Now()) && !otherClosedThis
      modifies this
      ensures Now() == PeerClosed(old(Now())) && Inv(Now())
    {
      StepKeepsInv(Now(), PeerClose);
      assert !thisClosedOther;
      hide Inv;
      otherClosedThis := true;
      CloseAllEntries();
      if numEntries == 0 {
        CloseConnection();
      }
    }

    method HandleEntryDeleted(i: nat)
      requires Inv(Now()) && i < |many| && MayGo(many[i])
      modifies this
      ensures Now() == EntryDeleted(old(Now()), i) && Inv(Now())
    {
      StepKeepsInv(Now(), Delete(i));
      assert !thisClosedOther && numEntries == |many|;
      hide Inv;
      deleted := deleted + [Removed(many[i])];
      many := many[..i] + many[i + 1..];
      numEntries := numEntries - 1;
      if otherClosedThis && numEntries == 0 {
        CloseConnection();
      }
    }
  }
}
