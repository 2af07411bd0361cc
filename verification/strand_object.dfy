/**
  An endpoint as Strand.h and strand.c keep it: flags set and cleared in place, the scheduled
  methods as bits of one word.  Every method here is a step of StrandProtocol, with the set of
  scheduled methods read off the word.
 */
module StrandEndpoint {
  import opened StrandProtocol

  /** A machine word as its bits, least significant first. */
  type Bits = seq<bool>

  const WORD_BITS: nat := 32

  /** The 1-based position of a method's bit: BitCompleteOpenAsync is 0x2, BitPostControl 0x20, BitCloseOther 0x800. */
  function BitIndex(m: Method): nat { if m.CompleteOpen? then 2 else 5 + m.Rank() }

  /** The entry of the method table at a bit's position. */
  function MethodOf(bitIndex: nat): (m: Method)
    ensures bitIndex == 2 || 6 <= bitIndex <= 12 ==> BitIndex(m) == bitIndex
  {
    match bitIndex
    case 2 => CompleteOpen
    case 6 => PostControl
    case 7 => Post
    case 8 => PostOther
    case 9 => Ack
    case 10 => AckOther
    case 11 => Close
    case _ => CloseOther
  }

  /** `x | bit` and `x & ~bit`. */
  function OrBit(x: Bits, m: Method): Bits
    requires |x| == WORD_BITS
  {
    x[BitIndex(m) - 1 := true]
  }

  function AndNotBit(x: Bits, m: Method): Bits
    requires |x| == WORD_BITS
  {
    x[BitIndex(m) - 1 := false]
  }

  /** `x` is `stateScheduled` for the scheduled methods `s`; its lowest bit says whether a method runs. */
  ghost predicate Represents(x: Bits, s: set<Method>, executing: bool) {
    && |x| == WORD_BITS && x[0] == executing
    && (forall m: Method :: x[BitIndex(m) - 1] <==> m in s)
    && (forall k | 0 < k < WORD_BITS && x[k] :: k == 1 || 5 <= k < 12)
  }

  /** The 1-based position of the lowest bit set, or 0. */
  function LowestBit(x: Bits): (n: nat)
    ensures n <= |x| && (n > 0 ==> x[n - 1])
    ensures forall k | 0 <= k < (if n == 0 then |x| else n - 1) :: !x[k]
  {
    if x == [] then 0 else if x[0] then 1 else
      var n := LowestBit(x[1..]);
      if n == 0 then 0 else n + 1
  }

  /** `GetFirstSetLSB`: the word is shifted right until its last bit is set. */
  method GetFirstSetLSB(x: Bits) returns (n: nat)
    ensures n == LowestBit(x)
  {
    if forall k | 0 <= k < |x| :: !x[k] { return 0; }
    var count, rest := 0, x;
    while !rest[0]
      invariant LowestBit(rest) > 0 && LowestBit(x) == count + LowestBit(rest)
      decreases |rest|
    {
      count, rest := count + 1, rest[1..];
    }
    n := count + 1;
  }

  /** The lowest bit of the word, the executing bit masked out, is that of the first scheduled method. */
  lemma {:induction false} LowestIsFirst(x: Bits, s: set<Method>, executing: bool)
    requires Represents(x, s, executing) && s != {}
    ensures LowestBit(x[0 := false]) == BitIndex(First(s))
  {
    var y, m := x[0 := false], First(s);
    var n := LowestBit(y);
    assert y[BitIndex(m) - 1];
    assert (n == 2 || 6 <= n <= 12) && y[n - 1];
    assert BitIndex(MethodOf(n)) == n;
    assert MethodOf(n) in s;
  }

  lemma {:induction false} Scheduling(x: Bits, s: set<Method>, executing: bool, m: Method)
    requires Represents(x, s, executing)
    ensures |x| == WORD_BITS && Represents(OrBit(x, m), s + {m}, executing)
  {
  }

  lemma {:induction false} Starting(x: Bits, s: set<Method>)
    requires Represents(x, s, false)
    ensures |x| == WORD_BITS && Represents(x[0 := true], s, true)
  {
  }

  lemma {:induction false} Ending(x: Bits, s: set<Method>, m: Method)
    requires Represents(x, s, true)
    ensures |x| == WORD_BITS && Represents(AndNotBit(x, m)[0 := false], s - {m}, false)
  {
  }

  /** Starting a scheduled call is making it, with the method marked as running. */
  lemma {:induction false} StartedByCall(p: Pair, m: Method)
    requires m == PostOther ==> p.left.otherMsg.Holding?
    ensures var q := p.(left := p.left.(running := Running(m)));
            Step(p, Left, Begin(m)) ==
              match m
              case PostOther => Step(q, Left, SendPost(p.left.otherMsg.msg))
              case AckOther => Step(q, Left, SendAck)
              case CloseOther => Step(q, Left, SendClose)
              case _ => Step(p, Left, Begin(m))
  {
  }

  /** Starting a method that the peer scheduled changes one flag. */
  lemma {:induction false} StartedReceiving(p: Pair, m: Method)
    requires m.CompleteOpen? || m.PostControl? || m.Post? || m.Ack? || m.Close?
    ensures var e := p.left.(running := Running(m));
            Step(p, Left, Begin(m)).right == p.right && Step(p, Left, Begin(m)).left ==
              match m
              case CompleteOpen => e.(isOpen := true)
              case Post => e.(otherAckPending := true)
              case Ack => e.(thisAckPending := false)
              case Close => e.(otherClosedThis := true)
              case _ => e
  {
    hide First;
  }

  lemma {:induction false} ReturnedFrom(p: Pair, m: Method)
    requires p.left.running == Running(m)
    ensures Step(p, Left, Return) == p.(left := p.left.(
      running := Idle, scheduled := p.left.scheduled - {m},
      stored := if m.Post? then Empty else p.left.stored,
      control := if m.PostControl? then Empty else p.left.control,
      otherMsg := if m.PostOther? then Empty else p.left.otherMsg))
  {
  }

  class Endpoint {
    var isOpen: bool
    var thisClosedOther: bool
    var thisAckPending: bool
    var otherClosedThis: bool
    var otherAckPending: bool
    var stateScheduled: Bits
    var running: Running
    var stored: Slot
    var control: Slot
    var otherMsg: Slot
    var finished: bool
    var other: Endpoint?
    ghost var scheduled: set<Method>

    ghost function Abs(): End
      reads this
    {
      End(isOpen, thisClosedOther, thisAckPending, otherClosedThis, otherAckPending,
          scheduled, running, stored, control, otherMsg, finished)
    }

    ghost predicate Valid()
      reads this
    {
      Represents(stateScheduled, scheduled, running != Idle)
    }

    /** Two endpoints of one interaction. */
    ghost predicate Linked()
      reads this, other
    {
      other != null && other != this && other.other == this && Valid() && other.Valid()
    }

    /** The state of the interaction seen from this side, which plays the left one. */
    ghost function State(): Pair
      requires other != null
      reads this, other
    {
      Pair(Abs(), other.Abs())
    }

    constructor (accepted: bool, ackPending: bool, ackOwed: bool)
      ensures Abs()
        == Opened(Async).right.(isOpen := accepted, thisAckPending := ackPending, otherAckPending := ackOwed)
      ensures Valid() && other == null
    {
      isOpen := accepted;
      thisClosedOther, thisAckPending, otherClosedThis, otherAckPending := false, ackPending, false, ackOwed;
      stateScheduled, scheduled, running := seq(WORD_BITS, _ => false), {}, Idle;
      stored, control, otherMsg, finished, other := Empty, Empty, Empty, false, null;
    }

    /** `_Strand_Schedule` as far as it marks the method; the loop below executes it. */
    method Schedule(m: Method)
      requires Valid()
      modifies this`stateScheduled, this`scheduled
      ensures Valid() && scheduled == old(scheduled) + {m}
    {
      hide Represents;
      Scheduling(stateScheduled, scheduled, running != Idle, m);
      stateScheduled := OrBit(stateScheduled, m);
      scheduled := scheduled + {m};
    }

    /** `Strand_AcceptOpenAsync`: the opener `o` completes the opening later, on its own strand. */
    method AcceptOpenAsync(o: Endpoint)
      requires o != this && Valid() && o.Valid()
      requires Abs() == Opened(Async).right.(isOpen := false) && o.Abs() == Abs()
      modifies this`other, this`isOpen, o`other, o`stateScheduled, o`scheduled
      ensures o.Linked() && o.other == this && o.State() == Opened(Async)
    {
      other, o.other := o, this;
      isOpen := true;
      o.Schedule(CompleteOpen);
    }

    /** `_Strand_Post_CommonImp` and the peer's `_StrandInteraction_Post`. */
    method Post(msg: nat)
      requires Linked() && MayPost(Abs())
      modifies this`thisAckPending, other`stored, other`stateScheduled, other`scheduled
      ensures Linked() && State() == Step(old(State()), Left, SendPost(msg))
    {
      thisAckPending := true;
      other.stored := Holding(msg);
      other.Schedule(Method.Post);
    }

    /** `_Strand_PostControl_Imp`. */
    method PostControl(msg: nat)
      requires Linked() && !thisClosedOther
      modifies other`control, other`stateScheduled, other`scheduled
      ensures Linked() && State() == Step(old(State()), Left, SendControl(msg))
    {
      other.control := Holding(msg);
      other.Schedule(Method.PostControl);
    }

    /** `_Strand_Ack_Imp`. */
    method Ack()
      requires Linked() && MayAck(Abs())
      modifies this`otherAckPending, this`isOpen, other`stateScheduled, other`scheduled
      ensures Linked() && State() == Step(old(State()), Left, SendAck)
    {
      otherAckPending := false;
      isOpen := true;
      other.Schedule(Method.Ack);
    }

    /** `_Strand_Close_Imp`. */
    method Close()
      requires Linked() && MayClose(Abs())
      modifies this`thisClosedOther, other`stateScheduled, other`scheduled
      ensures Linked() && State() == Step(old(State()), Left, SendClose)
    {
      thisClosedOther := true;
      other.Schedule(Method.Close);
    }

    /** `Strand_SchedulePost`, `Strand_ScheduleAck` and `Strand_ScheduleClose`: the call is made later, by the loop. */
    method SchedulePost(msg: nat)
      requires Linked() && PostOther !in scheduled
      modifies this`otherMsg, this`stateScheduled, this`scheduled
      ensures Linked() && State() == Step(old(State()), Left, Action.SchedulePost(msg))
    {
      otherMsg := Holding(msg);
      Schedule(PostOther);
    }

    method ScheduleAck()
      requires Linked()
      modifies this`stateScheduled, this`scheduled
      ensures Linked() && State() == Step(old(State()), Left, Action.ScheduleAck)
    {
      Schedule(AckOther);
    }

    method ScheduleClose()
      requires Linked()
      modifies this`stateScheduled, this`scheduled
      ensures Linked() && State() == Step(old(State()), Left, Action.ScheduleClose)
    {
      Schedule(CloseOther);
    }

    /**
      `_StrandMethodImp_PostControl`, `_Post`, `_Ack` and `_Close`: what the peer sent takes effect;
      and `_StrandMethod_CompleteOpenAsync`.
     */
    method Receive(m: Method)
      requires Linked() && running == Idle && scheduled != {} && m == First(scheduled)
      requires m.CompleteOpen? || m.PostControl? || m.Post? || m.Ack? || m.Close?
      modifies this`stateScheduled, this`running, this`isOpen, this`otherAckPending, this`thisAckPending,
        this`otherClosedThis
      ensures Linked() && State() == Step(old(State()), Left, Begin(m))
    {
      hide First, Step, Represents;
      Starting(stateScheduled, scheduled);
      stateScheduled := stateScheduled[0 := true];
      running := Running(m);
      match m {
        case CompleteOpen => isOpen := true;
        case Post => otherAckPending := true;
        case Ack => thisAckPending := false;
        case Close => otherClosedThis := true;
        case _ =>
      }
      StartedReceiving(old(State()), m);
    }

    /** `_StrandMethod_PostOther`, `_AckOther` and `_CloseOther`: a call scheduled earlier is made. */
    method CallOther(m: Method)
      requires Linked() && running == Idle && scheduled != {} && m == First(scheduled)
      requires (m.PostOther? && MayPost(Abs()) && otherMsg.Holding?) || (m.AckOther? && MayAck(Abs()))
            || (m.CloseOther? && MayClose(Abs()))
      modifies this, other
      ensures Linked() && State() == Step(old(State()), Left, Begin(m))
    {
      hide First, Step, Represents;
      StartedByCall(State(), m);
      Starting(stateScheduled, scheduled);
      stateScheduled := stateScheduled[0 := true];
      running := Running(m);
      if m == PostOther {
        Post(otherMsg.msg);
      } else if m == AckOther {
        Ack();
      } else {
        Close();
      }
    }

    /** `_Strand_ExecuteLoop` up to the call of the user's function: the lowest bit names the method. */
    method BeginNext()
      requires Linked() && running == Idle && scheduled != {}
      requires First(scheduled) == PostOther ==> MayPost(Abs()) && otherMsg.Holding?
      requires First(scheduled) == AckOther ==> MayAck(Abs())
      requires First(scheduled) == CloseOther ==> MayClose(Abs())
      modifies this, other
      ensures Linked() && State() == Step(old(State()), Left, Begin(First(old(scheduled))))
    {
      LowestIsFirst(stateScheduled, scheduled, false);
      hide LowestBit, First, Step;
      var bitIndex := GetFirstSetLSB(stateScheduled[0 := false]);
      var m := MethodOf(bitIndex);
      if m.PostOther? || m.AckOther? || m.CloseOther? {
        CallOther(m);
      } else {
        Receive(m);
      }
    }

    /** `Message_Release` on the message that a method was given. */
    method LetGo(m: Method)
      modifies this`stored, this`control, this`otherMsg
      ensures stored == (if m.Post? then Empty else old(stored))
      ensures control == (if m.PostControl? then Empty else old(control))
      ensures otherMsg == (if m.PostOther? then Empty else old(otherMsg))
    {
      if m == Method.Post {
        stored := Empty;
      } else if m == Method.PostControl {
        control := Empty;
      } else if m == PostOther {
        otherMsg := Empty;
      }
    }

    /** The method returns: `_DisableMethodBit`, and the message it was given is let go. */
    method EndCurrent()
      requires Linked() && running.Running?
      modifies this`stateScheduled, this`scheduled, this`running, this`stored, this`control, this`otherMsg
      ensures Linked() && State() == Step(old(State()), Left, Return)
    {
      hide Step, Represents;
      var m := running.m;
      Ending(stateScheduled, scheduled, m);
      stateScheduled := AndNotBit(stateScheduled, m)[0 := false];
      scheduled := scheduled - {m};
      running := Idle;
      LetGo(m);
      ReturnedFrom(old(State()), m);
    }
  }
}
