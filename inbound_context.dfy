/**
 * The loop guard: the one `ThreadLocal<Boolean>` flag that the inbound
 * bridge sets around a local delivery and that the outbound bridge reads.
 * Inbound dispatch is sequential, so one cell models the thread's value.
 */
module LoopGuard {
  import opened Options

  class InboundContext {
    /** The thread's current value: None when nothing is set or it was removed. */
    var value: Option<bool>

    /** A thread that never called `markInbound` holds no value. */
    constructor ()
      ensures value == None
      ensures !IsInbound()
    {
      value := None;
    }

    /** `isInbound`: only a stored `Boolean.TRUE` counts as set. */
    predicate IsInbound()
      reads this
      ensures value.None? ==> !IsInbound()
      ensures value == Some(false) ==> !IsInbound()
      ensures IsInbound() ==> value == Some(true)
    {
      value == Some(true)
    }

    /** `markInbound`: store `TRUE`, whatever was there. */
    method MarkInbound()
      modifies this
      ensures value == Some(true)
      ensures IsInbound()
    {
      value := Some(true);
    }

    /** `clearInbound`: remove the value, whatever was there. */
    method ClearInbound()
      modifies this
      ensures value == None
      ensures !IsInbound()
    {
      value := None;
    }
  }

  /**
   * Marking twice leaves the same state as marking once, and so does
   * clearing, from any starting value.
   */
  method MarkAndClearIdempotent(initial: Option<bool>)
    returns (markedOnce: Option<bool>, markedTwice: Option<bool>,
             clearedOnce: Option<bool>, clearedTwice: Option<bool>)
    ensures markedOnce == markedTwice && markedOnce == Some(true)
    ensures clearedOnce == clearedTwice && clearedOnce == None
  {
    var once := new InboundContext();
    once.value := initial;
    once.MarkInbound();
    markedOnce := once.value;
    var twice := new InboundContext();
    twice.value := initial;
    twice.MarkInbound();
    twice.MarkInbound();
    markedTwice := twice.value;
    once.value := initial;
    once.ClearInbound();
    clearedOnce := once.value;
    twice.value := initial;
    twice.ClearInbound();
    twice.ClearInbound();
    clearedTwice := twice.value;
  }
}
