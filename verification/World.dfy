/**
 The daemon's surroundings: the kernel's descriptors, the TLS library's handles
 and the debug target, seen through the events they take part in. Every event
 must be in order when it happens, so closing a descriptor twice, say, is a
 failed precondition.
 */
module World {
  import opened Basics
  import opened SessionTable
  import opened Protocol

  class Environment {
    var log: seq<Event>
    var monitor: Monitor

    ghost predicate Valid() reads this {
      Replay(log) == Some(monitor)
    }

    constructor ()
      ensures Valid() && log == [] && monitor == START
    {
      log, monitor := [], START;
    }

    method Emit(e: Event)
      requires Valid() && Enabled(monitor, e)
      modifies this
      ensures Valid() && log == old(log) + [e] && monitor == Apply(old(monitor), e)
    {
      ReplaySnoc(log, e);
      log := log + [e];
      monitor := Apply(monitor, e);
    }
  }
}
