/** Stack frames as far as locks are concerned: synchronized methods and the flags of their frames. */
module Frames {
  import opened Locks

  /** The flags of a frame for one kind of lock: it has still to be asked for, it has been asked for, it is held. */
  datatype Sync = Sync(need: bool, pending: bool, held: bool)

  /** A frame: its sub-thread, what it locks if its method is synchronized, and its flags. */
  datatype Frame = Frame(sub: nat, resource: Resource, global: Sync, own: Sync)

  /** A request that has been granted is held. */
  function Got(s: Sync): Sync {
    if s.pending then s.(pending := false, held := true) else s
  }

  function Granted(f: Frame): Frame {
    f.(global := Got(f.global), own := Got(f.own))
  }

  /** The stack of a thread that has been granted a lock. */
  function GrantedTop(stack: seq<Frame>): seq<Frame> {
    if stack == [] then stack else stack[..|stack| - 1] + [Granted(stack[|stack| - 1])]
  }

  /** The stacks after the lock of `s.locks[l]` has been left to `owners`. */
  function AfterRegrant(s: State, l: nat, owners: seq<Owner>, stacks: seq<seq<Frame>>): (r: seq<seq<Frame>>)
    requires l < |s.locks| && (s.locks[l].requests != [] ==> s.locks[l].requests[0].sub < |s.home| && s.home[s.locks[l].requests[0].sub] < |stacks|)
    ensures |r| == |stacks|
  {
    if owners != [] || s.locks[l].requests == [] then stacks
    else
      var th := s.home[s.locks[l].requests[0].sub];
      stacks[th := GrantedTop(stacks[th])]
  }
}
