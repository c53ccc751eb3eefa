/** The bounded waiting room for admission. */
module Queue {

  datatype Room = Room(waiting: int, max: int)

  predicate CanEnter(r: Room) {
    r.max > 0 && r.waiting < r.max
  }

  function Entered(r: Room): Room {
    if CanEnter(r) then r.(waiting := r.waiting + 1) else r
  }

  function Left(r: Room): Room {
    if r.waiting > 0 then r.(waiting := r.waiting - 1) else r
  }

  /** What wakes a waiter: its deadline, or a tick at which it tries again. A ready tick may win either way. */
  datatype Wake = Deadline | Tick(granted: bool)

  predicate Decides(w: Wake) {
    w == Deadline || w == Tick(true)
  }

  class RequestQueue {
    var waiting: int
    var max: int

    function State(): Room
      reads this
    {
      Room(waiting, max)
    }

    constructor (max: int)
      ensures State() == Room(0, max)
    {
      waiting := 0;
      this.max := max;
    }

    method SetMax(max: int)
      modifies this
      ensures State() == old(State()).(max := max)
    {
      this.max := max;
    }

    method Enter() returns (ok: bool)
      modifies this
      ensures ok <==> 0 < old(max) && old(waiting) < old(max)
      ensures State() == Entered(old(State()))
      ensures max == old(max) && waiting == old(waiting) + (if ok then 1 else 0)
    {
      if max <= 0 || waiting >= max {
        return false;
      }
      waiting := waiting + 1;
      return true;
    }

    method Leave()
      modifies this
      ensures State() == Left(old(State()))
      ensures max == old(max) && waiting == if old(waiting) > 0 then old(waiting) - 1 else old(waiting)
    {
      if waiting > 0 {
        waiting := waiting - 1;
      }
    }

    /**
     Tries once, then waits in the room and tries at every tick until one is granted or the deadline
     wins. `first` is the answer to the first try and `wakes` what happens until the wait ends. The
     room is left as it was found. `tries` counts the attempts made.
     */
    method Wait(first: bool, wakes: seq<Wake>) returns (granted: bool, queued: bool, tries: nat)
      requires waiting >= 0
      requires exists i :: 0 <= i < |wakes| && Decides(wakes[i])
      modifies this
      ensures State() == old(State())
      ensures queued <==> !first && 0 < old(max) && old(waiting) < old(max)
      ensures !queued ==> granted == first && tries == 1
      ensures queued ==> exists i :: 0 <= i < |wakes| && wakes[i] == (if granted then Tick(true) else Deadline)
                                     && (forall j :: 0 <= j < i ==> wakes[j] == Tick(false))
                                     && tries == 1 + i + (if granted then 1 else 0)
    {
      tries := 1;
      if first {
        return true, false, tries;
      }
      var entered := Enter();
      if !entered {
        return false, false, tries;
      }
      var i := 0;
      while true
        invariant 0 <= i < |wakes| && tries == 1 + i
        invariant forall j :: 0 <= j < i ==> wakes[j] == Tick(false)
        invariant exists j :: i <= j < |wakes| && Decides(wakes[j])
        invariant State() == Entered(old(State()))
        decreases |wakes| - i
      {
        match wakes[i]
        case Deadline =>
          Leave();
          return false, true, tries;
        case Tick(ok) =>
          tries := tries + 1;
          if ok {
            Leave();
            return true, true, tries;
          }
          i := i + 1;
      }
    }
  }
}
