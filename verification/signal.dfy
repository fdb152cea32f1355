/**
 * The signal record of core/elements.py: a mutable object carrying the
 * signal power, the accumulated noise and latency, and the labels of the
 * nodes still to visit (front = next hop).
 */
module Signal {

  datatype Option<T> = None | Some(value: T)

  /** The value of a signal record at one instant. */
  datatype SignalState = SignalState(power: real, noise: real, latency: real, path: seq<string>)

  /** `drop_node` on a path value: the first label goes; an empty path stays empty. */
  function DropFirst(path: seq<string>): (rest: seq<string>)
    ensures path == [] ==> rest == []
    ensures path != [] ==> [path[0]] + rest == path && |rest| == |path| - 1
  {
    if path == [] then [] else path[1..]
  }

  /** `next_node` on a path value: the front label, or None on an empty path. */
  function Head(path: seq<string>): (next: Option<string>)
    ensures next.None? <==> path == []
    ensures next.Some? ==> [next.value] + DropFirst(path) == path
  {
    if path == [] then None else Some(path[0])
  }

  class SignalInformation {
    var signalPower: real
    var noisePower: real
    var latency: real
    var path: seq<string>

    function State(): SignalState
      reads this
    {
      SignalState(signalPower, noisePower, latency, path)
    }

    /** A new signal starts with no noise and no latency; its path is its own copy. */
    constructor (signalPower: real, path: seq<string>)
      ensures State() == SignalState(signalPower, 0.0, 0.0, path)
    {
      this.signalPower := signalPower;
      this.noisePower := 0.0;
      this.latency := 0.0;
      this.path := path;
    }

    /** A copy of the remaining path; the record is left as it was. */
    method GetPath() returns (copy: seq<string>)
      ensures copy == path
    {
      copy := path;
    }

    method AddSignalPower(increment: real)
      modifies this
      ensures State() == old(State()).(power := old(signalPower) + increment)
    {
      signalPower := signalPower + increment;
    }

    method AddNoisePower(increment: real)
      modifies this
      ensures State() == old(State()).(noise := old(noisePower) + increment)
    {
      noisePower := noisePower + increment;
    }

    method AddLatency(increment: real)
      modifies this
      ensures State() == old(State()).(latency := old(latency) + increment)
    {
      latency := latency + increment;
    }

    /** Removes the front label if there is one; nothing else changes. */
    method DropNode()
      modifies this
      ensures State() == old(State()).(path := DropFirst(old(path)))
      ensures old(path) == [] ==> path == []
      ensures old(path) != [] ==> path == old(path)[1..]
    {
      if path != [] {
        path := path[1..];
      }
    }

    /** The label to visit next, or None once the path is exhausted. */
    function NextNode(): (next: Option<string>)
      reads this
      ensures next.None? <==> path == []
      ensures next.Some? ==> next.value == path[0]
    {
      Head(path)
    }
  }
}
