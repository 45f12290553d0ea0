// The supervisor of the whole cluster: event counters and a mirror of the
// detectors' statuses.

module ClusterState {

  // The event counters; `outgoing` is keyed by coincidence level.
  datatype Counters = Counters(incoming: nat, outgoing: map<nat, nat>, maximumN: nat, bufferLength: nat) {
    function At(n: nat): nat {
      if n in outgoing then outgoing[n] else 0
    }

    function CountIncoming(): Counters {
      this.(incoming := incoming + 1)
    }

    function CountOutgoing(n: nat): Counters {
      this.(outgoing := outgoing[n := At(n) + 1], maximumN := if maximumN < n then n else maximumN)
    }
  }

  datatype Status = Invalid | Deleted | Created | Unreliable | Reliable

  // A map of statuses after one change; a deleted detector is forgotten.
  function Changed(m: map<nat, Status>, hash: nat, status: Status): map<nat, Status> {
    if status == Deleted then m - {hash} else m[hash := status]
  }

  ghost function ReliableIn(m: map<nat, Status>): set<nat> {
    set h | h in m && m[h] == Reliable
  }

  lemma TakeOut(m: map<nat, Status>, rest: set<nat>, h: nat)
    requires h in rest && rest <= m.Keys
    ensures |ReliableIn(m) - (rest - {h})| == |ReliableIn(m) - rest| + (if m[h] == Reliable then 1 else 0)
  {
    if m[h] == Reliable {
      assert ReliableIn(m) - (rest - {h}) == (ReliableIn(m) - rest) + {h};
    } else {
      assert ReliableIn(m) - (rest - {h}) == ReliableIn(m) - rest;
    }
  }

  method CountReliable(m: map<nat, Status>) returns (reliable: nat)
    ensures reliable == |ReliableIn(m)|
  {
    reliable := 0;
    var rest := m.Keys;
    assert ReliableIn(m) - rest == {};
    while rest != {}
      invariant rest <= m.Keys
      invariant reliable == |ReliableIn(m) - rest|
      decreases |rest|
    {
      var h :| h in rest;
      TakeOut(m, rest, h);
      if m[h] == Reliable {
        reliable := reliable + 1;
      }
      rest := rest - {h};
    }
    assert ReliableIn(m) - {} == ReliableIn(m);
  }

  class State {
    var incoming: nat
    var outgoing: map<nat, nat>
    var maximumN: nat
    var bufferLength: nat
    var timebase: int
    var timeout: int
    var detectors: map<nat, Status>
    var totalDetectors: nat
    var reliableDetectors: nat

    function EventCounters(): Counters
      reads this
    {
      Counters(incoming, outgoing, maximumN, bufferLength)
    }

    // The published numbers describe the mirrored detectors.
    ghost predicate Valid()
      reads `detectors, `totalDetectors, `reliableDetectors
    {
      && totalDetectors == |detectors|
      && reliableDetectors == |ReliableIn(detectors)|
    }

    constructor ()
      ensures Valid() && detectors == map[] && EventCounters() == Counters(0, map[], 0, 0)
    {
      incoming, outgoing, maximumN, bufferLength := 0, map[], 0, 0;
      timebase, timeout := 0, 0;
      detectors, totalDetectors, reliableDetectors := map[], 0, 0;
      new;
      assert ReliableIn(detectors) == {};
    }

    method TimeStatus(newTimebase: int, newTimeout: int)
      modifies this`timebase, this`timeout
      ensures timebase == newTimebase && timeout == newTimeout
    {
      timebase, timeout := newTimebase, newTimeout;
    }

    // One more event in, or one more event of level n out.
    method IncreaseEventCount(isIncoming: bool, n: nat)
      modifies this`incoming, this`outgoing, this`maximumN
      ensures EventCounters() ==
              if isIncoming then old(EventCounters()).CountIncoming() else old(EventCounters()).CountOutgoing(n)
    {
      if isIncoming {
        incoming := incoming + 1;
      } else {
        outgoing := outgoing[n := (if n in outgoing then outgoing[n] else 0) + 1];
        if maximumN < n {
          maximumN := n;
        }
      }
    }

    method SetQueueSize(size: nat)
      modifies this`bufferLength
      ensures bufferLength == size
    {
      bufferLength := size;
    }

    // Mirrors one status change.
    method OnDetectorStatus(hash: nat, status: Status)
      modifies this`detectors, this`totalDetectors, this`reliableDetectors
      ensures Valid()
      ensures detectors == Changed(old(detectors), hash, status)
    {
      detectors := detectors[hash := status];
      if status == Deleted {
        if hash in detectors {
          detectors := detectors - {hash};
        }
      }
      var reliable := CountReliable(detectors);
      totalDetectors := |detectors|;
      reliableDetectors := reliable;
    }
  }
}
