// The supervisor of the detector stations. Stations are held by value here;
// DetectorStation shows that the station objects behave like these values.

module StationSupervisor {
  import opened Basics
  import opened ClusterState
  import opened Events
  import opened Statistics
  import opened DetectorStation

  datatype Trigger = Trigger(hash: nat, status: Status, reason: Reason)

  // The statuses one knows from having seen all triggers.
  function Replay(ts: seq<Trigger>): map<nat, Status> {
    if ts == [] then map[]
    else Changed(Replay(ts[..|ts| - 1]), ts[|ts| - 1].hash, ts[|ts| - 1].status)
  }

  ghost function Statuses(ds: map<nat, Station>): map<nat, Status> {
    map h | h in ds :: ds[h].status
  }

  // How the cluster's mirror and the delete queue relate to the stations.
  ghost predicate Mirror(ds: map<nat, Station>, mirrored: map<nat, Status>, queue: seq<nat>) {
    && (forall h :: h in mirrored <==> h in ds && ds[h].status != Deleted)
    && (forall h :: h in mirrored ==> mirrored[h] == ds[h].status)
    && (forall i, j :: 0 <= i < j < |queue| ==> queue[i] != queue[j])
    && (forall h :: h in queue <==> h in ds && ds[h].status == Deleted)
  }

  lemma MirrorChange(ds: map<nat, Station>, mirrored: map<nat, Status>, queue: seq<nat>, h: nat, s: Station)
    requires Mirror(ds, mirrored, queue)
    requires h in ds ==> ds[h].status != Deleted
    ensures Mirror(ds[h := s], Changed(mirrored, h, s.status), if s.status == Deleted then queue + [h] else queue)
  {
  }

  lemma MirrorSame(ds: map<nat, Station>, mirrored: map<nat, Status>, queue: seq<nat>, h: nat, s: Station)
    requires Mirror(ds, mirrored, queue)
    requires h in ds && ds[h].status == s.status
    ensures Mirror(ds[h := s], mirrored, queue)
  {
  }

  lemma MirrorErase(ds: map<nat, Station>, mirrored: map<nat, Status>, queue: seq<nat>)
    requires |queue| > 0 && Mirror(ds, mirrored, queue)
    ensures Mirror(ds - {queue[0]}, mirrored, queue[1..])
  {
    assert forall h :: h in queue[1..] <==> h in queue && h != queue[0];
  }

  // The stations after each has been stepped.
  ghost function AllStepped(ds: map<nat, Station>, now: int, root: real -> real): map<nat, Station> {
    map h | h in ds :: ds[h].Stepped(now, root).0
  }

  ghost function WithoutDeleted(ds: map<nat, Station>): map<nat, Station> {
    map h | h in ds && ds[h].status != Deleted :: ds[h]
  }

  // No station has missed a step of its meters.
  ghost predicate AllGood(ds: map<nat, Station>) {
    forall h :: h in ds ==> ds[h].Good()
  }

  // No station misses a step at this time.
  ghost predicate AllCalm(ds: map<nat, Station>, now: int) {
    forall h :: h in ds ==> Calm(ds[h], now)
  }

  // The factor sent on: the largest of the reliable stations, and at least 1.
  ghost predicate IsLargest(ds: map<nat, Station>, f: Factor) {
    && (f == Finite(1.0) || Exceeds(f, Finite(1.0)))
    && (forall h :: h in ds && ds[h].status == Reliable ==> !Exceeds(ds[h].factor, f))
    && (f == Finite(1.0) || exists h :: h in ds && ds[h].status == Reliable && ds[h].factor == f)
  }

  // As long as no station has missed a step, the factor sent on is bounded.
  lemma LargestBounded(ds: map<nat, Station>, f: Factor)
    requires AllGood(ds) && IsLargest(ds, f)
    ensures Bounded(f)
  {
    if f != Finite(1.0) {
      var h :| h in ds && ds[h].status == Reliable && ds[h].factor == f;
      assert ds[h].Good();
    }
  }

  lemma GoodOne(ds: map<nat, Station>, h: nat, s: Station)
    ensures AllGood(ds) && s.Good() ==> AllGood(ds[h := s])
  {
  }

  lemma SteppedGood(ds: map<nat, Station>, now: int, root: real -> real)
    requires IsRoot(root) && AllGood(ds) && AllCalm(ds, now)
    ensures AllGood(AllStepped(ds, now, root))
  {
    forall h | h in ds ensures AllStepped(ds, now, root)[h].Good() {
      SteppedLaw(ds[h], now, root);
    }
  }

  class Supervisor {
    var detectors: map<nat, Station>
    var deleteDetectors: seq<nat>
    const state: State
    const root: real -> real
    // What has been put to the event and trigger sinks.
    var events: seq<Event>
    var triggers: seq<Trigger>

    // Holds at all times, also in the middle of a step.
    ghost predicate Consistent()
      reads this, state`detectors, state`totalDetectors, state`reliableDetectors
    {
      && IsRoot(root) && state.Valid() && Replay(triggers) == state.detectors
      && Mirror(detectors, state.detectors, deleteDetectors)
    }

    // Holds between steps: the mirror shows exactly the stations and their statuses,
    // the published numbers count them, and nothing waits to be deleted.
    ghost predicate Valid()
      reads this, state`detectors, state`totalDetectors, state`reliableDetectors
    {
      && Consistent() && deleteDetectors == [] && state.detectors == Statuses(detectors)
      && state.totalDetectors == |detectors|
    }

    constructor (state: State, root: real -> real)
      requires IsRoot(root) && state.Valid() && state.detectors == map[]
      ensures Valid() && detectors == map[] && this.state == state && triggers == [] && events == []
    {
      detectors, deleteDetectors, events, triggers := map[], [], [], [];
      this.state, this.root := state, root;
      new;
      assert Statuses(detectors) == map[];
    }

    // A consistent supervisor with an empty queue is valid.
    lemma Settled()
      requires Consistent() && deleteDetectors == []
      ensures Valid()
    {
      assert state.detectors == Statuses(detectors);
      assert state.detectors.Keys == detectors.Keys;
      assert |detectors.Keys| == |detectors| && |state.detectors.Keys| == |state.detectors|;
    }

    // A station's status has changed. Its entry is still there.
    method OnDetectorStatus(hash: nat, notice: Notice)
      requires hash in detectors && state.Valid() && Replay(triggers) == state.detectors
      modifies this`deleteDetectors, this`triggers
      modifies state`detectors, state`totalDetectors, state`reliableDetectors
      ensures state.Valid() && state.detectors == Changed(old(state.detectors), hash, notice.status)
      ensures Replay(triggers) == state.detectors
      ensures deleteDetectors ==
              if notice.status == Deleted then old(deleteDetectors) + [hash] else old(deleteDetectors)
      ensures triggers == old(triggers) + [Trigger(hash, notice.status, notice.reason)]
    {
      state.OnDetectorStatus(hash, notice.status);
      if notice.status == Deleted {
        deleteDetectors := deleteDetectors + [hash];
      }
      triggers := triggers + [Trigger(hash, notice.status, notice.reason)];
      assert triggers[..|triggers| - 1] == old(triggers);
    }

    // Replaces the value of one station and passes on what it has reported.
    method Update(h: nat, s: Station, notice: Option<Notice>)
      requires Consistent() && h in detectors && detectors[h].status != Deleted
      requires Reported(detectors[h].status, s.status, notice)
      modifies this`detectors, this`deleteDetectors, this`triggers
      modifies state`detectors, state`totalDetectors, state`reliableDetectors
      ensures Consistent() && detectors == old(detectors)[h := s]
      ensures s.status != Deleted ==> deleteDetectors == old(deleteDetectors)
      ensures triggers == old(triggers) +
              (if notice.Some? then [Trigger(h, notice.value.status, notice.value.reason)] else [])
    {
      if notice.Some? {
        MirrorChange(detectors, state.detectors, deleteDetectors, h, s);
        detectors := detectors[h := s];
        OnDetectorStatus(h, notice.value);
      } else {
        MirrorSame(detectors, state.detectors, deleteDetectors, h, s);
        detectors := detectors[h := s];
      }
    }

    // Adds a station and enables it.
    method Create(hash: nat, s: Station)
      requires Consistent() && hash !in detectors && s.status == Unreliable
      modifies this`detectors, this`deleteDetectors, this`triggers
      modifies state`detectors, state`totalDetectors, state`reliableDetectors
      ensures Consistent() && deleteDetectors == old(deleteDetectors)
      ensures detectors == old(detectors)[hash := s.(status := Created)]
      ensures triggers == old(triggers) + [Trigger(hash, Created, Miscellaneous)]
    {
      var (enabled, notice) := s.SetTo(Notice(Created, Miscellaneous));
      MirrorChange(detectors, state.detectors, deleteDetectors, hash, enabled);
      detectors := detectors[hash := enabled];
      OnDetectorStatus(hash, notice.value);
    }

    // A detector log: an unknown station is created and enabled, its meters starting at a
    // and b; a known one checks its reliability.
    method ProcessLog(hash: nat, location: Location, now: int, a: int, b: int)
      requires Valid()
      modifies this`detectors, this`deleteDetectors, this`triggers
      modifies state`detectors, state`totalDetectors, state`reliableDetectors
      ensures Valid() && detectors.Keys == old(detectors).Keys + {hash}
      ensures forall h :: h in old(detectors) && h != hash ==> detectors[h] == old(detectors)[h]
      ensures hash in old(detectors) ==> detectors[hash] == old(detectors)[hash].Logged(location, now, root).0
      ensures hash !in old(detectors) ==>
                detectors[hash] == Fresh(location, now, a, b).(status := Created)
                && triggers == old(triggers) + [Trigger(hash, Created, Miscellaneous)]
      ensures AllGood(old(detectors)) ==> AllGood(detectors)
    {
      if hash !in detectors {
        var s := Fresh(location, now, a, b);
        FreshGood(location, now, a, b, Created);
        GoodOne(detectors, hash, s.(status := Created));
        Create(hash, s);
      } else {
        var (s, notice) := detectors[hash].Logged(location, now, root);
        LoggedLaw(detectors[hash], location, now, root);
        GoodOne(detectors, hash, s);
        Update(hash, s, notice);
      }
      Settled();
    }

    // An event is passed on exactly if its station is known, the event is accurate
    // enough, and the station is reliable after having counted it.
    method GetEvent(e: Event)
      requires Valid()
      modifies this`detectors, this`deleteDetectors, this`triggers, this`events
      modifies state`detectors, state`totalDetectors, state`reliableDetectors
      ensures Valid()
      ensures e.data.hash !in old(detectors) ==>
                detectors == old(detectors) && events == old(events) && triggers == old(triggers)
      ensures e.data.hash in old(detectors) ==>
                var s := old(detectors)[e.data.hash].Counted(e.data).0;
                && detectors == old(detectors)[e.data.hash := s]
                && events == old(events) + (if Accepted(e.data) && s.status == Reliable then [e] else [])
      ensures events == old(events) +
              if e.data.hash in old(detectors) && e.data.timeAcc <= 1000 && e.data.fix == 1
                 && old(detectors)[e.data.hash].status == Reliable
              then [e] else []
      ensures AllGood(old(detectors)) ==> AllGood(detectors)
    {
      var h := e.data.hash;
      if h !in detectors {
        return;
      }
      var (s, notice) := detectors[h].Counted(e.data);
      CountedLaw(detectors[h], e.data);
      GoodOne(detectors, h, s);
      Update(h, s, notice);
      Settled();
      if !Accepted(e.data) {
        return;
      }
      if detectors[h].status == Reliable {
        events := events + [e];
      }
    }

    // Steps one station.
    method StepOne(h: nat, now: int)
      requires Consistent() && h in detectors && detectors[h].status != Deleted
      modifies this`detectors, this`deleteDetectors, this`triggers
      modifies state`detectors, state`totalDetectors, state`reliableDetectors
      ensures Consistent()
      ensures detectors == old(detectors)[h := old(detectors)[h].Stepped(now, root).0]
    {
      var (s, notice) := detectors[h].Stepped(now, root);
      SteppedLaw(detectors[h], now, root);
      Update(h, s, notice);
    }

    // Steps all stations and finds the largest factor of the reliable ones.
    method StepAll(now: int) returns (largest: Factor)
      requires Valid()
      modifies this`detectors, this`deleteDetectors, this`triggers
      modifies state`detectors, state`totalDetectors, state`reliableDetectors
      ensures Consistent() && detectors == AllStepped(old(detectors), now, root)
      ensures IsLargest(detectors, largest)
    {
      largest := Finite(1.0);
      var rest := detectors.Keys;
      ghost var was := detectors;
      ghost var target: map<nat, Station> := AllStepped(was, now, root);
      StepBegins(was, target);
      while rest != {}
        invariant Consistent() && StepProgress(was, target, detectors, rest, largest)
        decreases rest
      {
        var h :| h in rest;
        ghost var before := detectors;
        StepOne(h, now);
        StepProceeds(was, target, before, rest, largest, h);
        rest := rest - {h};
        if detectors[h].status == Reliable {
          if Exceeds(detectors[h].factor, largest) {
            largest := detectors[h].factor;
          }
        }
      }
      StepEnds(was, target, detectors, largest);
    }

    // Erases what is queued; by then every queued station still has its entry.
    method DeleteQueued()
      requires Consistent()
      modifies this`detectors, this`deleteDetectors
      ensures Valid()
      ensures detectors == WithoutDeleted(old(detectors))
    {
      while deleteDetectors != []
        invariant Consistent()
        invariant forall h :: h in detectors ==> h in old(detectors) && detectors[h] == old(detectors)[h]
        invariant forall h :: h in old(detectors) && h !in detectors ==> old(detectors)[h].status == Deleted
        decreases |deleteDetectors|
      {
        assert deleteDetectors[0] in deleteDetectors;
        MirrorErase(detectors, state.detectors, deleteDetectors);
        detectors := detectors - {deleteDetectors[0]};
        deleteDetectors := deleteDetectors[1..];
      }
      Settled();
    }

    // The periodic tick; the result is the factor put to the timebase sink. It is bounded
    // unless a station has missed a step.
    method ProcessTick(now: int) returns (largest: Factor)
      requires Valid()
      modifies this`detectors, this`deleteDetectors, this`triggers
      modifies state`detectors, state`totalDetectors, state`reliableDetectors
      ensures Valid() && detectors == WithoutDeleted(AllStepped(old(detectors), now, root))
      ensures IsLargest(detectors, largest)
      ensures AllGood(old(detectors)) && AllCalm(old(detectors), now) ==> AllGood(detectors) && Bounded(largest)
    {
      ghost var was := detectors;
      largest := StepAll(now);
      LargestRemains(detectors, largest);
      if AllGood(was) && AllCalm(was, now) {
        SteppedGood(was, now, root);
        LargestBounded(detectors, largest);
      }
      DeleteQueued();
    }
  }

  // How far stepping all stations has come: those in `rest` are still to be stepped.
  ghost predicate StepProgress(was: map<nat, Station>, target: map<nat, Station>, ds: map<nat, Station>,
                               rest: set<nat>, f: Factor)
  {
    && ds.Keys == was.Keys == target.Keys && rest <= was.Keys
    && (forall h :: h in rest ==> ds[h] == was[h] && was[h].status != Deleted)
    && (forall h :: h in ds && h !in rest ==> ds[h] == target[h])
    && IsLargest(target - rest, f)
  }

  lemma StepBegins(was: map<nat, Station>, target: map<nat, Station>)
    requires was.Keys == target.Keys && forall h :: h in was ==> was[h].status != Deleted
    ensures StepProgress(was, target, was, was.Keys, Finite(1.0))
  {
    assert target - was.Keys == map[];
  }

  function Larger(s: Station, f: Factor): Factor {
    if s.status == Reliable && Exceeds(s.factor, f) then s.factor else f
  }

  lemma StepProceeds(was: map<nat, Station>, target: map<nat, Station>, ds: map<nat, Station>,
                     rest: set<nat>, f: Factor, h: nat)
    requires StepProgress(was, target, ds, rest, f) && h in rest
    ensures StepProgress(was, target, ds[h := target[h]], rest - {h}, Larger(target[h], f))
  {
    LargestNext(target - rest, f, h, target[h]);
    assert (target - rest)[h := target[h]] == target - (rest - {h});
  }

  lemma StepEnds(was: map<nat, Station>, target: map<nat, Station>, ds: map<nat, Station>, f: Factor)
    requires StepProgress(was, target, ds, {}, f)
    ensures ds == target && IsLargest(ds, f)
  {
    assert target - {} == target;
  }

  lemma LargestRemains(ds: map<nat, Station>, f: Factor)
    requires IsLargest(ds, f)
    ensures IsLargest(WithoutDeleted(ds), f)
  {
    var es := WithoutDeleted(ds);
    if f != Finite(1.0) {
      var k :| k in ds && ds[k].status == Reliable && ds[k].factor == f;
      assert k in es && es[k] == ds[k];
    }
  }

  lemma LargestNext(ds: map<nat, Station>, f: Factor, h: nat, s: Station)
    requires IsLargest(ds, f) && h !in ds
    ensures IsLargest(ds[h := s], Larger(s, f))
  {
    var es, g := ds[h := s], Larger(s, f);
    if s.status == Reliable && Exceeds(s.factor, f) {
      assert es[h].status == Reliable && es[h].factor == g;
    } else if f != Finite(1.0) {
      var k :| k in ds && ds[k].status == Reliable && ds[k].factor == f;
      assert es[k] == ds[k];
    }
  }
}
