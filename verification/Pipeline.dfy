// The part of the processing chain that decides how long the filter waits:
// stations feed the timebase, which feeds the filter.

module Pipeline {
  import opened FilterModel
  import opened Timeouts
  import opened DetectorStation
  import CoincidenceFilter
  import StationSupervisor
  import TimebaseSupervisor

  // One beat of the chain: the stations' tick and the timebase together set the timeout of
  // the filter. While no station has missed a step of its meters, it is always between
  // 800 ms and 960 s. An infinite factor leaves the filter without a defined timeout.
  method Beat(stations: StationSupervisor.Supervisor, timebase: TimebaseSupervisor.Timebase,
              filter: CoincidenceFilter.Filter, now: int)
    returns (base: int, factor: Factor)
    requires stations.Valid() && timebase.Valid() && filter.Valid()
    requires stations.state == filter.supervisor
    modifies stations, stations.state, timebase, filter`timeout
    ensures stations.Valid() && timebase.Valid() && filter.Valid()
    ensures StationSupervisor.IsLargest(stations.detectors, factor)
    ensures factor.Finite? ==> filter.timeout == TimeoutFor(base, factor.x)
    ensures var was := old(stations.detectors);
            StationSupervisor.AllGood(was) && StationSupervisor.AllCalm(was, now) ==>
              StationSupervisor.AllGood(stations.detectors) && Bounded(factor) && Sane(filter.timeout)
  {
    factor := stations.ProcessTick(now);
    base := Forward(timebase, filter, factor, now);
  }

  // The timebase and the filter take a factor.
  method Forward(timebase: TimebaseSupervisor.Timebase, filter: CoincidenceFilter.Filter, factor: Factor, now: int)
    returns (base: int)
    requires timebase.Valid() && filter.Valid()
    modifies timebase, filter`timeout, filter.supervisor`timebase, filter.supervisor`timeout
    ensures timebase.Valid() && filter.Valid()
    ensures factor.Finite? ==> filter.timeout == TimeoutFor(base, factor.x)
    ensures Bounded(factor) ==> Sane(filter.timeout)
  {
    base := timebase.GetTimebase(now);
    if factor.Finite? {
      if Bounded(factor) {
        TimeoutForSane(base, factor.x);
      }
      filter.GetTimebase(base, factor.x);
    }
  }
}
