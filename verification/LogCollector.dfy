// Collecting the log lines of a station into reports.

module LogCollector {
  import opened Basics
  import opened Collectors

  datatype Content = Number(x: real) | Text(text: string) | Byte(b: nat) | Word(w: nat)

  datatype Item = Item(name: string, content: Content, unit: string)

  datatype Report = Report(id: string, user: User, items: seq<Item>)

  datatype Env = Env(number: string -> Option<real>, integer: string -> Option<int>)

  const NUMBERS: set<string> := {
    "geoHeightMSL", "geoHorAccuracy", "geoLatitude", "geoLongitude", "geoVertAccuracy", "positionDOP",
    "RXBufUsage", "TXBufUsage", "adcSamplingTime", "antennaPower", "antennaStatus", "biasDAC", "biasSwitch",
    "calib_coeff2", "calib_coeff3", "calib_rsense", "calib_vdiv", "clockBias", "clockDrift", "fixStatus",
    "freqAccuracy", "ibias", "jammingLevel", "maxCNR", "maxRXBufUsage", "meanGeoHeightMSL", "preampAGC",
    "preampNoise", "rateAND", "rateXOR", "sats", "systemFreeMem", "systemFreeSwap", "systemLoadAvg",
    "systemUptime", "temperature", "thresh1", "thresh2", "timeAccuracy", "timeDOP", "ubloxUptime", "usedSats",
    "vbias", "vsense"
  }

  const TEXTS: set<string> := {"UBX_HW_Version", "UBX_Prot_Version", "UBX_SW_Version", "geoHash"}

  const BYTES: set<string> := {"gainSwitch", "polaritySwitch1", "polaritySwitch2", "preampSwitch1", "preampSwitch2"}

  // The item a line stands for, if its value can be read. A line with an unknown name
  // is kept whole.
  function ItemOf(env: Env, m: Message): Option<Item> {
    var name, text, unit := m.Field(1), m.Field(2), m.Field(3);
    if name in NUMBERS then
      match env.number(text) case Some(x) => Some(Item(name, Number(x), unit)) case None => None
    else if name in TEXTS then Some(Item(name, Text(text), ""))
    else if name in BYTES then
      match env.integer(text) case Some(n) => Some(Item(name, Byte(n % 0x100), unit)) case None => None
    else if name == "systemNrCPUs" then
      match env.integer(text) case Some(n) => Some(Item(name, Word(n % 0x1_0000), unit)) case None => None
    else Some(Item(name, Text(m.content), ""))
  }

  // What is kept of a line: its name, and a value of the kind that the name calls for. Only
  // numbers keep the unit that the line gives.
  lemma ItemLaw(env: Env, m: Message)
    ensures ItemOf(env, m).None? <==>
              || (m.Field(1) in NUMBERS && env.number(m.Field(2)).None?)
              || (m.Field(1) in BYTES + {"systemNrCPUs"} && env.integer(m.Field(2)).None?)
    ensures ItemOf(env, m).Some? ==>
              var it := ItemOf(env, m).value;
              && it.name == m.Field(1)
              && it.unit == (if it.content.Text? then "" else m.Field(3))
              && match it.content
                 case Number(x) => it.name in NUMBERS && env.number(m.Field(2)) == Some(x)
                 case Byte(b) => it.name in BYTES && Read(env, m, 256, b)
                 case Word(w) => it.name == "systemNrCPUs" && Read(env, m, 65536, w)
                 case Text(t) => it.name !in NUMBERS + BYTES + {"systemNrCPUs"}
                                 && t == if it.name in TEXTS then m.Field(2) else m.content
  {
  }

  // The value of the line is v, in the given number of values.
  predicate Read(env: Env, m: Message, size: nat, v: nat) {
    size > 0 && v < size && env.integer(m.Field(2)).Some? && (env.integer(m.Field(2)).value - v) % size == 0
  }

  predicate Accepted(env: Env, m: Message) {
    ItemOf(env, m).Some?
  }

  datatype State = State(user: User, first: int, item: Report)

  function Open(m: Message): State {
    State(m.user, m.time, NO_REPORT)
  }

  function Add(env: Env, c: State, m: Message): (Code, State) {
    if c.item.items != [] && m.time - c.first > LIMIT then (COMMIT, c)
    else
      var headed := if c.item.items == [] then c.item.(id := m.Field(0), user := c.user) else c.item;
      match ItemOf(env, m)
      case None => (ERROR, c.(item := headed))
      case Some(it) => (AGGREGATING, c.(item := headed.(items := headed.items + [it])))
  }

  function LogRules(env: Env): Rules<State, Report> {
    Rules(Open, (c, m) => Add(env, c, m), (c: State) => c.item)
  }

  predicate AllAccepted(env: Env, g: seq<Message>) {
    forall i :: 0 <= i < |g| ==> Accepted(env, g[i])
  }

  // The accepted lines of a station.
  function AcceptedOf(env: Env, h: seq<Message>): (g: seq<Message>)
    ensures AllAccepted(env, g)
  {
    if h == [] then []
    else
      AcceptedOf(env, h[..|h| - 1]) + if Accepted(env, h[|h| - 1]) then [h[|h| - 1]] else []
  }

  // The items of the accepted ones of some lines, in order.
  function Items(env: Env, g: seq<Message>): seq<Item> {
    if g == [] then []
    else
      Items(env, g[..|g| - 1]) + match ItemOf(env, g[|g| - 1]) case Some(it) => [it] case None => []
  }

  lemma {:induction false} ItemsOfAccepted(env: Env, h: seq<Message>)
    ensures Items(env, AcceptedOf(env, h)) == Items(env, h)
    ensures |AcceptedOf(env, h)| == |Items(env, h)|
  {
    if h != [] {
      var init, m := h[..|h| - 1], h[|h| - 1];
      ItemsOfAccepted(env, init);
      if Accepted(env, m) {
        ItemsOne(env, AcceptedOf(env, init), m);
      } else {
        assert AcceptedOf(env, h) == AcceptedOf(env, init);
      }
    }
  }

  lemma ItemsOne(env: Env, g: seq<Message>, m: Message)
    ensures Items(env, g + [m]) == Items(env, g) + match ItemOf(env, m) case Some(it) => [it] case None => []
  {
    assert (g + [m])[..|g|] == g;
  }

  lemma {:induction false} ItemsJoin(env: Env, a: seq<Message>, b: seq<Message>)
    ensures Items(env, a + b) == Items(env, a) + Items(env, b)
  {
    if b == [] {
      assert a + b == a;
    } else {
      var n := |b| - 1;
      ItemsJoin(env, a, b[..n]);
      assert (a + b)[..|a| + n] == a + b[..n];
    }
  }

  // A group of lines that make one report.
  predicate Group(env: Env, g: seq<Message>) {
    g != [] && AllAccepted(env, g) && forall i :: 0 <= i < |g| ==> g[i].time - g[0].time <= LIMIT
  }

  const NO_REPORT: Report := Report("", User("", ""), [])

  // The report that the lines make.
  function ReportOf(env: Env, g: seq<Message>): Report {
    if g == [] then NO_REPORT else Report(g[0].Field(0), g[0].user, Items(env, g))
  }

  // The reports that are over, and the lines of the open one.
  datatype Trace = Trace(closed: seq<seq<Message>>, open: seq<Message>)

  // The report is closed first if its time is over.
  function Ended(t: Trace, m: Message): Trace {
    if t.open != [] && m.time - t.open[0].time > LIMIT then Trace(t.closed + [t.open], []) else t
  }

  function Continue(env: Env, t: Trace, m: Message): Trace {
    var now := Ended(t, m);
    if Accepted(env, m) then now.(open := now.open + [m]) else now
  }

  function TraceOf(env: Env, h: seq<Message>): Trace {
    if h == [] then Trace([], []) else Continue(env, TraceOf(env, h[..|h| - 1]), h[|h| - 1])
  }

  predicate Sound(env: Env, t: Trace) {
    && (forall i :: 0 <= i < |t.closed| ==> Group(env, t.closed[i]))
    && (t.open != [] ==> Group(env, t.open))
  }

  lemma {:induction false} TraceSound(env: Env, h: seq<Message>)
    ensures Sound(env, TraceOf(env, h))
  {
    if h != [] {
      TraceSound(env, h[..|h| - 1]);
    }
  }

  // The groups put together are the accepted lines: none is lost and none is repeated.
  lemma {:induction false} TraceCovers(env: Env, h: seq<Message>)
    ensures Joined(TraceOf(env, h).closed) + TraceOf(env, h).open == AcceptedOf(env, h)
  {
    if h != [] {
      var t, m := TraceOf(env, h[..|h| - 1]), h[|h| - 1];
      TraceCovers(env, h[..|h| - 1]);
      assert (t.closed + [t.open])[..|t.closed|] == t.closed;
      AppendOne(Joined(t.closed), t.open, m);
    }
  }

  // What the station's view of the books is for given groups.
  function Told(env: Env, t: Trace): View<State, Report> {
    View(if t.open == [] then None else Some(State(t.open[0].user, t.open[0].time, ReportOf(env, t.open))),
         Reports(env, t.closed))
  }

  function Reports(env: Env, gs: seq<seq<Message>>): (rs: seq<Report>)
    ensures |rs| == |gs| && forall i :: 0 <= i < |gs| ==> rs[i] == ReportOf(env, gs[i])
  {
    if gs == [] then [] else Reports(env, gs[..|gs| - 1]) + [ReportOf(env, gs[|gs| - 1])]
  }

  lemma ReportsOne(env: Env, gs: seq<seq<Message>>, g: seq<Message>)
    ensures Reports(env, gs + [g]) == Reports(env, gs) + [ReportOf(env, g)]
  {
    assert (gs + [g])[..|gs|] == gs;
  }

  lemma {:induction false} SomeItems(env: Env, g: seq<Message>)
    requires g != [] && AllAccepted(env, g)
    ensures Items(env, g) != []
  {
    assert Accepted(env, g[|g| - 1]);
  }

  lemma ToldAdded(env: Env, t: Trace, m: Message)
    requires Sound(env, t) && Ended(t, m) == t
    ensures HandleView(LogRules(env), Told(env, t), m) == Told(env, Continue(env, t, m))
  {
    ItemsOne(env, t.open, m);
    if t.open != [] {
      SomeItems(env, t.open);
    }
  }

  lemma ToldEnded(env: Env, t: Trace, m: Message)
    requires Sound(env, t) && Ended(t, m) != t
    ensures HandleView(LogRules(env), Told(env, t), m) == HandleView(LogRules(env), Told(env, Ended(t, m)), m)
  {
    SomeItems(env, t.open);
    ReportsOne(env, t.closed, t.open);
  }

  lemma ToldOne(env: Env, t: Trace, m: Message)
    requires Sound(env, t)
    ensures HandleView(LogRules(env), Told(env, t), m) == Told(env, Continue(env, t, m))
  {
    if Ended(t, m) != t {
      ToldEnded(env, t, m);
    }
    ToldAdded(env, Ended(t, m), m);
  }

  lemma {:induction false} StationLaw(env: Env, h: seq<Message>, key: nat)
    requires forall i :: 0 <= i < |h| ==> h[i].key == key
    ensures Sound(env, TraceOf(env, h))
    ensures ViewOf(Run(LogRules(env), h), key) == Told(env, TraceOf(env, h))
  {
    TraceSound(env, h);
    if h != [] {
      var init, m := h[..|h| - 1], h[|h| - 1];
      StationLaw(env, init, key);
      HandleLocal(LogRules(env), Run(LogRules(env), init), m, key);
      ToldOne(env, TraceOf(env, init), m);
    }
  }

  // All items of some reports, in order.
  function AllItems(rs: seq<Report>): seq<Item> {
    if rs == [] then [] else AllItems(rs[..|rs| - 1]) + rs[|rs| - 1].items
  }

  lemma {:induction false} ReportsJoin(env: Env, gs: seq<seq<Message>>)
    ensures AllItems(Reports(env, gs)) == Items(env, Joined(gs))
  {
    if gs != [] {
      var n := |gs| - 1;
      ReportsJoin(env, gs[..n]);
      ItemsJoin(env, Joined(gs[..n]), gs[n]);
      assert Reports(env, gs)[..n] == Reports(env, gs[..n]);
    }
  }

  // The items in the open collector of a view.
  function OpenItems(view: View<State, Report>): seq<Item> {
    if view.open.Some? then view.open.value.item.items else []
  }

  // In any run, whatever is sent under other keys, the reports put for a key and its
  // open report hold exactly the items of its accepted lines, each once and in order.
  lemma LogLaw(env: Env, ms: seq<Message>, key: nat)
    ensures var view := ViewOf(Run(LogRules(env), ms), key);
            AllItems(view.puts) + OpenItems(view) == Items(env, Of(ms, key))
  {
    var h := Of(ms, key);
    var t := TraceOf(env, h);
    Independent(LogRules(env), ms, key);
    StationLaw(env, h, key);
    TraceCovers(env, h);
    ReportsJoin(env, t.closed);
    ItemsJoin(env, Joined(t.closed), t.open);
    ItemsOfAccepted(env, h);
  }

  predicate Ordered(h: seq<Message>) {
    forall i, j :: 0 <= i < j < |h| ==> h[i].time <= h[j].time
  }

  // The group begins after time x.
  predicate After(g: seq<Message>, x: int) {
    g != [] ==> g[0].time > x
  }

  predicate Apart(t: Trace) {
    && (forall i, j :: 0 <= i < j < |t.closed| && t.closed[i] != [] ==> After(t.closed[j], t.closed[i][0].time + LIMIT))
    && (forall i :: 0 <= i < |t.closed| && t.closed[i] != [] ==> After(t.open, t.closed[i][0].time + LIMIT))
  }

  predicate EndedBy(t: Trace, x: int) {
    forall i :: 0 <= i < |t.closed| && t.closed[i] != [] ==> t.closed[i][0].time + LIMIT < x
  }

  lemma StaysApart(env: Env, t: Trace, m: Message)
    requires Apart(t) && EndedBy(t, m.time)
    ensures Apart(Continue(env, t, m)) && EndedBy(Continue(env, t, m), m.time)
  {
  }

  // With a clock that does not run backwards, a report is closed only after its time is
  // over: the reports of a station begin more than the limit apart.
  lemma {:induction false} ReportsApart(env: Env, h: seq<Message>, now: int)
    requires Ordered(h) && (h != [] ==> h[|h| - 1].time <= now)
    ensures Apart(TraceOf(env, h)) && EndedBy(TraceOf(env, h), now)
  {
    if h != [] {
      var n := |h| - 1;
      ReportsApart(env, h[..n], h[n].time);
      StaysApart(env, TraceOf(env, h[..n]), h[n]);
    }
  }

  // The collector as an object that is filled in place.
  class Collector {
    const env: Env
    const user: User
    const first: int
    var item: Report

    function Value(): State
      reads this
    {
      State(user, first, item)
    }

    constructor (env: Env, m: Message)
      ensures Value() == Open(m) && this.env == env
    {
      this.env, user, first := env, m.user, m.time;
      item := NO_REPORT;
    }

    method Take(m: Message) returns (code: Code)
      modifies this
      ensures (code, Value()) == Add(env, old(Value()), m)
    {
      if item.items == [] {
        item := item.(id := m.Field(0), user := user);
      } else if m.time - first > LIMIT {
        return COMMIT;
      }
      var line := ItemOf(env, m);
      if line.None? {
        return ERROR;
      }
      item := item.(items := item.items + [line.value]);
      code := AGGREGATING;
    }
  }
}
