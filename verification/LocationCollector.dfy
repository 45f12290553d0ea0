// Collecting the location of a station from its log lines.

module LocationCollector {
  import opened Basics
  import opened Collectors

  datatype Quantity = Height | HorAccuracy | Latitude | Longitude | VertAccuracy | Dop

  function Bit(q: Quantity): bv16 {
    match q
    case Height => 1
    case HorAccuracy => 2
    case Latitude => 4
    case Longitude => 8
    case VertAccuracy => 16
    case Dop => 32
  }

  datatype Location = Location(values: map<Quantity, real>, geohashLength: nat)

  datatype Record = Record(hash: nat, user: User, place: Location)

  // What the collectors take from their surroundings: the hash of a user, the parsing of
  // numbers, and the configured length of geohashes.
  datatype Env = Env(hash: string -> nat, number: string -> Option<real>, integer: string -> Option<int>, length: nat)

  // What a line says.
  datatype Reading = Value(q: Quantity, x: real) | Length(n: nat) | Unknown | Malformed

  function QuantityNamed(name: string): Option<Quantity> {
    if name == "geoHeightMSL" then Some(Height)
    else if name == "geoHorAccuracy" then Some(HorAccuracy)
    else if name == "geoLatitude" then Some(Latitude)
    else if name == "geoLongitude" then Some(Longitude)
    else if name == "geoVertAccuracy" then Some(VertAccuracy)
    else if name == "positionDOP" then Some(Dop)
    else None
  }

  // The length is kept in eight bits.
  function ReadingOf(env: Env, m: Message): Reading {
    match QuantityNamed(m.Field(1))
    case Some(q) => (match env.number(m.Field(2)) case Some(x) => Value(q, x) case None => Malformed)
    case None =>
      if m.Field(1) == "maxGeohashLength" then
        match env.integer(m.Field(2)) case Some(n) => Length(n % 256) case None => Malformed
      else Unknown
  }

  datatype State = State(user: User, first: int, status: bv16, item: Record)

  const ALL_MISSING: bv16 := 0x3F

  function Open(m: Message): State {
    State(m.user, m.time, ALL_MISSING, Record(0, User("", ""), Location(map[], 0)))
  }

  function LengthOr(env: Env, n: nat): nat {
    if n == 0 then env.length else n
  }

  function WithLength(env: Env, place: Location): Location {
    place.(geohashLength := LengthOr(env, place.geohashLength))
  }

  function Named(env: Env, c: State): State {
    c.(item := c.item.(hash := env.hash(c.user.SiteId()), user := c.user))
  }

  function ValueSet(c: State, q: Quantity, x: real): State {
    var place := c.item.place;
    c.(status := c.status & !Bit(q), item := c.item.(place := place.(values := place.values[q := x])))
  }

  function LengthSet(c: State, n: nat): State {
    c.(item := c.item.(place := c.item.place.(geohashLength := n)))
  }

  function Completed(env: Env, c: State): (Code, State) {
    (if c.status == 0 then FINISHED else AGGREGATING, c.(item := c.item.(place := WithLength(env, c.item.place))))
  }

  function Add(env: Env, c: State, m: Message): (Code, State) {
    if m.time - c.first > LIMIT then (RESET, c)
    else
      match ReadingOf(env, m)
      case Unknown => (AGGREGATING, Named(env, c))
      case Malformed => (ERROR, Named(env, c))
      case Length(n) => Completed(env, LengthSet(Named(env, c), n))
      case Value(q, x) => Completed(env, ValueSet(Named(env, c), q, x))
  }

  function LocationRules(env: Env): Rules<State, Record> {
    Rules(Open, (c, m) => Add(env, c, m), (c: State) => c.item)
  }

  // What a group of lines says about a quantity: its latest value.
  function Latest(env: Env, g: seq<Message>, q: Quantity): Option<real> {
    if g == [] then None
    else
      match ReadingOf(env, g[|g| - 1])
      case Value(p, x) => if p == q then Some(x) else Latest(env, g[..|g| - 1], q)
      case _ => Latest(env, g[..|g| - 1], q)
  }

  function LatestLength(env: Env, g: seq<Message>): nat {
    if g == [] then 0
    else
      match ReadingOf(env, g[|g| - 1])
      case Length(n) => n
      case _ => LatestLength(env, g[..|g| - 1])
  }

  predicate AnyReads(env: Env, g: seq<Message>) {
    g != [] && (ReadingOf(env, g[|g| - 1]).Value? || ReadingOf(env, g[|g| - 1]).Length?
                || AnyReads(env, g[..|g| - 1]))
  }

  predicate Complete(env: Env, g: seq<Message>) {
    forall q :: Latest(env, g, q).Some?
  }

  function Values(env: Env, g: seq<Message>): map<Quantity, real> {
    map q: Quantity | q in ALL_QUANTITIES && Latest(env, g, q).Some? :: Latest(env, g, q).value
  }

  const ALL_QUANTITIES: set<Quantity> := {Height, HorAccuracy, Latitude, Longitude, VertAccuracy, Dop}

  // The location that a group of lines describes.
  function Place(env: Env, g: seq<Message>): Location {
    Location(Values(env, g), if AnyReads(env, g) then LengthOr(env, LatestLength(env, g)) else 0)
  }

  function Summary(env: Env, g: seq<Message>): Record
    requires g != []
  {
    Record(env.hash(g[0].user.SiteId()), g[0].user, Place(env, g))
  }

  // The bits of the quantities that have not been seen.
  function Mask(h: bool, ha: bool, lat: bool, lon: bool, va: bool, dop: bool): bv16 {
    (if h then 0 else 1) | (if ha then 0 else 2) | (if lat then 0 else 4)
    | (if lon then 0 else 8) | (if va then 0 else 16) | (if dop then 0 else 32)
  }

  function Seen(env: Env, g: seq<Message>, q: Quantity): bool {
    Latest(env, g, q).Some?
  }

  function Missing(env: Env, g: seq<Message>): bv16 {
    Mask(Seen(env, g, Height), Seen(env, g, HorAccuracy), Seen(env, g, Latitude),
         Seen(env, g, Longitude), Seen(env, g, VertAccuracy), Seen(env, g, Dop))
  }

  // The collector that has taken a group of lines.
  function Collected(env: Env, g: seq<Message>): State
    requires g != []
  {
    State(g[0].user, g[0].time, Missing(env, g), Summary(env, g))
  }

  lemma MaskZero(h: bool, ha: bool, lat: bool, lon: bool, va: bool, dop: bool)
    ensures Mask(h, ha, lat, lon, va, dop) == 0 <==> h && ha && lat && lon && va && dop
  {
  }

  lemma MaskClear(q: Quantity, h: bool, ha: bool, lat: bool, lon: bool, va: bool, dop: bool)
    ensures Mask(h, ha, lat, lon, va, dop) & !Bit(q)
         == Mask(h || q == Height, ha || q == HorAccuracy, lat || q == Latitude,
                 lon || q == Longitude, va || q == VertAccuracy, dop || q == Dop)
  {
  }

  lemma NothingMissing(env: Env, g: seq<Message>)
    ensures Missing(env, g) == 0 <==> Complete(env, g)
  {
    MaskZero(Seen(env, g, Height), Seen(env, g, HorAccuracy), Seen(env, g, Latitude),
             Seen(env, g, Longitude), Seen(env, g, VertAccuracy), Seen(env, g, Dop));
    if Missing(env, g) == 0 {
      forall q ensures Latest(env, g, q).Some? {
        match q {
          case Height => assert Seen(env, g, Height);
          case HorAccuracy => assert Seen(env, g, HorAccuracy);
          case Latitude => assert Seen(env, g, Latitude);
          case Longitude => assert Seen(env, g, Longitude);
          case VertAccuracy => assert Seen(env, g, VertAccuracy);
          case Dop => assert Seen(env, g, Dop);
        }
      }
    } else {
      assert exists q :: !Seen(env, g, q);
    }
  }

  // The name a quantity has in the lines of a station.
  function NameOf(q: Quantity): string {
    match q
    case Height => "geoHeightMSL"
    case HorAccuracy => "geoHorAccuracy"
    case Latitude => "geoLatitude"
    case Longitude => "geoLongitude"
    case VertAccuracy => "geoVertAccuracy"
    case Dop => "positionDOP"
  }

  // The value of the last line with the name whose value can be read.
  function LastNamed(env: Env, g: seq<Message>, name: string): Option<real> {
    if g == [] then None
    else
      var m := g[|g| - 1];
      if m.Field(1) == name && env.number(m.Field(2)).Some? then env.number(m.Field(2))
      else LastNamed(env, g[..|g| - 1], name)
  }

  lemma NamesDiffer(q: Quantity, name: string)
    ensures QuantityNamed(name) == Some(q) <==> name == NameOf(q)
  {
    NamesTold(NameOf(q));
  }

  lemma NamesTold(name: string)
    ensures QuantityNamed(name) == None || NameOf(QuantityNamed(name).value) == name
    ensures forall q :: name == NameOf(q) ==> QuantityNamed(name) == Some(q)
  {
    var a, b, c, d, e, f := "geoHeightMSL", "geoHorAccuracy", "geoLatitude", "geoLongitude", "geoVertAccuracy",
      "positionDOP";
    assert |a| == 12 && |b| == 14 && |c| == 11 && |d| == 12 && |e| == 15 && |f| == 11;
    assert a[3] != d[3] && c[0] != f[0];
  }

  // The latest value of each quantity is that of the last readable line with its name, and
  // the length of geohashes that of the last readable line that gives one, in eight bits.
  lemma {:induction false} LatestLaw(env: Env, g: seq<Message>, q: Quantity)
    ensures Latest(env, g, q) == LastNamed(env, g, NameOf(q))
  {
    if g != [] {
      NamesDiffer(q, g[|g| - 1].Field(1));
      LatestLaw(env, g[..|g| - 1], q);
    }
  }

  function LastLength(env: Env, g: seq<Message>): nat {
    if g == [] then 0
    else
      var m := g[|g| - 1];
      if m.Field(1) == "maxGeohashLength" && env.integer(m.Field(2)).Some? then env.integer(m.Field(2)).value % 256
      else LastLength(env, g[..|g| - 1])
  }

  lemma {:induction false} LengthLaw(env: Env, g: seq<Message>)
    ensures LatestLength(env, g) == LastLength(env, g)
  {
    if g != [] {
      NamesTold("maxGeohashLength");
      LengthLaw(env, g[..|g| - 1]);
    }
  }

  lemma {:induction false} SomeReading(env: Env, g: seq<Message>, q: Quantity)
    requires Latest(env, g, q).Some?
    ensures AnyReads(env, g)
  {
    if !ReadingOf(env, g[|g| - 1]).Value? {
      SomeReading(env, g[..|g| - 1], q);
    }
  }

  // The record of a complete group: the user of its first line, for each quantity the last
  // value that can be read under its name, and the last length of geohashes that is given,
  // or else the configured one.
  lemma RecordLaw(env: Env, g: seq<Message>)
    requires Complete(env, g)
    ensures g != []
    ensures var r := Summary(env, g);
            && r.user == g[0].user && r.hash == env.hash(g[0].user.name + g[0].user.site)
            && (forall q :: q in r.place.values && Some(r.place.values[q]) == LastNamed(env, g, NameOf(q)))
            && r.place.geohashLength == if LastLength(env, g) == 0 then env.length else LastLength(env, g)
  {
    assert Latest(env, g, Height).Some?;
    SomeReading(env, g, Height);
    LengthLaw(env, g);
    forall q ensures q in Values(env, g) && Some(Values(env, g)[q]) == LastNamed(env, g, NameOf(q)) {
      LatestLaw(env, g, q);
      assert Latest(env, g, q).Some?;
      assert q in ALL_QUANTITIES;
    }
  }

  lemma LatestOne(env: Env, g: seq<Message>, m: Message, q: Quantity)
    ensures Latest(env, g + [m], q) == match ReadingOf(env, m)
                                       case Value(p, x) => (if p == q then Some(x) else Latest(env, g, q))
                                       case _ => Latest(env, g, q)
  {
    assert (g + [m])[..|g|] == g;
  }

  lemma MissingOne(env: Env, g: seq<Message>, m: Message)
    ensures Missing(env, g + [m]) == match ReadingOf(env, m)
                                     case Value(p, x) => Missing(env, g) & !Bit(p)
                                     case _ => Missing(env, g)
  {
    forall q
      ensures Seen(env, g + [m], q) == (Seen(env, g, q) || (ReadingOf(env, m).Value? && ReadingOf(env, m).q == q))
    {
      LatestOne(env, g, m, q);
    }
    if ReadingOf(env, m).Value? {
      MaskClear(ReadingOf(env, m).q, Seen(env, g, Height), Seen(env, g, HorAccuracy), Seen(env, g, Latitude),
                Seen(env, g, Longitude), Seen(env, g, VertAccuracy), Seen(env, g, Dop));
    }
  }

  lemma {:induction false} NoReadsNoLength(env: Env, g: seq<Message>)
    ensures !AnyReads(env, g) ==> LatestLength(env, g) == 0
  {
    if g != [] {
      NoReadsNoLength(env, g[..|g| - 1]);
    }
  }

  lemma PlaceOne(env: Env, g: seq<Message>, m: Message)
    ensures var p := Place(env, g);
            Place(env, g + [m]) == match ReadingOf(env, m)
                                   case Value(q, x) => WithLength(env, p.(values := p.values[q := x]))
                                   case Length(n) => WithLength(env, p.(geohashLength := n))
                                   case _ => p
  {
    var h := g + [m];
    assert h[..|g|] == g;
    NoReadsNoLength(env, g);
    forall q ensures Latest(env, h, q) == match ReadingOf(env, m)
                                          case Value(p, x) => (if p == q then Some(x) else Latest(env, g, q))
                                          case _ => Latest(env, g, q)
    {
      LatestOne(env, g, m, q);
    }
    assert ReadingOf(env, m).Value? ==> Values(env, h) == Values(env, g)[ReadingOf(env, m).q := ReadingOf(env, m).x];
    assert !ReadingOf(env, m).Value? ==> Values(env, h) == Values(env, g);
  }

  // A collector that has taken a group and is not complete takes a line in time into
  // the group, and is finished exactly if the group is complete then.
  lemma AddLaw(env: Env, g: seq<Message>, m: Message)
    requires g != [] && !Complete(env, g) && m.time - g[0].time <= LIMIT
    ensures Add(env, Collected(env, g), m).1 == Collected(env, g + [m])
    ensures Add(env, Collected(env, g), m).0
         == if Complete(env, g + [m]) then FINISHED
            else if ReadingOf(env, m).Malformed? then ERROR else AGGREGATING
  {
    NothingMissing(env, g);
    NothingMissing(env, g + [m]);
    MissingOne(env, g, m);
    PlaceOne(env, g, m);
  }

  // A new collector keeps its first line unless that is malformed.
  lemma OpenLaw(env: Env, m: Message)
    ensures !Complete(env, [m])
    ensures Add(env, Open(m), m).0 == if ReadingOf(env, m).Malformed? then ERROR else AGGREGATING
    ensures Add(env, Open(m), m).1 == Collected(env, [m])
  {
    assert [] + [m] == [m];
    MissingOne(env, [], m);
    NothingMissing(env, [m]);
    PlaceOne(env, [], m);
    assert Values(env, []) == map[];
    var missing := Missing(env, []);
    assert missing == ALL_MISSING;
    var q := if ReadingOf(env, m).Value? then ReadingOf(env, m).q else Height;
    assert ALL_MISSING & !Bit(q) != 0;
  }

  // The lines of one station fall into groups. Those in closed are over: they are either
  // complete or have been given up.
  datatype Trace = Trace(closed: seq<seq<Message>>, open: seq<Message>)

  function Continue(env: Env, t: Trace, m: Message): Trace {
    var g := t.open + [m];
    if t.open != [] && m.time - t.open[0].time <= LIMIT then
      if Complete(env, g) then Trace(t.closed + [g], []) else t.(open := g)
    else
      var closed := if t.open == [] then t.closed else t.closed + [t.open];
      if ReadingOf(env, m).Malformed? then Trace(closed + [[m]], []) else Trace(closed, [m])
  }

  function TraceOf(env: Env, h: seq<Message>): Trace {
    if h == [] then Trace([], []) else Continue(env, TraceOf(env, h[..|h| - 1]), h[|h| - 1])
  }

  predicate InTime(g: seq<Message>) {
    forall i :: 0 <= i < |g| ==> g[i].time - g[0].time <= LIMIT
  }

  // A group gets its lines within the limit, and none after it is complete.
  predicate Group(env: Env, g: seq<Message>) {
    g != [] && InTime(g) && !Complete(env, g[..|g| - 1])
  }

  // Why the group g was given up when the next group began with m.
  predicate GivenUp(env: Env, g: seq<Message>, m: Message) {
    g != [] && !Complete(env, g) && m.time - g[0].time > LIMIT
  }

  predicate Rejected(env: Env, g: seq<Message>) {
    |g| == 1 && ReadingOf(env, g[0]).Malformed?
  }

  // The first line of the i-th group, if that has begun.
  function First(t: Trace, i: nat): Option<Message> {
    var g := if i < |t.closed| then t.closed[i] else if i == |t.closed| then t.open else [];
    if g == [] then None else Some(g[0])
  }

  // A group is over because it is complete, because its only line is malformed, or
  // because the next line of the station came too late for it.
  predicate Over(env: Env, t: Trace, i: nat)
    requires i < |t.closed|
  {
    var g, next := t.closed[i], First(t, i + 1);
    Complete(env, g) || Rejected(env, g) || (next.Some? && GivenUp(env, g, next.value))
  }

  predicate Sound(env: Env, t: Trace) {
    && (forall i :: 0 <= i < |t.closed| ==> Group(env, t.closed[i]) && Over(env, t, i))
    && InTime(t.open) && !Complete(env, t.open)
  }

  lemma NoneComplete(env: Env)
    ensures !Complete(env, [])
  {
    assert Latest(env, [], Height).None?;
  }

  lemma NotYetComplete(env: Env, g: seq<Message>, m: Message)
    requires !Complete(env, g + [m])
    ensures !Complete(env, g)
  {
    var q :| Latest(env, g + [m], q).None?;
    LatestOne(env, g, m, q);
  }

  lemma IsGroup(env: Env, g: seq<Message>)
    requires g != [] && InTime(g) && !Complete(env, g)
    ensures Group(env, g)
  {
    var n := |g| - 1;
    assert g[..n] + [g[n]] == g;
    NotYetComplete(env, g[..n], g[n]);
  }

  lemma OverStays(env: Env, t: Trace, u: Trace, i: nat)
    requires i < |t.closed| <= |u.closed| && u.closed[..|t.closed|] == t.closed && Over(env, t, i)
    requires First(t, |t.closed|).Some? ==> First(u, |t.closed|) == First(t, |t.closed|)
    ensures Over(env, u, i)
  {
    assert u.closed[i] == u.closed[..|t.closed|][i];
    if i + 1 < |t.closed| {
      assert u.closed[i + 1] == u.closed[..|t.closed|][i + 1];
    }
  }

  lemma ContinueInTime(env: Env, t: Trace, m: Message)
    requires Sound(env, t) && t.open != [] && m.time - t.open[0].time <= LIMIT
    ensures Sound(env, Continue(env, t, m))
  {
    var u, g := Continue(env, t, m), t.open + [m];
    NoneComplete(env);
    assert g[..|t.open|] == t.open;
    assert u.closed[..|t.closed|] == t.closed;
    forall i | 0 <= i < |u.closed| ensures Group(env, u.closed[i]) && Over(env, u, i) {
      if i < |t.closed| {
        assert u.closed[i] == t.closed[i];
        OverStays(env, t, u, i);
      }
    }
  }

  lemma ContinueLate(env: Env, t: Trace, m: Message)
    requires Sound(env, t) && (t.open == [] || m.time - t.open[0].time > LIMIT)
    ensures Sound(env, Continue(env, t, m))
  {
    var u := Continue(env, t, m);
    NoneComplete(env);
    OpenLaw(env, m);
    IsGroup(env, [m]);
    if t.open != [] {
      IsGroup(env, t.open);
    }
    assert u.closed[..|t.closed|] == t.closed;
    forall i | 0 <= i < |u.closed| ensures Group(env, u.closed[i]) && Over(env, u, i) {
      if i < |t.closed| {
        assert u.closed[i] == t.closed[i];
        OverStays(env, t, u, i);
      } else if u.closed[i] == t.open {
        assert First(u, i + 1) == Some(m);
      }
    }
  }

  lemma {:induction false} TraceSound(env: Env, h: seq<Message>)
    ensures Sound(env, TraceOf(env, h))
  {
    NoneComplete(env);
    if h != [] {
      TraceSound(env, h[..|h| - 1]);
      var t, m := TraceOf(env, h[..|h| - 1]), h[|h| - 1];
      if t.open != [] && m.time - t.open[0].time <= LIMIT {
        ContinueInTime(env, t, m);
      } else {
        ContinueLate(env, t, m);
      }
    }
  }

  lemma ContinueCovers(env: Env, t: Trace, m: Message)
    ensures Joined(Continue(env, t, m).closed) + Continue(env, t, m).open == (Joined(t.closed) + t.open) + [m]
  {
    JoinedOne(t.closed, t.open + [m]);
    JoinedOne(t.closed, t.open);
    JoinedOne(t.closed, [m]);
    JoinedOne(t.closed + [t.open], [m]);
    AppendOne(Joined(t.closed), t.open, m);
  }

  // Every line of the station is in exactly one group, in order.
  lemma {:induction false} TraceCovers(env: Env, h: seq<Message>)
    ensures Joined(TraceOf(env, h).closed) + TraceOf(env, h).open == h
  {
    if h != [] {
      var init, m := h[..|h| - 1], h[|h| - 1];
      var t := TraceOf(env, init);
      TraceCovers(env, init);
      ContinueCovers(env, t, m);
      PrefixSnoc(h, |h| - 1);
      WholeSlice(h);
    }
  }

  // What the complete ones of the groups describe.
  function Records(env: Env, gs: seq<seq<Message>>): seq<Record> {
    if gs == [] then []
    else
      var g := gs[|gs| - 1];
      Records(env, gs[..|gs| - 1]) + if g != [] && Complete(env, g) then [Summary(env, g)] else []
  }

  lemma RecordsOne(env: Env, gs: seq<seq<Message>>, g: seq<Message>)
    ensures Records(env, gs + [g]) == Records(env, gs) + if g != [] && Complete(env, g) then [Summary(env, g)] else []
  {
    assert (gs + [g])[..|gs|] == gs;
  }

  // The view of a station with the given groups: a record for each complete group, and
  // a collector that has taken the open one.
  function Told(env: Env, t: Trace): View<State, Record> {
    View(if t.open == [] then None else Some(Collected(env, t.open)), Records(env, t.closed))
  }

  lemma ToldOne(env: Env, t: Trace, m: Message)
    requires !Complete(env, t.open)
    ensures HandleView(LocationRules(env), Told(env, t), m) == Told(env, Continue(env, t, m))
  {
    var g := t.open + [m];
    OpenLaw(env, m);
    RecordsOne(env, t.closed, g);
    RecordsOne(env, t.closed, t.open);
    RecordsOne(env, t.closed, [m]);
    RecordsOne(env, t.closed + [t.open], [m]);
    if t.open != [] && m.time - t.open[0].time <= LIMIT {
      AddLaw(env, t.open, m);
    }
  }

  lemma {:induction false} StationLaw(env: Env, h: seq<Message>, key: nat)
    requires forall i :: 0 <= i < |h| ==> h[i].key == key
    ensures ViewOf(Run(LocationRules(env), h), key) == Told(env, TraceOf(env, h))
  {
    if h != [] {
      var init, m := h[..|h| - 1], h[|h| - 1];
      StationLaw(env, init, key);
      TraceSound(env, init);
      HandleLocal(LocationRules(env), Run(LocationRules(env), init), m, key);
      ToldOne(env, TraceOf(env, init), m);
    }
  }

  // In any run, whatever is sent under other keys, the lines of each key fall into
  // groups as above, and a record has been put exactly for each complete group.
  lemma LocationLaw(env: Env, ms: seq<Message>, key: nat)
    ensures var t := TraceOf(env, Of(ms, key));
            && Sound(env, t) && Joined(t.closed) + t.open == Of(ms, key)
            && PutsOf(Run(LocationRules(env), ms).puts, key) == Records(env, t.closed)
            && ViewOf(Run(LocationRules(env), ms), key) == Told(env, t)
  {
    Independent(LocationRules(env), ms, key);
    StationLaw(env, Of(ms, key), key);
    TraceSound(env, Of(ms, key));
    TraceCovers(env, Of(ms, key));
  }

  predicate IncompleteBefore(env: Env, g: seq<Message>) {
    forall k :: 0 <= k < |g| ==> !Complete(env, g[..k])
  }

  // If a station without open group sends lines in time, its record is put by the first
  // line that makes them complete, and not before.
  lemma {:induction false} CompleteGroupIsPut(env: Env, h: seq<Message>, g: seq<Message>)
    requires TraceOf(env, h).open == [] && g != [] && !ReadingOf(env, g[0]).Malformed?
    requires InTime(g) && IncompleteBefore(env, g)
    ensures var t := TraceOf(env, h);
            TraceOf(env, h + g) == if Complete(env, g) then Trace(t.closed + [g], []) else Trace(t.closed, g)
    decreases |g|
  {
    var n := |g| - 1;
    var init, m := g[..n], g[n];
    PrefixSnoc(g, n);
    WholeSlice(g);
    AppendOne(h, init, m);
    TraceOne(env, h + init, m);
    OpenLaw(env, g[0]);
    if n > 0 {
      EarlierToo(env, g, n);
      CompleteGroupIsPut(env, h, init);
    } else {
      assert h + init == h;
    }
  }

  lemma EarlierToo(env: Env, g: seq<Message>, n: nat)
    requires n < |g| && InTime(g) && IncompleteBefore(env, g)
    ensures InTime(g[..n]) && IncompleteBefore(env, g[..n]) && !Complete(env, g[..n])
  {
    forall k | 0 <= k < n ensures !Complete(env, g[..n][..k]) {
      assert g[..n][..k] == g[..k];
    }
  }

  lemma TraceOne(env: Env, h: seq<Message>, m: Message)
    ensures TraceOf(env, h + [m]) == Continue(env, TraceOf(env, h), m)
  {
    assert (h + [m])[..|h|] == h;
  }

  // The collector as an object that is filled in place.
  class Collector {
    const env: Env
    const user: User
    const first: int
    var status: bv16
    var item: Record

    function Value(): State
      reads this
    {
      State(user, first, status, item)
    }

    constructor (env: Env, m: Message)
      ensures Value() == Open(m) && this.env == env
    {
      this.env, user, first := env, m.user, m.time;
      status, item := ALL_MISSING, Record(0, User("", ""), Location(map[], 0));
    }

    method Set(q: Quantity, text: string) returns (ok: bool)
      modifies this
      ensures ok <==> env.number(text).Some?
      ensures Value() == match env.number(text) case None => old(Value()) case Some(x) => ValueSet(old(Value()), q, x)
    {
      var number := env.number(text);
      ok := number.Some?;
      if ok {
        item := item.(place := item.place.(values := item.place.values[q := number.value]));
        status := status & !Bit(q);
      }
    }

    method SetLength(text: string) returns (ok: bool)
      modifies this
      ensures ok <==> env.integer(text).Some?
      ensures Value() == match env.integer(text)
                         case None => old(Value())
                         case Some(n) => LengthSet(old(Value()), n % 256)
    {
      var number := env.integer(text);
      ok := number.Some?;
      if ok {
        item := item.(place := item.place.(geohashLength := number.value % 256));
      }
    }

    method Take(m: Message) returns (code: Code)
      modifies this
      ensures (code, Value()) == Add(env, old(Value()), m)
    {
      if m.time - first > LIMIT {
        return RESET;
      }
      item := item.(hash := env.hash(user.SiteId()), user := user);
      var q, ok := QuantityNamed(m.Field(1)), true;
      if q.Some? {
        ok := Set(q.value, m.Field(2));
      } else if m.Field(1) == "maxGeohashLength" {
        ok := SetLength(m.Field(2));
      } else {
        return AGGREGATING;
      }
      if !ok {
        return ERROR;
      }
      code := Complete();
    }

    method Complete() returns (code: Code)
      modifies this
      ensures (code, Value()) == Completed(env, old(Value()))
    {
      if item.place.geohashLength == 0 {
        item := item.(place := item.place.(geohashLength := env.length));
      }
      code := if status == 0 then FINISHED else AGGREGATING;
    }
  }
}
