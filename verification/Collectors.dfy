// Collecting the lines of one station into one item, for many stations at once.

module Collectors {
  import opened Basics
  import opened MessageFields

  // The result of adding a line is a set of flags.
  type Code = bv8

  const ERROR: Code := 0
  const AGGREGATING: Code := 1
  const FINISHED: Code := 2
  const ABORT: Code := 4
  const NEW_EPOCH: Code := 8
  const COMMIT: Code := FINISHED | NEW_EPOCH
  const RESET: Code := ABORT | NEW_EPOCH

  predicate Has(code: Code, flag: Code) {
    code & flag != 0
  }

  // How long after its first line a collector takes further lines, in nanoseconds.
  const LIMIT := 5_000_000_000

  datatype User = User(name: string, site: string) {
    // The text whose hash is the key of the user.
    function SiteId(): string {
      name + site
    }
  }

  datatype Message = Message(key: nat, user: User, content: string, time: int) {
    function Fields(): seq<string> {
      Tokens(content, ' ')
    }

    function Field(i: nat): string {
      if i < |Fields()| then Fields()[i] else ""
    }
  }

  // What differs between the kinds of items: a new collector for a message, what adding
  // a message does to a collector, and the item a collector holds.
  datatype Rules<!C, !I> = Rules(open: Message -> C, add: (C, Message) -> (Code, C), item: C -> I)

  datatype Books<C, I> = Books(buffer: map<nat, C>, puts: seq<(nat, I)>)

  function Start<C, I>(rules: Rules<C, I>, books: Books<C, I>, m: Message): Books<C, I> {
    var (code, c) := rules.add(rules.open(m), m);
    if Has(code, FINISHED) then books.(puts := books.puts + [(m.key, rules.item(c))])
    else if Has(code, AGGREGATING) then books.(buffer := books.buffer[m.key := c])
    else books
  }

  function Handle<C, I>(rules: Rules<C, I>, books: Books<C, I>, m: Message): Books<C, I> {
    if m.key !in books.buffer then Start(rules, books, m)
    else
      var (code, c) := rules.add(books.buffer[m.key], m);
      if Has(code, FINISHED) then
        var put := Books(books.buffer - {m.key}, books.puts + [(m.key, rules.item(c))]);
        if Has(code, NEW_EPOCH) then Start(rules, put, m) else put
      else if Has(code, ABORT) then
        var dropped := books.(buffer := books.buffer - {m.key});
        if Has(code, NEW_EPOCH) then Start(rules, dropped, m) else dropped
      else
        books.(buffer := books.buffer[m.key := c])
  }

  function Run<C, I>(rules: Rules<C, I>, ms: seq<Message>): Books<C, I> {
    if ms == [] then Books(map[], [])
    else Handle(rules, Run(rules, ms[..|ms| - 1]), ms[|ms| - 1])
  }

  lemma RunOne<C, I>(rules: Rules<C, I>, ms: seq<Message>, m: Message)
    ensures Run(rules, ms + [m]) == Handle(rules, Run(rules, ms), m)
  {
    assert (ms + [m])[..|ms|] == ms;
  }

  // The messages with one key.
  function Of(ms: seq<Message>, key: nat): (h: seq<Message>)
    ensures forall i :: 0 <= i < |h| ==> h[i].key == key
  {
    if ms == [] then []
    else
      var m := ms[|ms| - 1];
      Of(ms[..|ms| - 1], key) + if m.key == key then [m] else []
  }

  function PutsOf<I>(puts: seq<(nat, I)>, key: nat): seq<I> {
    if puts == [] then []
    else
      var p := puts[|puts| - 1];
      PutsOf(puts[..|puts| - 1], key) + if p.0 == key then [p.1] else []
  }

  // What one key can see of the books.
  datatype View<C, I> = View(open: Option<C>, puts: seq<I>)

  function ViewOf<C, I>(books: Books<C, I>, key: nat): View<C, I> {
    View(if key in books.buffer then Some(books.buffer[key]) else None, PutsOf(books.puts, key))
  }

  lemma PutsOfOne<I>(puts: seq<(nat, I)>, p: (nat, I), key: nat)
    ensures PutsOf(puts + [p], key) == PutsOf(puts, key) + if p.0 == key then [p.1] else []
  {
    assert (puts + [p])[..|puts|] == puts;
  }

  // Starting a collector, seen from one key.
  function StartView<C, I>(rules: Rules<C, I>, view: View<C, I>, m: Message): View<C, I> {
    var (code, c) := rules.add(rules.open(m), m);
    if Has(code, FINISHED) then view.(puts := view.puts + [rules.item(c)])
    else if Has(code, AGGREGATING) then view.(open := Some(c))
    else view
  }

  lemma StartLocal<C, I>(rules: Rules<C, I>, books: Books<C, I>, m: Message, key: nat)
    ensures ViewOf(Start(rules, books, m), key)
         == if m.key == key then StartView(rules, ViewOf(books, key), m) else ViewOf(books, key)
  {
    var (code, c) := rules.add(rules.open(m), m);
    PutsOfOne(books.puts, (m.key, rules.item(c)), key);
  }

  function HandleView<C, I>(rules: Rules<C, I>, view: View<C, I>, m: Message): View<C, I> {
    match view.open
    case None => StartView(rules, view, m)
    case Some(was) =>
      var (code, c) := rules.add(was, m);
      var closed := View(None, if Has(code, FINISHED) then view.puts + [rules.item(c)] else view.puts);
      if !Has(code, FINISHED | ABORT) then view.(open := Some(c))
      else if Has(code, NEW_EPOCH) then StartView(rules, closed, m)
      else closed
  }

  lemma EitherFlag(code: Code)
    ensures Has(code, FINISHED | ABORT) <==> Has(code, FINISHED) || Has(code, ABORT)
  {
  }

  lemma HandleLocal<C, I>(rules: Rules<C, I>, books: Books<C, I>, m: Message, key: nat)
    ensures ViewOf(Handle(rules, books, m), key)
         == if m.key == key then HandleView(rules, ViewOf(books, key), m) else ViewOf(books, key)
  {
    if m.key !in books.buffer {
      StartLocal(rules, books, m, key);
    } else {
      var (code, c) := rules.add(books.buffer[m.key], m);
      EitherFlag(code);
      PutsOfOne(books.puts, (m.key, rules.item(c)), key);
      StartLocal(rules, Books(books.buffer - {m.key}, books.puts + [(m.key, rules.item(c))]), m, key);
      StartLocal(rules, books.(buffer := books.buffer - {m.key}), m, key);
    }
  }

  // However the messages of different keys are mixed, each key sees what it would
  // see if only its own messages had come.
  lemma {:induction false} Independent<C, I>(rules: Rules<C, I>, ms: seq<Message>, key: nat)
    ensures ViewOf(Run(rules, ms), key) == ViewOf(Run(rules, Of(ms, key)), key)
  {
    if ms != [] {
      var init, m := ms[..|ms| - 1], ms[|ms| - 1];
      Independent(rules, init, key);
      HandleLocal(rules, Run(rules, init), m, key);
      if m.key == key {
        RunOne(rules, Of(init, key), m);
        HandleLocal(rules, Run(rules, Of(init, key)), m, key);
      } else {
        assert Of(ms, key) == Of(init, key);
      }
    }
  }

  // Groups of messages, put together.
  function Joined(gs: seq<seq<Message>>): seq<Message> {
    if gs == [] then [] else Joined(gs[..|gs| - 1]) + gs[|gs| - 1]
  }

  lemma JoinedOne(gs: seq<seq<Message>>, g: seq<Message>)
    ensures Joined(gs + [g]) == Joined(gs) + g
  {
    assert (gs + [g])[..|gs|] == gs;
  }

  // The site is the rest of the topic, put together again.
  function Site(parts: seq<string>): string
    requires parts != []
  {
    if |parts| == 1 then parts[0]
    else Site(parts[..|parts| - 1]) + ("/" + parts[|parts| - 1])
  }

  function UserOf(topic: seq<string>): User
    requires |topic| >= 4
  {
    User(topic[2], Site(topic[3..]))
  }

  lemma {:induction false} SiteIsBuilt(parts: seq<string>)
    requires parts != [] && forall i :: 0 <= i < |parts| ==> Clean(parts[i], '/')
    ensures Site(parts) == Build(parts, '/') && Site(parts) != ""
  {
    var n := |parts| - 1;
    if n == 0 {
      assert Build(parts[..0], '/') == "";
    } else {
      SiteIsBuilt(parts[..n]);
      assert Site(parts) == Site(parts[..n]) + ['/'] + parts[n];
    }
  }

  // Two topics name the same user exactly if they agree from the third part on.
  lemma SameUser(a: string, b: string)
    requires |Tokens(a, '/')| >= 4 && |Tokens(b, '/')| >= 4
    ensures UserOf(Tokens(a, '/')) == UserOf(Tokens(b, '/')) <==> Tokens(a, '/')[2..] == Tokens(b, '/')[2..]
  {
    var x, y := Tokens(a, '/'), Tokens(b, '/');
    TokensClean(a, '/');
    TokensClean(b, '/');
    SiteIsBuilt(x[3..]);
    SiteIsBuilt(y[3..]);
    RoundTrip(x[3..], '/');
    RoundTrip(y[3..], '/');
    assert x[2..] == [x[2]] + x[3..] && y[2..] == [y[2]] + y[3..];
    assert x[2..][1..] == x[3..] && y[2..][1..] == y[3..];
  }

  // The name of one user goes on where that of the other ends, and takes a part of its site.
  ghost predicate RunTogether(u: User, v: User) {
    exists x :: v.name == u.name + x && u.site == x + v.site
  }

  // Two users have one key if and only if they differ at most in where the name ends and
  // the site begins, provided that their texts do not collide in the hash.
  lemma SameKeyIff(hash: string -> nat, u: User, v: User)
    requires hash(u.SiteId()) == hash(v.SiteId()) ==> u.SiteId() == v.SiteId()
    ensures hash(u.SiteId()) == hash(v.SiteId()) <==> RunTogether(u, v) || RunTogether(v, u)
  {
    if u.SiteId() == v.SiteId() {
      if |u.name| <= |v.name| {
        SplitLater(u.name, u.site, v.name, v.site);
      } else {
        SplitLater(v.name, v.site, u.name, u.site);
      }
    }
    if RunTogether(u, v) {
      var x :| v.name == u.name + x && u.site == x + v.site;
      assert u.name + (x + v.site) == (u.name + x) + v.site;
    } else if RunTogether(v, u) {
      var x :| u.name == v.name + x && v.site == x + u.site;
      assert v.name + (x + u.site) == (v.name + x) + u.site;
    }
  }

  lemma SplitLater(a: string, b: string, c: string, d: string)
    requires a + b == c + d && |a| <= |c|
    ensures c == a + c[|a|..] && b == c[|a|..] + d
  {
    var n := |a|;
    assert (a + b)[..n] == a && (c + d)[..n] == c[..n];
    assert (a + b)[n..] == b && (c + d)[n..] == c[n..] + d;
  }

  // The stations a/bc and ab/c are different, and have one key.
  lemma DifferentUsersOneKey()
    ensures var u, v := UserOf(["x", "y", "ab", "c"]), UserOf(["x", "y", "a", "bc"]);
            u != v && u.SiteId() == v.SiteId()
  {
    assert ["x", "y", "ab", "c"][3..] == ["c"] && ["x", "y", "a", "bc"][3..] == ["bc"];
    assert "ab" + "c" == "a" + "bc";
  }

  // The message that is taken from what was received, if any is.
  function Received(hash: string -> nat, topic: string, content: string, now: int): Option<Message> {
    var parts := Tokens(topic, '/');
    if |parts| < 4 || |Tokens(content, ' ')| < 2 then None
    else if parts[2] == "" || parts[2] == "cluster" then None
    else Some(Message(hash(UserOf(parts).SiteId()), UserOf(parts), content, now))
  }

  // A message is taken exactly if its topic has four parts or more, the third of which is not
  // `cluster`, and its content has two fields or more.
  lemma ReceivedLaw(hash: string -> nat, topic: string, content: string, now: int)
    ensures var m, parts := Received(hash, topic, content, now), Tokens(topic, '/');
            && (m.Some? <==> |parts| >= 4 && |Tokens(content, ' ')| >= 2 && parts[2] != "cluster")
            && (m.Some? ==> m.value.content == content && m.value.time == now
                            && m.value.user.name == parts[2] && Tokens(m.value.user.site, '/') == parts[3..]
                            && m.value.key == hash(m.value.user.name + m.value.user.site))
  {
    var parts := Tokens(topic, '/');
    TokensClean(topic, '/');
    if |parts| >= 4 {
      SiteIsBuilt(parts[3..]);
      RoundTrip(parts[3..], '/');
    }
  }

  class Source<C, I> {
    const rules: Rules<C, I>
    const hash: string -> nat
    var buffer: map<nat, C>
    // What has been put into the sink.
    var puts: seq<(nat, I)>

    function State(): Books<C, I>
      reads this
    {
      Books(buffer, puts)
    }

    constructor (rules: Rules<C, I>, hash: string -> nat)
      ensures State() == Run(rules, []) && this.rules == rules && this.hash == hash
    {
      this.rules, this.hash := rules, hash;
      buffer, puts := map[], [];
    }

    method FindUser(parts: seq<string>) returns (user: User)
      requires |parts| >= 4
      ensures user == UserOf(parts)
      ensures State() == old(State())
    {
      var site := parts[3];
      var i := 4;
      while i < |parts|
        invariant 4 <= i <= |parts|
        invariant site == Site(parts[3..i])
      {
        site := site + ("/" + parts[i]);
        assert parts[3..i + 1][..i - 3] == parts[3..i];
        i := i + 1;
      }
      assert parts[3..i] == parts[3..];
      user := User(parts[2], site);
    }

    method Process(topic: string, content: string, now: int)
      modifies this
      ensures var m := Received(hash, topic, content, now);
              State() == if m.Some? then Handle(rules, old(State()), m.value) else old(State())
    {
      var m := Receive(topic, content, now);
      if m.Some? {
        Collect(m.value);
      }
    }

    method Receive(topic: string, content: string, now: int) returns (m: Option<Message>)
      ensures m == Received(hash, topic, content, now)
      ensures State() == old(State())
    {
      var parts := new MessageParser(topic, '/');
      var fields := new MessageParser(content, ' ');
      if |parts.Fields()| < 4 || |fields.Fields()| < 2 {
        return None;
      }
      if parts.Fields()[2] == "" || parts.Fields()[2] == "cluster" {
        return None;
      }
      var user := FindUser(parts.Fields());
      m := Some(Message(hash(user.SiteId()), user, content, now));
    }

    method Collect(m: Message)
      modifies this
      ensures State() == Handle(rules, old(State()), m)
    {
      if m.key in buffer {
        var (code, c) := rules.add(buffer[m.key], m);
        buffer := buffer[m.key := c];
        if Has(code, FINISHED) {
          puts := puts + [(m.key, rules.item(c))];
          buffer := buffer - {m.key};
        } else if Has(code, ABORT) {
          buffer := buffer - {m.key};
        } else {
          return;
        }
        assert buffer == old(buffer) - {m.key};
        if !Has(code, NEW_EPOCH) {
          return;
        }
      }
      Begin(m);
    }

    method Begin(m: Message)
      requires m.key !in buffer
      modifies this
      ensures State() == Start(rules, old(State()), m)
    {
      var (code, c) := rules.add(rules.open(m), m);
      if Has(code, FINISHED) {
        puts := puts + [(m.key, rules.item(c))];
      } else if Has(code, AGGREGATING) {
        buffer := buffer[m.key := c];
      }
    }
  }
}
