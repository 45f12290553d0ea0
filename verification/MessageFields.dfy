// Building a message from fields, and taking one apart.

module MessageFields {
  import opened Basics

  predicate Clean(f: string, d: char) {
    f != "" && d !in f
  }

  // The message after all fields have been added: a delimiter comes before a field
  // exactly if something has been written before.
  function Build(fields: seq<string>, d: char): string {
    if fields == [] then ""
    else
      var m, f := Build(fields[..|fields| - 1], d), fields[|fields| - 1];
      if m == "" then f else m + [d] + f
  }

  // The length of the delimiter-free run that s starts with.
  function RunLength(s: string, d: char): (n: nat)
    ensures n <= |s| && d !in s[..n] && (n < |s| ==> s[n] == d)
  {
    if s == "" || s[0] == d then 0
    else
      var n := RunLength(s[1..], d);
      assert s[..n + 1] == [s[0]] + s[1..][..n];
      n + 1
  }

  lemma RunLengthIs(s: string, d: char, n: nat)
    requires n <= |s| && d !in s[..n] && (n < |s| ==> s[n] == d)
    ensures RunLength(s, d) == n
  {
    var m := RunLength(s, d);
    forall k | 0 <= k < n ensures s[k] != d {
      assert s[..n][k] == s[k];
    }
    forall k | 0 <= k < m ensures s[k] != d {
      assert s[..m][k] == s[k];
    }
  }

  // The maximal delimiter-free runs of s, in order.
  function Tokens(s: string, d: char): seq<string>
    decreases |s|
  {
    if s == "" then []
    else if s[0] == d then Tokens(s[1..], d)
    else
      var n := RunLength(s, d);
      [s[..n]] + Tokens(s[n..], d)
  }

  lemma {:induction false} TokensClean(s: string, d: char)
    ensures forall i :: 0 <= i < |Tokens(s, d)| ==> Clean(Tokens(s, d)[i], d)
    decreases |s|
  {
    if s == "" {
    } else if s[0] == d {
      TokensClean(s[1..], d);
    } else {
      TokensClean(s[RunLength(s, d)..], d);
    }
  }

  lemma {:induction false} RunLengthBefore(x: string, y: string, d: char)
    ensures RunLength(x + [d] + y, d) == RunLength(x, d)
  {
    var s := x + [d] + y;
    if x == "" {
      assert s[0] == d;
    } else if x[0] != d {
      RunLengthBefore(x[1..], y, d);
      assert s[1..] == x[1..] + [d] + y;
    }
  }

  // A delimiter splits any message into two that can be taken apart separately.
  lemma {:induction false} TokensSplit(x: string, y: string, d: char)
    ensures Tokens(x + [d] + y, d) == Tokens(x, d) + Tokens(y, d)
    decreases |x|
  {
    var s := x + [d] + y;
    if x == "" {
      assert s[1..] == y;
    } else if x[0] == d {
      assert s[1..] == x[1..] + [d] + y;
      TokensSplit(x[1..], y, d);
    } else {
      var n := RunLength(x, d);
      RunLengthBefore(x, y, d);
      assert s[..n] == x[..n] && s[n..] == x[n..] + [d] + y;
      TokensSplit(x[n..], y, d);
    }
  }

  lemma TokensOfClean(f: string, d: char)
    requires Clean(f, d)
    ensures Tokens(f, d) == [f]
  {
    var n := RunLength(f, d);
    forall k | 0 <= k < |f| ensures f[k] != d {
      assert f[k] in f;
    }
    assert f[..n] == f && f[n..] == "";
  }

  function AllTokens(fields: seq<string>, d: char): seq<string> {
    if fields == [] then [] else AllTokens(fields[..|fields| - 1], d) + Tokens(fields[|fields| - 1], d)
  }

  // Whatever the fields are, parsing the built message gives the tokens of each field
  // in turn.
  lemma {:induction false} ParseBuilt(fields: seq<string>, d: char)
    ensures Tokens(Build(fields, d), d) == AllTokens(fields, d)
  {
    if fields != [] {
      var init, f := fields[..|fields| - 1], fields[|fields| - 1];
      ParseBuilt(init, d);
      TokensSplit(Build(init, d), f, d);
    }
  }

  lemma {:induction false} AllTokensOfClean(fields: seq<string>, d: char)
    requires forall i :: 0 <= i < |fields| ==> Clean(fields[i], d)
    ensures AllTokens(fields, d) == fields
  {
    if fields != [] {
      var n := |fields| - 1;
      AllTokensOfClean(fields[..n], d);
      TokensOfClean(fields[n], d);
      assert fields == fields[..n] + [fields[n]];
    }
  }

  // Parsing a built message returns its fields if and only if none of them is empty
  // or holds a delimiter.
  lemma RoundTrip(fields: seq<string>, d: char)
    ensures Tokens(Build(fields, d), d) == fields <==> forall i :: 0 <= i < |fields| ==> Clean(fields[i], d)
  {
    ParseBuilt(fields, d);
    if forall i :: 0 <= i < |fields| ==> Clean(fields[i], d) {
      AllTokensOfClean(fields, d);
    }
    TokensClean(Build(fields, d), d);
  }

  // Rebuilding a parsed message and parsing it again changes nothing.
  lemma Reparse(s: string, d: char)
    ensures Tokens(Build(Tokens(s, d), d), d) == Tokens(s, d)
  {
    TokensClean(s, d);
    RoundTrip(Tokens(s, d), d);
  }

  class MessageConstructor {
    const delimiter: char
    var message: string

    constructor (delimiter: char)
      ensures message == "" && this.delimiter == delimiter
    {
      this.delimiter := delimiter;
      message := "";
    }

    method AddField(field: string, ghost before: seq<string>)
      requires message == Build(before, delimiter)
      modifies this
      ensures message == Build(before + [field], delimiter)
    {
      assert (before + [field])[..|before|] == before;
      if message != "" {
        message := message + [delimiter];
      }
      message := message + field;
    }
  }

  // Where a part of a text begins and ends.
  type Span = (nat, nat)

  // The parts of a text that lie between the given bounds.
  function Cut(s: string, spans: seq<Span>): (fs: seq<string>)
    requires forall i :: 0 <= i < |spans| ==> spans[i].0 <= spans[i].1 <= |s|
    ensures |fs| == |spans| && forall i :: 0 <= i < |fs| ==> fs[i] == s[spans[i].0..spans[i].1]
  {
    if spans == [] then []
    else
      var n := |spans| - 1;
      Cut(s, spans[..n]) + [s[spans[n].0..spans[n].1]]
  }

  // A run that can be extended on neither side.
  predicate Maximal(s: string, d: char, span: Span) {
    && span.0 < span.1 <= |s| && d !in s[span.0..span.1]
    && (span.0 > 0 ==> s[span.0 - 1] == d)
    && (span.1 < |s| ==> s[span.1] == d)
  }

  // Maximal runs in rising order, all of them before a place where a run can begin.
  predicate Ordered(s: string, d: char, spans: seq<Span>, position: nat) {
    && (forall i :: 0 <= i < |spans| ==> Maximal(s, d, spans[i]) && spans[i].1 <= position)
    && (forall i :: 0 <= i < |spans| - 1 ==> spans[i].1 < spans[i + 1].0)
    && position <= |s| && (position == 0 || position == |s| || s[position] == d || s[position - 1] == d)
  }

  // Every maximal run that begins before the position is among the spans.
  ghost predicate Covered(s: string, d: char, spans: seq<Span>, position: nat) {
    forall span: Span :: Maximal(s, d, span) && span.0 < position ==> span in spans
  }

  // What has been read together with what is left makes all the tokens.
  ghost predicate Progress(s: string, d: char, spans: seq<Span>, position: nat) {
    && Ordered(s, d, spans, position) && Covered(s, d, spans, position)
    && Tokens(s, d) == Cut(s, spans) + Tokens(s[position..], d)
  }

  lemma ProgressSkips(s: string, d: char, spans: seq<Span>, position: nat)
    requires Progress(s, d, spans, position) && position < |s| && s[position] == d
    ensures Progress(s, d, spans, position + 1)
  {
    assert s[position..][1..] == s[position + 1..];
  }

  lemma CutGrows(s: string, spans: seq<Span>, span: Span)
    requires forall i :: 0 <= i < |spans| ==> spans[i].0 <= spans[i].1 <= |s|
    requires span.0 <= span.1 <= |s|
    ensures Cut(s, spans + [span]) == Cut(s, spans) + [s[span.0..span.1]]
  {
    assert (spans + [span])[..|spans|] == spans;
  }

  lemma RunIsToken(s: string, d: char, start: nat, end: nat)
    requires start < end <= |s| && d !in s[start..end]
    requires end < |s| ==> s[end] == d
    ensures Tokens(s[start..], d) == [s[start..end]] + Tokens(s[end..], d)
  {
    var rest := s[start..];
    assert rest[..end - start] == s[start..end] && rest[end - start..] == s[end..];
    assert s[start..end][0] == s[start];
    RunLengthIs(rest, d, end - start);
  }

  lemma OrderedTakes(s: string, d: char, spans: seq<Span>, start: nat, end: nat)
    requires Ordered(s, d, spans, start) && start < end <= |s| && d !in s[start..end]
    requires end < |s| ==> s[end] == d
    ensures Ordered(s, d, spans + [(start, end)], end)
  {
    assert s[start..end][0] == s[start];
    forall i | 0 <= i < |spans| ensures spans[i].1 < start {
      var span := spans[i];
      assert Maximal(s, d, span);
      assert s[span.0..span.1][span.1 - 1 - span.0] == s[span.1 - 1];
    }
  }

  lemma CoveredTakes(s: string, d: char, spans: seq<Span>, start: nat, end: nat)
    requires Covered(s, d, spans, start) && start < end <= |s| && d !in s[start..end]
    requires end < |s| ==> s[end] == d
    ensures Covered(s, d, spans + [(start, end)], end)
  {
    forall k | start <= k < end ensures s[k] != d {
      assert s[start..end][k - start] == s[k];
    }
    forall span: Span | Maximal(s, d, span) && start <= span.0 < end ensures span == (start, end) {
      forall k | span.0 <= k < span.1 ensures s[k] != d {
        assert s[span.0..span.1][k - span.0] == s[k];
      }
    }
  }

  lemma ProgressTakes(s: string, d: char, spans: seq<Span>, start: nat, end: nat)
    requires Progress(s, d, spans, start) && start < end <= |s| && d !in s[start..end]
    requires end < |s| ==> s[end] == d
    ensures Progress(s, d, spans + [(start, end)], end)
  {
    OrderedTakes(s, d, spans, start, end);
    CoveredTakes(s, d, spans, start, end);
    CutGrows(s, spans, (start, end));
    RunIsToken(s, d, start, end);
    PrependOne(Cut(s, spans), s[start..end], Tokens(s[end..], d));
  }

  class MessageParser {
    const content: string
    const delimiter: char
    var position: nat
    // The bounds of the fields in the content.
    var spans: seq<Span>

    ghost predicate Valid()
      reads this
    {
      Progress(content, delimiter, spans, position)
    }

    function Fields(): seq<string>
      requires Valid()
      reads this
    {
      Cut(content, spans)
    }

    // The fields are the maximal delimiter-free runs of the content.
    constructor (content: string, delimiter: char)
      ensures Valid() && this.content == content && this.delimiter == delimiter
      ensures Fields() == Tokens(content, delimiter)
      ensures forall span: Span :: span in spans <==> Maximal(content, delimiter, span)
      ensures forall i :: 0 <= i < |spans| - 1 ==> spans[i].1 < spans[i + 1].0
    {
      this.content, this.delimiter := content, delimiter;
      position, spans := 0, [];
      new;
      assert content[0..] == content;
      ReadAll();
    }

    method ReadAll()
      requires Valid()
      modifies this
      ensures Valid() && Fields() == Tokens(content, delimiter) && position == |content|
    {
      var end := AtEnd();
      while !end
        invariant Valid() && (end <==> position == |content|)
        decreases |content| - position
      {
        ReadField();
        end := AtEnd();
      }
    }

    method SkipDelimiter()
      requires Valid()
      modifies this`position
      ensures Valid() && old(position) <= position
      ensures position < |content| ==> content[position] != delimiter
    {
      while position < |content| && content[position] == delimiter
        invariant Valid() && old(position) <= position
      {
        ProgressSkips(content, delimiter, spans, position);
        position := position + 1;
      }
    }

    // Moves to the end of the delimiter-free run at the position.
    method ReadRun()
      requires position <= |content|
      modifies this`position
      ensures old(position) <= position <= |content| && delimiter !in content[old(position)..position]
      ensures position < |content| ==> content[position] == delimiter
    {
      while position < |content| && content[position] != delimiter
        invariant old(position) <= position <= |content| && delimiter !in content[old(position)..position]
      {
        position := position + 1;
      }
    }

    method ReadField()
      requires Valid() && position < |content|
      modifies this
      ensures Valid() && old(position) < position
    {
      SkipDelimiter();
      var start := position;
      ReadRun();
      if start != position {
        ProgressTakes(content, delimiter, spans, start, position);
        spans := spans + [(start, position)];
      }
    }

    method AtEnd() returns (end: bool)
      requires Valid()
      modifies this`position
      ensures Valid() && old(position) <= position
      ensures end <==> position == |content|
    {
      SkipDelimiter();
      end := position == |content|;
    }
  }
}
