// Geohash encoding by bisection.

module Geohash {
  import opened Basics

  const BASE32: string := "0123456789bcdefghjkmnpqrstuvwxyz"
  const MAX_PRECISION: nat := 12

  // The alphabet: digits and lower-case letters other than a, i, l and o, in rising order.
  lemma AlphabetIs(c: char)
    ensures c in BASE32 <==> '0' <= c <= '9' || ('b' <= c <= 'z' && c != 'i' && c != 'l' && c != 'o')
    ensures |BASE32| == 32
  {
    var letters := "bcdefghjkmnpqrstuvwxyz";
    assert BASE32 == "0123456789" + letters;
    DigitsAre(c);
    LettersAre(c);
  }

  lemma DigitsAre(c: char)
    ensures c in "0123456789" <==> '0' <= c <= '9'
  {
    if '0' <= c <= '9' {
      var i := c as int - '0' as int;
      assert "0123456789"[i] == c;
    }
  }

  lemma LettersAre(c: char)
    ensures c in "bcdefghjkmnpqrstuvwxyz" <==> 'b' <= c <= 'z' && c != 'i' && c != 'l' && c != 'o'
  {
    var s, n := "bcdefghjkmnpqrstuvwxyz", c as int;
    if 'b' <= c <= 'h' {
      assert s[n - 98] == c;
    } else if 'j' <= c <= 'k' {
      assert s[n - 99] == c;
    } else if 'm' <= c <= 'n' {
      assert s[n - 100] == c;
    } else if 'p' <= c <= 'z' {
      assert s[n - 101] == c;
    }
  }

  predicate InWorld(lon: real, lat: real) {
    -180.0 <= lon <= 180.0 && -90.0 <= lat <= 90.0
  }

  predicate Even(k: nat) {
    k % 2 == 0
  }

  lemma ParityFlips(k: nat)
    ensures Even(k + 1) == !Even(k)
  {
  }

  // --- cells

  datatype Box = Box(lonMin: real, lonMax: real, latMin: real, latMax: real) {
    // A cell contains its lower bounds, and its upper bounds only at the edge of the
    // world.
    ghost predicate Contains(lon: real, lat: real) {
      && lonMin <= lon && (lon < lonMax || lon == lonMax == 180.0)
      && latMin <= lat && (lat < latMax || lat == latMax == 90.0)
    }

    ghost predicate Proper() {
      -180.0 <= lonMin < lonMax <= 180.0 && -90.0 <= latMin < latMax <= 90.0
    }

    // One of the two halves: of the longitudes, or else of the latitudes.
    function Half(byLon: bool, upper: bool): Box {
      var lonMid, latMid := (lonMin + lonMax) / 2.0, (latMin + latMax) / 2.0;
      if byLon then (if upper then this.(lonMin := lonMid) else this.(lonMax := lonMid))
      else (if upper then this.(latMin := latMid) else this.(latMax := latMid))
    }

    predicate InUpper(byLon: bool, lon: real, lat: real) {
      if byLon then lon >= (lonMin + lonMax) / 2.0 else lat >= (latMin + latMax) / 2.0
    }
  }

  const WORLD: Box := Box(-180.0, 180.0, -90.0, 90.0)

  // The cell that a sequence of choices leads to; longitude comes first.
  function BoxOf(bits: seq<bool>): Box {
    if bits == [] then WORLD
    else BoxOf(bits[..|bits| - 1]).Half(Even(|bits| - 1), bits[|bits| - 1])
  }

  function Halved(x: real, k: nat): real {
    if k == 0 then x else Halved(x, k - 1) / 2.0
  }

  // k choices halve the longitudes ceil(k/2) times and the latitudes floor(k/2) times.
  lemma {:induction false} BoxSides(bits: seq<bool>)
    ensures var b, k := BoxOf(bits), |bits|;
            && b.Proper()
            && b.lonMax - b.lonMin == Halved(360.0, (k + 1) / 2)
            && b.latMax - b.latMin == Halved(180.0, k / 2)
  {
    if bits != [] {
      BoxSides(bits[..|bits| - 1]);
    }
  }

  // The choices the bisection makes for a point.
  function Path(lon: real, lat: real, k: nat): (bits: seq<bool>)
    ensures |bits| == k
  {
    if k == 0 then []
    else
      var before := Path(lon, lat, k - 1);
      before + [BoxOf(before).InUpper(Even(k - 1), lon, lat)]
  }

  lemma HalfContains(b: Box, byLon: bool, upper: bool, lon: real, lat: real)
    requires b.Proper() && InWorld(lon, lat)
    ensures b.Half(byLon, upper).Contains(lon, lat) <==> b.Contains(lon, lat) && upper == b.InUpper(byLon, lon, lat)
  {
  }

  // The choices for a point are the only ones whose cell contains it.
  lemma {:induction false} PathUnique(lon: real, lat: real, bits: seq<bool>)
    requires InWorld(lon, lat)
    ensures BoxOf(bits).Contains(lon, lat) <==> bits == Path(lon, lat, |bits|)
  {
    if bits != [] {
      var init, last := bits[..|bits| - 1], bits[|bits| - 1];
      PathUnique(lon, lat, init);
      BoxSides(init);
      HalfContains(BoxOf(init), Even(|init|), last, lon, lat);
      assert bits == init + [last];
      var path := Path(lon, lat, |bits|);
      assert path[..|init|] == Path(lon, lat, |init|);
    }
  }

  lemma {:induction false} PathPrefix(lon: real, lat: real, j: nat, k: nat)
    requires j <= k
    ensures Path(lon, lat, k)[..j] == Path(lon, lat, j)
  {
    if j < k {
      var m := k - 1;
      PathPrefix(lon, lat, j, m);
      PathShorter(lon, lat, k, m);
      TakeTake(Path(lon, lat, k), m, j);
    }
  }

  lemma PathShorter(lon: real, lat: real, k: nat, m: nat)
    requires k == m + 1
    ensures Path(lon, lat, k)[..m] == Path(lon, lat, m)
  {
  }

  // --- characters

  function Pow2(n: nat): nat {
    if n == 0 then 1 else 2 * Pow2(n - 1)
  }

  // The number that bits denote, first bit highest.
  function Value(bits: seq<bool>): (v: nat)
    ensures v < Pow2(|bits|)
  {
    if bits == [] then 0 else 2 * Value(bits[..|bits| - 1]) + (if bits[|bits| - 1] then 1 else 0)
  }

  function ToBits(v: nat, n: nat): (bits: seq<bool>)
    ensures |bits| == n
  {
    if n == 0 then [] else ToBits(v / 2, n - 1) + [v % 2 == 1]
  }

  lemma {:induction false} ToBitsOfValue(bits: seq<bool>)
    ensures ToBits(Value(bits), |bits|) == bits
  {
    if bits != [] {
      var init := bits[..|bits| - 1];
      ToBitsOfValue(init);
      assert Value(bits) / 2 == Value(init);
      assert bits == init + [bits[|bits| - 1]];
    }
  }

  lemma {:induction false} ValueOfToBits(v: nat, n: nat)
    requires v < Pow2(n)
    ensures Value(ToBits(v, n)) == v
  {
    if n > 0 {
      ValueOfToBits(v / 2, n - 1);
      assert ToBits(v, n)[..n - 1] == ToBits(v / 2, n - 1);
    }
  }

  lemma FivePow()
    ensures Pow2(5) == 32
  {
    assert Pow2(1) == 2;
    assert Pow2(2) == 4;
    assert Pow2(3) == 8;
  }

  predicate InAlphabet(c: char) {
    c in BASE32
  }

  // The place of a character in the alphabet.
  ghost function Place(c: char): (v: nat)
    requires InAlphabet(c)
    ensures v < 32 && BASE32[v] == c
  {
    var v: nat :| v < |BASE32| && BASE32[v] == c;
    v
  }

  // The alphabet ascends, so no character occurs twice.
  lemma {:induction false} AlphabetAscends(i: nat, j: nat)
    requires i < j < 32
    ensures BASE32[i] < BASE32[j]
  {
    if i + 1 < j {
      AlphabetAscends(i, j - 1);
    }
    AlphabetStep(j - 1);
  }

  lemma AlphabetStep(i: nat)
    requires i < 31
    ensures BASE32[i] < BASE32[i + 1]
  {
  }

  lemma PlaceOf(v: nat)
    requires v < 32
    ensures InAlphabet(BASE32[v]) && Place(BASE32[v]) == v
  {
    var d := Place(BASE32[v]);
    if d < v {
      AlphabetAscends(d, v);
    } else if v < d {
      AlphabetAscends(v, d);
    }
  }

  // --- five bits to a digit, one digit to a character

  type Digit = v: nat | v < 32

  function DigitOf(bits: seq<bool>): Digit
    requires |bits| == 5
  {
    FivePow();
    Value(bits)
  }

  // Group i of five bits.
  function Group(bits: seq<bool>, i: nat): (g: seq<bool>)
    requires 5 * i + 5 <= |bits|
    ensures |g| == 5
  {
    bits[5 * i..5 * i + 5]
  }

  function Digits(bits: seq<bool>, n: nat): (ds: seq<Digit>)
    requires |bits| == 5 * n
    ensures |ds| == n && forall i :: 0 <= i < n ==> ds[i] == DigitOf(Group(bits, i))
  {
    seq(n, i requires 0 <= i < n => DigitOf(Group(bits, i)))
  }

  function BitsFrom(ds: seq<Digit>): (bits: seq<bool>)
    ensures |bits| == 5 * |ds| && forall k :: 0 <= k < |bits| ==> bits[k] == ToBits(ds[k / 5], 5)[k % 5]
  {
    seq(5 * |ds|, k requires 0 <= k < 5 * |ds| => ToBits(ds[k / 5], 5)[k % 5])
  }

  lemma DigitBits(bits: seq<bool>)
    requires |bits| == 5
    ensures ToBits(DigitOf(bits), 5) == bits
  {
    ToBitsOfValue(bits);
  }

  lemma BitsDigit(d: Digit)
    ensures DigitOf(ToBits(d, 5)) == d
  {
    FivePow();
    ValueOfToBits(d, 5);
  }

  // Digits and bits determine each other.
  lemma BitsOfDigits(bits: seq<bool>, n: nat)
    requires |bits| == 5 * n
    ensures BitsFrom(Digits(bits, n)) == bits
  {
    forall k | 0 <= k < 5 * n ensures BitsFrom(Digits(bits, n))[k] == bits[k] {
      DigitBits(Group(bits, k / 5));
      assert Group(bits, k / 5)[k % 5] == bits[k];
    }
  }

  lemma GroupOfBits(ds: seq<Digit>, i: nat)
    requires i < |ds|
    ensures Group(BitsFrom(ds), i) == ToBits(ds[i], 5)
  {
    var bits, group := BitsFrom(ds), Group(BitsFrom(ds), i);
    forall j | 0 <= j < 5 ensures group[j] == ToBits(ds[i], 5)[j] {
      FifthOf(i, j);
      assert group[j] == bits[5 * i + j];
    }
  }

  lemma FifthOf(i: nat, j: nat)
    requires j < 5
    ensures (5 * i + j) / 5 == i && (5 * i + j) % 5 == j
  {
  }

  lemma DigitsOfBits(ds: seq<Digit>)
    ensures Digits(BitsFrom(ds), |ds|) == ds
  {
    forall i | 0 <= i < |ds| ensures Digits(BitsFrom(ds), |ds|)[i] == ds[i] {
      GroupOfBits(ds, i);
      BitsDigit(ds[i]);
    }
  }

  function Spell(ds: seq<Digit>): (s: string)
    ensures |s| == |ds| && forall i :: 0 <= i < |s| ==> s[i] == BASE32[ds[i]]
  {
    seq(|ds|, i requires 0 <= i < |ds| => BASE32[ds[i]])
  }

  predicate IsGeohash(s: string) {
    forall i :: 0 <= i < |s| ==> InAlphabet(s[i])
  }

  ghost function Read(s: string): (ds: seq<Digit>)
    requires IsGeohash(s)
    ensures |ds| == |s| && forall i :: 0 <= i < |s| ==> ds[i] == Place(s[i])
  {
    seq(|s|, i requires 0 <= i < |s| => Place(s[i]))
  }

  // The cell that a geohash denotes.
  ghost function CellOf(s: string): Box
    requires IsGeohash(s)
  {
    BoxOf(BitsFrom(Read(s)))
  }

  lemma SpellRead(s: string)
    requires IsGeohash(s)
    ensures Spell(Read(s)) == s
  {
  }

  lemma ReadSpell(ds: seq<Digit>)
    ensures IsGeohash(Spell(ds)) && Read(Spell(ds)) == ds
  {
    forall i | 0 <= i < |ds| ensures InAlphabet(Spell(ds)[i]) && Place(Spell(ds)[i]) == ds[i] {
      PlaceOf(ds[i]);
    }
  }

  // --- the encoder

  function Encoded(lon: real, lat: real, n: nat): (s: string)
    ensures |s| == n
  {
    Spell(Digits(Path(lon, lat, 5 * n), n))
  }

  method FromCoordinates(lon: real, lat: real, precision: nat) returns (geohash: string)
    ensures geohash ==
            if InWorld(lon, lat) then Encoded(lon, lat, if precision > MAX_PRECISION then MAX_PRECISION else precision)
            else ""
  {
    var limit := precision;
    if limit > MAX_PRECISION {
      limit := MAX_PRECISION;
    }
    var idx: nat := 0;
    var bit: nat := 0;
    var evenBit := true;
    geohash := "";
    var box := WORLD;
    if lon < box.lonMin || lon > box.lonMax {
      return;
    }
    if lat < box.latMin || lat > box.latMax {
      return;
    }
    InProgressStart(lon, lat);
    while |geohash| < limit
      invariant |geohash| <= limit && bit < 5 && (|geohash| == limit ==> bit == 0)
      invariant InProgress(lon, lat, bit, evenBit, box, idx, geohash)
      decreases limit - |geohash|, 5 - bit
    {
      if bit < 4 {
        NextBit(lon, lat, bit, evenBit, box, idx, geohash);
      } else {
        LastBit(lon, lat, evenBit, box, idx, geohash);
      }
      box, idx := Bisect(lon, lat, box, evenBit, idx);
      evenBit := !evenBit;
      bit := bit + 1;
      if bit == 5 {
        geohash := geohash + [BASE32[idx]];
        bit := 0;
        idx := 0;
      }
    }
  }

  // One bisection, of the longitudes or of the latitudes.
  method Bisect(lon: real, lat: real, box: Box, evenBit: bool, idx: nat) returns (half: Box, idx': nat)
    ensures half == NextBox(box, evenBit, lon, lat) && idx' == NextIdx(box, evenBit, lon, lat, idx)
  {
    half := box;
    if evenBit {
      var lonMid := (box.lonMin + box.lonMax) / 2.0;
      if lon >= lonMid {
        idx' := idx * 2 + 1;
        half := half.(lonMin := lonMid);
      } else {
        idx' := idx * 2;
        half := half.(lonMax := lonMid);
      }
    } else {
      var latMid := (box.latMin + box.latMax) / 2.0;
      if lat >= latMid {
        idx' := idx * 2 + 1;
        half := half.(latMin := latMid);
      } else {
        idx' := idx * 2;
        half := half.(latMax := latMid);
      }
    }
  }

  // After k choices, with those from m on collected in idx.
  ghost predicate Bisected(lon: real, lat: real, k: nat, m: nat, box: Box, idx: nat) {
    m <= k && box == BoxOf(Path(lon, lat, k)) && idx == Value(Path(lon, lat, k)[m..])
  }

  lemma PathStep(lon: real, lat: real, k: nat, m: nat, box: Box, idx: nat)
    requires Bisected(lon, lat, k, m, box, idx)
    ensures Bisected(lon, lat, k + 1, m, NextBox(box, Even(k), lon, lat), NextIdx(box, Even(k), lon, lat, idx))
  {
    var before, after := Path(lon, lat, k), Path(lon, lat, k + 1);
    assert after[..k] == before;
    assert after[m..][..k - m] == before[m..];
  }

  ghost predicate Chosen(lon: real, lat: real, k: nat, m: nat, evenBit: bool, box: Box, idx: nat) {
    evenBit == Even(k) && Bisected(lon, lat, k, m, box, idx)
  }

  lemma ChosenNext(lon: real, lat: real, k: nat, m: nat, evenBit: bool, box: Box, idx: nat)
    requires Chosen(lon, lat, k, m, evenBit, box, idx)
    ensures Chosen(lon, lat, k + 1, m, !evenBit, NextBox(box, evenBit, lon, lat), NextIdx(box, evenBit, lon, lat, idx))
  {
    PathStep(lon, lat, k, m, box, idx);
    ParityFlips(k);
  }

  // The state of the encoder's loop.
  ghost predicate InProgress(lon: real, lat: real, bit: nat, evenBit: bool, box: Box, idx: nat, geohash: string) {
    var n := |geohash|;
    && Chosen(lon, lat, 5 * n + bit, 5 * n, evenBit, box, idx)
    && geohash == Encoded(lon, lat, n)
  }

  lemma InProgressStart(lon: real, lat: real)
    ensures InProgress(lon, lat, 0, true, WORLD, 0, "")
  {
  }

  function NextIdx(box: Box, byLon: bool, lon: real, lat: real, idx: nat): nat {
    2 * idx + (if box.InUpper(byLon, lon, lat) then 1 else 0)
  }

  function NextBox(box: Box, byLon: bool, lon: real, lat: real): Box {
    box.Half(byLon, box.InUpper(byLon, lon, lat))
  }

  lemma NextBit(lon: real, lat: real, bit: nat, evenBit: bool, box: Box, idx: nat, geohash: string)
    requires bit < 4 && InProgress(lon, lat, bit, evenBit, box, idx, geohash)
    ensures InProgress(lon, lat, bit + 1, !evenBit, NextBox(box, evenBit, lon, lat),
                       NextIdx(box, evenBit, lon, lat, idx), geohash)
  {
    ChosenNext(lon, lat, 5 * |geohash| + bit, 5 * |geohash|, evenBit, box, idx);
  }

  lemma LastBit(lon: real, lat: real, evenBit: bool, box: Box, idx: nat, geohash: string)
    requires InProgress(lon, lat, 4, evenBit, box, idx, geohash)
    ensures var next := NextIdx(box, evenBit, lon, lat, idx);
            next < 32 && InProgress(lon, lat, 0, !evenBit, NextBox(box, evenBit, lon, lat), 0, geohash + [BASE32[next]])
  {
    var n := |geohash|;
    ChosenNext(lon, lat, 5 * n + 4, 5 * n, evenBit, box, idx);
    EncodedStep(lon, lat, n, NextBox(box, evenBit, lon, lat), NextIdx(box, evenBit, lon, lat, idx));
  }

  lemma EncodedStep(lon: real, lat: real, n: nat, box: Box, idx: nat)
    requires Bisected(lon, lat, 5 * n + 5, 5 * n, box, idx)
    ensures idx < 32
    ensures InProgress(lon, lat, 0, Even(5 * n + 5), box, 0, Encoded(lon, lat, n) + [BASE32[idx]])
  {
    var path := Path(lon, lat, 5 * n + 5);
    assert path[5 * n..] == Group(path, n);
    FivePow();
    EncodedPrefix(lon, lat, n, n + 1);
    assert 5 * (n + 1) == 5 * n + 5;
  }

  lemma GroupPrefix(lon: real, lat: real, m: nat, n: nat, i: nat)
    requires i < m <= n
    ensures Group(Path(lon, lat, 5 * m), i) == Group(Path(lon, lat, 5 * n), i)
  {
    var long, short := Path(lon, lat, 5 * n), Path(lon, lat, 5 * m);
    PathPrefix(lon, lat, 5 * m, 5 * n);
    assert long[..5 * m] == short;
  }

  lemma EncodedPrefix(lon: real, lat: real, m: nat, n: nat)
    requires m <= n
    ensures Encoded(lon, lat, m) == Encoded(lon, lat, n)[..m]
  {
    forall i | 0 <= i < m ensures Encoded(lon, lat, m)[i] == Encoded(lon, lat, n)[i] {
      GroupPrefix(lon, lat, m, n, i);
    }
  }

  // --- what an encoding means

  // A geohash of some length encodes a point if and only if its cell contains the
  // point. So the cells of the geohashes of each length partition the world, and
  // encoding any point of the cell of a geohash gives that geohash back.
  lemma EncodedIffInCell(lon: real, lat: real, s: string)
    requires InWorld(lon, lat) && IsGeohash(s)
    ensures Encoded(lon, lat, |s|) == s <==> CellOf(s).Contains(lon, lat)
  {
    var path := Path(lon, lat, 5 * |s|);
    PathUnique(lon, lat, BitsFrom(Read(s)));
    SpellRead(s);
    DigitsOfBits(Read(s));
    BitsOfDigits(path, |s|);
    ReadSpell(Digits(path, |s|));
  }

  lemma CellOfEncoded(lon: real, lat: real, n: nat)
    ensures IsGeohash(Encoded(lon, lat, n)) && CellOf(Encoded(lon, lat, n)) == BoxOf(Path(lon, lat, 5 * n))
  {
    var path := Path(lon, lat, 5 * n);
    BitsOfDigits(path, n);
    ReadSpell(Digits(path, n));
  }

  // Every point has a geohash of each length; its cell contains the point and has the
  // sides that the halvings give, and shorter geohashes are prefixes of longer ones.
  lemma EncodedLaw(lon: real, lat: real, m: nat, n: nat)
    requires InWorld(lon, lat) && m <= n
    ensures var s := Encoded(lon, lat, n);
            && IsGeohash(s) && CellOf(s).Contains(lon, lat)
            && CellOf(s).lonMax - CellOf(s).lonMin == Halved(360.0, (5 * n + 1) / 2)
            && CellOf(s).latMax - CellOf(s).latMin == Halved(180.0, 5 * n / 2)
            && Encoded(lon, lat, m) == s[..m]
  {
    CellOfEncoded(lon, lat, n);
    PathUnique(lon, lat, Path(lon, lat, 5 * n));
    BoxSides(Path(lon, lat, 5 * n));
    EncodedPrefix(lon, lat, m, n);
  }
}
