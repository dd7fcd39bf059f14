/** The fields of the sentences: walking from comma to comma, what the two parsers store, and
    sentences put together from fields. */
module Sentences {
  import opened Words
  import opened TextNumbers
  import opened Nmea

  // ----- Fields

  /** The position after the next comma, -1 if there is none: strchr(ptr, ',') + 1. */
  function NextComma(line: Line, p: nat): (q: int)
    requires p <= |line|
    ensures -1 <= q <= |line|
    decreases |line| - p
  {
    if p == |line| then -1
    else if line[p] == COMMA then p + 1
    else NextComma(line, p + 1)
  }

  /** k steps of that walk from the start of the line. */
  function AfterCommas(line: Line, k: nat): (p: int)
    ensures -1 <= p <= |line|
  {
    if k == 0 then 0
    else
      var p := AfterCommas(line, k - 1);
      if p < 0 then -1 else NextComma(line, p)
  }

  /** What is read at a pointer ends at the next comma. */
  function TextAt(line: Line, p: nat): (f: seq<u8>)
    requires p <= |line|
  {
    var q := NextComma(line, p);
    if q < 0 then line[p..] else CommaBefore(line, p); line[p..q - 1]
  }

  lemma CommaBefore(line: Line, p: nat)
    requires p <= |line| && NextComma(line, p) >= 0
    ensures p < NextComma(line, p) && line[NextComma(line, p) - 1] == COMMA
    decreases |line| - p
  {
    if line[p] != COMMA {
      CommaBefore(line, p + 1);
    }
  }

  function FieldText(line: Line, k: nat): seq<u8>
    requires AfterCommas(line, k) >= 0
  {
    TextAt(line, AfterCommas(line, k))
  }

  function Join(fields: seq<seq<u8>>): (line: Line)
    requires fields != []
  {
    if |fields| == 1 then fields[0] else fields[0] + [COMMA] + Join(fields[1..])
  }

  predicate NoCommas(fields: seq<seq<u8>>) {
    forall k :: 0 <= k < |fields| ==> COMMA !in fields[k]
  }

  lemma {:induction false} SkipText(line: Line, p: nat, text: seq<u8>)
    requires p + |text| <= |line| && line[p..p + |text|] == text && COMMA !in text
    ensures NextComma(line, p) == NextComma(line, p + |text|)
    decreases |text|
  {
    if text != [] {
      assert line[p] == text[0];
      assert line[p + 1..p + 1 + |text[1..]|] == text[1..];
      SkipText(line, p + 1, text[1..]);
    }
  }

  lemma FirstField(line: Line, p: nat, fields: seq<seq<u8>>)
    requires fields != [] && NoCommas(fields) && p <= |line| && line[p..] == Join(fields)
    ensures TextAt(line, p) == fields[0]
    ensures NextComma(line, p) == if |fields| == 1 then -1 else p + |fields[0]| + 1
    ensures |fields| > 1 ==> p + |fields[0]| + 1 <= |line| && line[p + |fields[0]| + 1..] == Join(fields[1..])
  {
    var q := p + |fields[0]|;
    assert line[p..q] == line[p..][..|fields[0]|] == fields[0];
    SkipText(line, p, fields[0]);
    if |fields| > 1 {
      assert line[q] == line[p..][|fields[0]|] == COMMA;
      assert line[q + 1..] == line[p..][|fields[0]| + 1..];
    }
  }

  /** The walk finds field k of a joined line, for every k there is, and no more. */
  lemma {:induction false} WalkFindsField(line: Line, fields: seq<seq<u8>>, k: nat)
    requires fields != [] && NoCommas(fields) && line == Join(fields) && k <= |fields|
    ensures k < |fields| ==> AfterCommas(line, k) >= 0 && line[AfterCommas(line, k)..] == Join(fields[k..])
                             && FieldText(line, k) == fields[k]
    ensures k == |fields| ==> AfterCommas(line, k) == -1
  {
    if k > 0 {
      WalkFindsField(line, fields, k - 1);
      FirstField(line, AfterCommas(line, k - 1), fields[k - 1..]);
      assert fields[k - 1..][1..] == fields[k..];
    } else {
      assert fields[0..] == fields && line[0..] == line;
    }
    if k < |fields| {
      FirstField(line, AfterCommas(line, k), fields[k..]);
    }
  }

  /** The texts that the two parsers convert. */
  datatype Fields = Fields(
    times: seq<u8>, latitude: seq<u8>, lat: seq<u8>, longitude: seq<u8>, lon: seq<u8>,
    sixth: seq<u8>, seventh: seq<u8>, last: seq<u8>)

  predicate HasFields(line: Line) {
    AfterCommas(line, 9) >= 0
  }

  lemma {:induction false} FewerCommas(line: Line, j: nat, k: nat)
    requires j <= k && AfterCommas(line, k) >= 0
    ensures AfterCommas(line, j) >= 0
  {
    if j < k {
      FewerCommas(line, j, k - 1);
    }
  }

  /** GGA: time, position, quality, satellites and, after one field more, altitude. */
  function GgaFields(line: Line): Fields
    requires HasFields(line)
  {
    var text := (k: nat) requires k <= 9 => (FewerCommas(line, k, 9); FieldText(line, k));
    Fields(text(1), text(2), text(3), text(4), text(5), text(6), text(7), text(9))
  }

  /** RMC: time and, after the status, position, speed, course and date. */
  function RmcFields(line: Line): Fields
    requires HasFields(line)
  {
    var text := (k: nat) requires k <= 9 => (FewerCommas(line, k, 9); FieldText(line, k));
    Fields(text(1), text(3), text(4), text(5), text(6), text(7), text(8), text(9))
  }

  /** The parsers take the fields a sentence was joined from. */
  lemma FieldsReadBack(fields: seq<seq<u8>>)
    requires |fields| >= 10 && NoCommas(fields)
    ensures HasFields(Join(fields))
    ensures GgaFields(Join(fields)) == Fields(fields[1], fields[2], fields[3], fields[4], fields[5],
                                              fields[6], fields[7], fields[9])
    ensures RmcFields(Join(fields)) == Fields(fields[1], fields[3], fields[4], fields[5], fields[6],
                                              fields[7], fields[8], fields[9])
  {
    forall k: nat | k <= 9
      ensures AfterCommas(Join(fields), k) >= 0 && FieldText(Join(fields), k) == fields[k]
    {
      WalkFindsField(Join(fields), fields, k);
    }
  }

  method Skip(line: Line, ptr: nat, ghost k: nat) returns (p: nat)
    requires ptr <= |line| && AfterCommas(line, k) == ptr && AfterCommas(line, k + 1) >= 0
    ensures p <= |line| && AfterCommas(line, k + 1) == p
  {
    p := ptr;
    while line[p] != COMMA
      invariant ptr <= p < |line| && NextComma(line, p) == NextComma(line, ptr)
      decreases |line| - p
    {
      p := p + 1;
    }
    p := p + 1;
  }

  // ----- What the parsers store

  const EAST: u8 := 'E' as int
  const NORTH: u8 := 'N' as int
  const SOUTH: u8 := 'S' as int
  const WEST: u8 := 'W' as int

  /** Letters are characters, 0 for an empty field. */
  datatype Gpgga = Gpgga(
    times: real, latitude: real, lat: u8, longitude: real, lon: u8,
    quality: u8, satellites: u8, altitude: real)

  datatype Gprmc = Gprmc(
    times: real, latitude: real, lat: u8, longitude: real, lon: u8,
    speed: real, course: real, date: real)

  /** What the letters of a structure hold before a parser writes to it. */
  datatype Letters = Letters(lat: u8, lon: u8)

  /** One of two letters, 0 for an empty field; any other text leaves what was there. */
  function LetterOf(text: seq<u8>, one: u8, other: u8, before: u8): u8 {
    if text == [] then 0
    else if text[0] == one || text[0] == other then text[0]
    else before
  }

  function GpggaFrom(f: Fields, before: Letters): Gpgga {
    Gpgga(Atof(f.times), Atof(f.latitude), LetterOf(f.lat, NORTH, SOUTH, before.lat),
          Atof(f.longitude), LetterOf(f.lon, WEST, EAST, before.lon),
          Atoi(f.sixth) % 0x100, Atoi(f.seventh) % 0x100, Atof(f.last))
  }

  function GprmcFrom(f: Fields, before: Letters): Gprmc {
    Gprmc(Atof(f.times), Atof(f.latitude), LetterOf(f.lat, NORTH, SOUTH, before.lat),
          Atof(f.longitude), LetterOf(f.lon, WEST, EAST, before.lon),
          Atof(f.sixth), Atof(f.seventh), Atof(f.last))
  }

  /** A number read from a pointer is the number of its field. */
  lemma FieldStops(line: Line, p: nat)
    requires p <= |line|
    ensures Atof(line[p..]) == Atof(TextAt(line, p)) && Atoi(line[p..]) == Atoi(TextAt(line, p))
  {
    var q := NextComma(line, p);
    if q >= 0 {
      CommaBefore(line, p);
      SplitAt(line, p, q - 1);
      NumberStops(line[p..q - 1], line[q - 1..]);
    }
  }

  lemma SplitAt(line: Line, p: nat, q: nat)
    requires p <= q < |line| && line[q] == COMMA
    ensures line[p..] == line[p..q] + line[q..] && StartsWithComma(line[q..])
  {
  }

  /** ptr stands at field k of the line. */
  predicate At(line: Line, ptr: nat, k: nat) {
    ptr <= |line| && AfterCommas(line, k) == ptr
  }

  method ReadReal(line: Line, ptr: nat, ghost k: nat) returns (x: real)
    requires At(line, ptr, k)
    ensures x == Atof(FieldText(line, k))
  {
    FieldStops(line, ptr);
    x := Atof(line[ptr..]);
  }

  method ReadByte(line: Line, ptr: nat, ghost k: nat) returns (x: u8)
    requires At(line, ptr, k)
    ensures x == Atoi(FieldText(line, k)) % 0x100
  {
    FieldStops(line, ptr);
    x := Atoi(line[ptr..]) % 0x100;
  }

  method ReadLetter(line: Line, ptr: nat, ghost k: nat, one: u8, other: u8, before: u8) returns (c: u8)
    requires At(line, ptr, k) && AfterCommas(line, k + 1) >= 0 && one != COMMA && other != COMMA
    ensures c == LetterOf(FieldText(line, k), one, other, before)
  {
    CommaBefore(line, ptr);
    c := before;
    if line[ptr] == one {
      c := one;
    } else if line[ptr] == other {
      c := other;
    } else if line[ptr] == COMMA {
      c := 0;
    }
    if line[ptr] != COMMA {
      CommaBefore(line, ptr + 1);
    }
  }

  /** A coordinate and its letter: two fields. */
  method ReadCoordinate(line: Line, start: nat, ghost k: nat, one: u8, other: u8, before: u8)
    returns (ptr: nat, value: real, letter: u8)
    requires At(line, start, k) && AfterCommas(line, k + 1) >= 0 && AfterCommas(line, k + 2) >= 0
    requires one != COMMA && other != COMMA
    ensures At(line, ptr, k + 1)
    ensures value == Atof(FieldText(line, k)) && letter == LetterOf(FieldText(line, k + 1), one, other, before)
  {
    value := ReadReal(line, start, k);
    ptr := Skip(line, start, k);
    letter := ReadLetter(line, ptr, k + 1, one, other, before);
  }

  method ParseGpgga(line: Line, before: Letters) returns (loc: Gpgga)
    requires HasFields(line)
    ensures loc == GpggaFrom(GgaFields(line), before)
  {
    forall j: nat | j <= 9 ensures AfterCommas(line, j) >= 0 { FewerCommas(line, j, 9); }
    var ptr := Skip(line, 0, 0);
    var times := ReadReal(line, ptr, 1);
    ptr := Skip(line, ptr, 1);
    var latitude, lat, longitude, lon;
    ptr, latitude, lat := ReadCoordinate(line, ptr, 2, NORTH, SOUTH, before.lat);
    ptr := Skip(line, ptr, 3);
    ptr, longitude, lon := ReadCoordinate(line, ptr, 4, WEST, EAST, before.lon);
    ptr := Skip(line, ptr, 5);
    var quality := ReadByte(line, ptr, 6);
    ptr := Skip(line, ptr, 6);
    var satellites := ReadByte(line, ptr, 7);
    ptr := Skip(line, ptr, 7);
    ptr := Skip(line, ptr, 8);
    var altitude := ReadReal(line, ptr, 9);
    loc := Gpgga(times, latitude, lat, longitude, lon, quality, satellites, altitude);
  }

  method ParseGprmc(line: Line, before: Letters) returns (loc: Gprmc)
    requires HasFields(line)
    ensures loc == GprmcFrom(RmcFields(line), before)
  {
    forall j: nat | j <= 9 ensures AfterCommas(line, j) >= 0 { FewerCommas(line, j, 9); }
    var ptr := Skip(line, 0, 0);
    var times := ReadReal(line, ptr, 1);
    ptr := Skip(line, ptr, 1);
    ptr := Skip(line, ptr, 2);
    var latitude, lat, longitude, lon;
    ptr, latitude, lat := ReadCoordinate(line, ptr, 3, NORTH, SOUTH, before.lat);
    ptr := Skip(line, ptr, 4);
    ptr, longitude, lon := ReadCoordinate(line, ptr, 5, WEST, EAST, before.lon);
    ptr := Skip(line, ptr, 6);
    var speed := ReadReal(line, ptr, 7);
    ptr := Skip(line, ptr, 7);
    var course := ReadReal(line, ptr, 8);
    ptr := Skip(line, ptr, 8);
    var date := ReadReal(line, ptr, 9);
    loc := Gprmc(times, latitude, lat, longitude, lon, speed, course, date);
  }

  // ----- Sentences put together from fields

  /** Characters of a field: none that separates or starts anything. */
  predicate PlainText(s: seq<u8>) {
    COMMA !in s && STAR !in s && DOLLAR !in s
  }

  predicate PlainFields(fields: seq<seq<u8>>) {
    forall k :: 0 <= k < |fields| ==> PlainText(fields[k])
  }

  /** What a receiver sends: a dollar, the fields with commas between them, a star, the checksum
      and the end of the line. */
  function SentenceOf(fields: seq<seq<u8>>, tail: seq<u8>): Line
    requires fields != []
  {
    Sentence(DOLLAR, Join(fields), tail)
  }

  predicate EndOfLine(tail: seq<u8>) {
    PlainText(tail) && (tail == [] || HexValue(tail[0]) == 16)
  }

  lemma {:induction false} JoinNone(fields: seq<seq<u8>>, c: u8)
    requires fields != [] && c != COMMA && forall k :: 0 <= k < |fields| ==> c !in fields[k]
    ensures c !in Join(fields)
  {
    if |fields| > 1 {
      JoinNone(fields[1..], c);
    }
  }

  lemma JoinFirst(fields: seq<seq<u8>>, s: seq<u8>)
    requires fields != []
    ensures s + Join(fields) == Join(fields[0 := s + fields[0]])
  {
    var first := s + fields[0];
    assert fields[0 := first][1..] == fields[1..];
    if |fields| > 1 {
      assert s + (fields[0] + [COMMA] + Join(fields[1..])) == first + [COMMA] + Join(fields[1..]);
    }
  }

  lemma {:induction false} JoinLast(fields: seq<seq<u8>>, s: seq<u8>)
    requires fields != []
    ensures Join(fields) + s == Join(fields[|fields| - 1 := fields[|fields| - 1] + s])
  {
    var n := |fields| - 1;
    var longer := fields[n := fields[n] + s];
    if n > 0 {
      JoinLast(fields[1..], s);
      assert longer[1..] == fields[1..][n - 1 := fields[n] + s];
      assert fields[0] + [COMMA] + Join(fields[1..]) + s == fields[0] + [COMMA] + (Join(fields[1..]) + s);
    }
  }

  /** The fields as the walk sees them: the dollar belongs to the first, star and checksum to the last. */
  function WalkedFields(fields: seq<seq<u8>>, tail: seq<u8>): (fs: seq<seq<u8>>)
    requires |fields| >= 2
    ensures |fs| == |fields| && forall k :: 0 < k < |fields| - 1 ==> fs[k] == fields[k]
  {
    var n := |fields| - 1;
    fields[0 := [DOLLAR] + fields[0]][n := fields[n] + ([STAR] + (HexOf(XorAll(Join(fields))) + tail))]
  }

  lemma HexPlain(x: u8)
    ensures PlainText(HexOf(x))
  {
    HexCharValue(x / 16);
    HexCharValue(x % 16);
  }

  lemma WalkedJoin(fields: seq<seq<u8>>, tail: seq<u8>)
    requires |fields| >= 2 && PlainFields(fields) && EndOfLine(tail)
    ensures SentenceOf(fields, tail) == Join(WalkedFields(fields, tail)) && NoCommas(WalkedFields(fields, tail))
  {
    var ending := [STAR] + (HexOf(XorAll(Join(fields))) + tail);
    HexPlain(XorAll(Join(fields)));
    var started := fields[0 := [DOLLAR] + fields[0]];
    JoinFirst(fields, [DOLLAR]);
    JoinLast(started, ending);
    assert SentenceOf(fields, tail) == [DOLLAR] + Join(fields) + ending;
  }

  /** Every such sentence is accepted, and both parsers find its fields. */
  lemma SentenceReadable(fields: seq<seq<u8>>, tail: seq<u8>)
    requires |fields| >= 11 && PlainFields(fields) && EndOfLine(tail)
    ensures var line := SentenceOf(fields, tail);
      && HasStar(line) && Accepted(line) && HasFields(line)
      && GgaFields(line) == Fields(fields[1], fields[2], fields[3], fields[4], fields[5],
                                   fields[6], fields[7], fields[9])
      && RmcFields(line) == Fields(fields[1], fields[3], fields[4], fields[5], fields[6],
                                   fields[7], fields[8], fields[9])
  {
    JoinNone(fields, STAR);
    AppendedAccepted(DOLLAR, Join(fields), tail);
    WalkedJoin(fields, tail);
    FieldsReadBack(WalkedFields(fields, tail));
  }

  /** The only dollar is the first character. */
  lemma OneDollar(fields: seq<seq<u8>>, tail: seq<u8>, i: nat)
    requires fields != [] && PlainFields(fields) && EndOfLine(tail) && i < |SentenceOf(fields, tail)|
    ensures SentenceOf(fields, tail)[i] == DOLLAR <==> i == 0
  {
    JoinNone(fields, DOLLAR);
    HexPlain(XorAll(Join(fields)));
    var rest := Join(fields) + [STAR] + (HexOf(XorAll(Join(fields))) + tail);
    assert DOLLAR !in rest;
    assert SentenceOf(fields, tail) == [DOLLAR] + rest;
    if i > 0 {
      assert SentenceOf(fields, tail)[i] == rest[i - 1];
    }
  }

  lemma Names()
    ensures |Ascii("GPGGA")| == 5 && [DOLLAR] + Ascii("GPGGA") == GPGGA && COMMA !in Ascii("GPGGA")
    ensures |Ascii("GPRMC")| == 5 && [DOLLAR] + Ascii("GPRMC") == GPRMC && COMMA !in Ascii("GPRMC")
    ensures Ascii("GPGGA")[2] != Ascii("GPRMC")[2]
  {
  }

  lemma NotBothNames(field: seq<u8>)
    requires Ascii("GPRMC") <= field
    ensures !(Ascii("GPGGA") <= field)
  {
    Names();
    assert field[2] == Ascii("GPRMC")[2];
  }

  lemma LineParts(fields: seq<seq<u8>>, tail: seq<u8>) returns (rest: seq<u8>)
    requires |fields| >= 2
    ensures SentenceOf(fields, tail) == [DOLLAR] + fields[0] + ([COMMA] + rest)
  {
    rest := Join(fields[1..]) + [STAR] + (HexOf(XorAll(Join(fields))) + tail);
  }

  /** A name of five characters stands behind the dollar exactly when the first field starts
      with it. */
  lemma NameAtStart(fields: seq<seq<u8>>, tail: seq<u8>, name: seq<u8>)
    requires |fields| >= 2 && |name| == 5 && COMMA !in name
    ensures OccursAt([DOLLAR] + name, SentenceOf(fields, tail), 0) <==> name <= fields[0]
  {
    var rest := LineParts(fields, tail);
    StartOf(SentenceOf(fields, tail), fields[0], [COMMA] + rest, name);
  }

  lemma StartOf(line: Line, field: seq<u8>, rest: seq<u8>, name: seq<u8>)
    requires line == [DOLLAR] + field + rest && StartsWithComma(rest) && |name| == 5 && COMMA !in name
    ensures OccursAt([DOLLAR] + name, line, 0) <==> name <= field
  {
    if name <= field {
      assert line[0..6] == [DOLLAR] + name;
    } else if |field| >= 5 {
      assert line[1..6] == field[..5];
      assert ([DOLLAR] + name)[1..6] == name;
      assert |line| >= 6 && line[0..6][1..6] == line[1..6];
    } else if |line| >= 6 {
      assert line[0..6][|field| + 1] == COMMA;
      assert ([DOLLAR] + name)[|field| + 1] == name[|field|];
    }
  }

  /** The dollar of a pattern is found at the start only. */
  lemma OccursAtStart(fields: seq<seq<u8>>, tail: seq<u8>, pattern: seq<u8>)
    requires fields != [] && PlainFields(fields) && EndOfLine(tail) && pattern != [] && pattern[0] == DOLLAR
    ensures Occurs(pattern, SentenceOf(fields, tail)) <==> OccursAt(pattern, SentenceOf(fields, tail), 0)
  {
    var line := SentenceOf(fields, tail);
    if i :| 0 <= i <= |line| && OccursAt(pattern, line, i) {
      assert line[i..i + |pattern|][0] == line[i];
      OneDollar(fields, tail, i);
    }
  }

  lemma KindByNames(fields: seq<seq<u8>>, tail: seq<u8>, gga: seq<u8>, rmc: seq<u8>)
    requires |fields| >= 11 && PlainFields(fields) && EndOfLine(tail)
    requires |gga| == 5 && [DOLLAR] + gga == GPGGA && COMMA !in gga
    requires |rmc| == 5 && [DOLLAR] + rmc == GPRMC && COMMA !in rmc
    ensures var line := SentenceOf(fields, tail);
      Occurs(GPGGA, line) == (gga <= fields[0]) && Occurs(GPRMC, line) == (rmc <= fields[0])
  {
    NameAtStart(fields, tail, gga);
    NameAtStart(fields, tail, rmc);
    OccursAtStart(fields, tail, GPGGA);
    OccursAtStart(fields, tail, GPRMC);
  }

  /** A sentence is of the kind that its first field starts with, and of none else. */
  lemma SentenceKind(fields: seq<seq<u8>>, tail: seq<u8>)
    requires |fields| >= 11 && PlainFields(fields) && EndOfLine(tail)
    ensures var line := SentenceOf(fields, tail);
      HasStar(line) && MessageType(line) ==
        if Ascii("GPGGA") <= fields[0] then Gga
        else if Ascii("GPRMC") <= fields[0] then Rmc
        else Unknown
  {
    Names();
    KindIs(fields, tail, Ascii("GPGGA"), Ascii("GPRMC"));
  }

  lemma KindIs(fields: seq<seq<u8>>, tail: seq<u8>, gga: seq<u8>, rmc: seq<u8>)
    requires |fields| >= 11 && PlainFields(fields) && EndOfLine(tail)
    requires |gga| == 5 && [DOLLAR] + gga == GPGGA && COMMA !in gga
    requires |rmc| == 5 && [DOLLAR] + rmc == GPRMC && COMMA !in rmc
    ensures var line := SentenceOf(fields, tail);
      HasStar(line) && MessageType(line) == if gga <= fields[0] then Gga else if rmc <= fields[0] then Rmc else Unknown
  {
    SentenceReadable(fields, tail);
    KindByNames(fields, tail, gga, rmc);
    KindFrom(SentenceOf(fields, tail), gga <= fields[0], rmc <= fields[0]);
  }

  lemma KindFrom(line: Line, gga: bool, rmc: bool)
    requires HasStar(line) && Accepted(line) && Occurs(GPGGA, line) == gga && Occurs(GPRMC, line) == rmc
    ensures MessageType(line) == if gga then Gga else if rmc then Rmc else Unknown
  {
  }

  // ----- What is stored of a sentence that was put together

  /** A letter field: the letter if it is known, 0 if there is none, what was there otherwise. */
  predicate StoredLetter(stored: u8, field: seq<u8>, known: string, before: u8) {
    if field == [] then stored == 0
    else if field[0] as char in known then stored == field[0]
    else stored == before
  }

  /** A position sentence stores fields 1 to 7 and 9. */
  lemma PositionStored(fields: seq<seq<u8>>, tail: seq<u8>, before: Letters)
    requires |fields| >= 11 && PlainFields(fields) && EndOfLine(tail)
    ensures HasFields(SentenceOf(fields, tail))
    ensures var g := GpggaFrom(GgaFields(SentenceOf(fields, tail)), before);
      && g.times == Atof(fields[1])
      && g.latitude == Atof(fields[2]) && StoredLetter(g.lat, fields[3], "NS", before.lat)
      && g.longitude == Atof(fields[4]) && StoredLetter(g.lon, fields[5], "WE", before.lon)
      && g.quality == Atoi(fields[6]) % 256 && g.satellites == Atoi(fields[7]) % 256
      && g.altitude == Atof(fields[9])
  {
    SentenceReadable(fields, tail);
    LetterStored(fields[3], NORTH, SOUTH, "NS", before.lat);
    LetterStored(fields[5], WEST, EAST, "WE", before.lon);
  }

  /** A course sentence stores field 1 and fields 3 to 9. */
  lemma CourseStored(fields: seq<seq<u8>>, tail: seq<u8>, before: Letters)
    requires |fields| >= 11 && PlainFields(fields) && EndOfLine(tail)
    ensures HasFields(SentenceOf(fields, tail))
    ensures var c := GprmcFrom(RmcFields(SentenceOf(fields, tail)), before);
      && c.times == Atof(fields[1])
      && c.latitude == Atof(fields[3]) && StoredLetter(c.lat, fields[4], "NS", before.lat)
      && c.longitude == Atof(fields[5]) && StoredLetter(c.lon, fields[6], "WE", before.lon)
      && c.speed == Atof(fields[7]) && c.course == Atof(fields[8]) && c.date == Atof(fields[9])
  {
    SentenceReadable(fields, tail);
    LetterStored(fields[4], NORTH, SOUTH, "NS", before.lat);
    LetterStored(fields[6], WEST, EAST, "WE", before.lon);
  }

  lemma LetterStored(field: seq<u8>, one: u8, other: u8, known: string, before: u8)
    requires known == [one as char, other as char]
    ensures StoredLetter(LetterOf(field, one, other, before), field, known, before)
  {
    assert one as char in known && other as char in known;
  }
}
