/** The GPS side of lago_v1_2: the loop that assembles one location from the sentences of the
    receiver, and the conversion of ddmm.mmmm to decimal degrees, in exact arithmetic. */
module Gps {
  import opened Words
  import opened TextNumbers
  import opened Nmea
  import opened Sentences

  // ----- Assembling a location

  /** What is taken from a position sentence, with coordinates in decimal degrees. */
  datatype Place = Place(times: real, latitude: real, longitude: real, altitude: real, satellites: u8)

  /** What is taken from a course sentence. */
  datatype Motion = Motion(speed: real, course: real, date: real)

  /** What the loop makes of a line. */
  datatype Message = Position(place: Place) | Course(motion: Motion) | Ignored

  datatype Location = Location(place: Place, motion: Motion)

  datatype Answer = Waiting | Located(location: Location, used: nat)

  /** A line from the receiver, and what the letters of the structures, which the loop does not
      initialise, hold when it is parsed. */
  datatype Input = Input(line: Line, before: Letters)

  predicate Parsed(kind: Kind) {
    kind == Gga || kind == Rmc
  }

  /** What the loop demands of a line: a star, and all fields in the two kinds it parses. */
  predicate Readable(input: Input) {
    HasStar(input.line) && (Parsed(MessageType(input.line)) ==> HasFields(input.line))
  }

  /** A coordinate is negated unless its letter is the positive one. */
  function SignedDegrees(d: real, letter: u8, positive: u8): real {
    if letter == positive then DegDec(d) else -DegDec(d)
  }

  function PlaceOf(g: Gpgga): Place {
    Place(g.times, SignedDegrees(g.latitude, g.lat, NORTH), SignedDegrees(g.longitude, g.lon, EAST),
          g.altitude, g.satellites)
  }

  function MotionOf(g: Gprmc): Motion {
    Motion(g.speed, g.course, g.date)
  }

  function MessageOf(input: Input): Message
    requires Readable(input)
  {
    match MessageType(input.line)
    case Gga => Position(PlaceOf(GpggaFrom(GgaFields(input.line), input.before)))
    case Rmc => Course(MotionOf(GprmcFrom(RmcFields(input.line), input.before)))
    case _ => Ignored
  }

  function Messages(inputs: seq<Input>): (ms: seq<Message>)
    requires forall i :: 0 <= i < |inputs| ==> Readable(inputs[i])
    ensures |ms| == |inputs|
  {
    seq(|inputs|, i requires 0 <= i < |inputs| && Readable(inputs[i]) => MessageOf(inputs[i]))
  }

  predicate HasPosition(ms: seq<Message>, n: nat)
    requires n <= |ms|
  {
    exists i :: 0 <= i < n && ms[i].Position?
  }

  predicate HasCourse(ms: seq<Message>, n: nat)
    requires n <= |ms|
  {
    exists i :: 0 <= i < n && ms[i].Course?
  }

  predicate Complete(ms: seq<Message>, n: nat)
    requires n <= |ms|
  {
    HasPosition(ms, n) && HasCourse(ms, n)
  }

  /** What the last position sentence says among the first n messages. */
  predicate LastPosition(ms: seq<Message>, n: nat, place: Place)
    requires n <= |ms|
  {
    exists i :: 0 <= i < n && ms[i] == Position(place) && forall j :: i < j < n ==> !ms[j].Position?
  }

  predicate LastCourse(ms: seq<Message>, n: nat, motion: Motion)
    requires n <= |ms|
  {
    exists i :: 0 <= i < n && ms[i] == Course(motion) && forall j :: i < j < n ==> !ms[j].Course?
  }

  /** status has bit 1 for a position and bit 0 for a course; n messages have been read. */
  ghost predicate SoFar(ms: seq<Message>, n: nat, status: nat, place: Place, motion: Motion) {
    && n <= |ms| && status <= COMPLETED
    && (status >= 2 <==> HasPosition(ms, n)) && (status % 2 == 1 <==> HasCourse(ms, n))
    && (status >= 2 ==> LastPosition(ms, n, place))
    && (status % 2 == 1 ==> LastCourse(ms, n, motion))
    && forall m :: 0 <= m < n ==> !Complete(ms, m)
  }

  lemma ReadPosition(ms: seq<Message>, n: nat, status: nat, place: Place, motion: Motion)
    requires SoFar(ms, n, status, place, motion) && status < COMPLETED && n < |ms| && ms[n].Position?
    ensures SoFar(ms, n + 1, if status < 2 then status + 2 else status, ms[n].place, motion)
  {
  }

  lemma ReadCourse(ms: seq<Message>, n: nat, status: nat, place: Place, motion: Motion)
    requires SoFar(ms, n, status, place, motion) && status < COMPLETED && n < |ms| && ms[n].Course?
    ensures SoFar(ms, n + 1, if status % 2 == 0 then status + 1 else status, place, ms[n].motion)
  {
  }

  lemma ReadIgnored(ms: seq<Message>, n: nat, status: nat, place: Place, motion: Motion)
    requires SoFar(ms, n, status, place, motion) && status < COMPLETED && n < |ms| && ms[n].Ignored?
    ensures SoFar(ms, n + 1, status, place, motion)
  {
  }

  lemma AnswerIs(ms: seq<Message>, n: nat, status: nat, place: Place, motion: Motion)
    requires SoFar(ms, n, status, place, motion)
    ensures status == COMPLETED <==> Complete(ms, n)
    ensures status == COMPLETED ==>
      Complete(ms, |ms|) && LastPosition(ms, n, place) && LastCourse(ms, n, motion)
  {
  }

  const COMPLETED: nat := 3
  /** The answer is that of the shortest beginning that has both kinds of sentence: what the
      last of each says; while there is none the loop waits for more lines. */
  ghost predicate AnswersTo(ms: seq<Message>, answer: Answer) {
    && (answer.Waiting? <==> !Complete(ms, |ms|))
    && (answer.Located? ==>
          && answer.used <= |ms| && Complete(ms, answer.used)
          && (forall n :: 0 <= n < answer.used ==> !Complete(ms, n))
          && LastPosition(ms, answer.used, answer.location.place)
          && LastCourse(ms, answer.used, answer.location.motion))
  }

  const NOWHERE: Place := Place(0.0, 0.0, 0.0, 0.0, 0)
  const AT_REST: Motion := Motion(0.0, 0.0, 0.0)

  method ReadMessage(input: Input) returns (m: Message)
    requires Readable(input)
    ensures m == MessageOf(input)
  {
    match MessageType(input.line) {
      case Gga =>
        var gpgga := ParseGpgga(input.line, input.before);
        var latitude, longitude := ConvertDegToDec(gpgga.latitude, gpgga.lat, gpgga.longitude, gpgga.lon);
        m := Position(Place(gpgga.times, latitude, longitude, gpgga.altitude, gpgga.satellites));
      case Rmc =>
        var gprmc := ParseGprmc(input.line, input.before);
        m := Course(Motion(gprmc.speed, gprmc.course, gprmc.date));
      case _ => m := Ignored;
    }
  }

  /** One turn of the loop. */
  method ReadOne(input: Input, ghost ms: seq<Message>, ghost n: nat, status: nat, place: Place, motion: Motion)
    returns (status': nat, place': Place, motion': Motion)
    requires SoFar(ms, n, status, place, motion) && status < COMPLETED
    requires n < |ms| && Readable(input) && ms[n] == MessageOf(input)
    ensures SoFar(ms, n + 1, status', place', motion')
  {
    status', place', motion' := status, place, motion;
    var m := ReadMessage(input);
    match m {
      case Position(p) =>
        ReadPosition(ms, n, status, place, motion);
        place' := p;
        status' := if status < 2 then status + 2 else status;
      case Course(c) =>
        ReadCourse(ms, n, status, place, motion);
        motion' := c;
        status' := if status % 2 == 0 then status + 1 else status;
      case Ignored =>
        ReadIgnored(ms, n, status, place, motion);
    }
  }

  /** Reads exactly the shortest beginning that has both kinds of sentence, and answers with what
      the last of each says; while there is none the loop waits for more lines. */
  method GpsLocation(inputs: seq<Input>) returns (answer: Answer)
    requires forall i :: 0 <= i < |inputs| ==> Readable(inputs[i])
    ensures AnswersTo(Messages(inputs), answer)
  {
    ghost var ms := Messages(inputs);
    var status, at := 0, 0;
    var place, motion := NOWHERE, AT_REST;
    while status != COMPLETED
      invariant SoFar(ms, at, status, place, motion)
      decreases |inputs| - at
    {
      AnswerIs(ms, at, status, place, motion);
      if at == |inputs| {
        return Waiting;
      }
      status, place, motion := ReadOne(inputs[at], ms, at, status, place, motion);
      at := at + 1;
    }
    AnswerIs(ms, at, status, place, motion);
    answer := Located(Location(place, motion), at);
  }

  /** What a coordinate and its letter mean. */
  function Meaning(text: seq<u8>, letter: seq<u8>, positive: string): real
    requires forall k :: 0 <= k < |positive| ==> positive[k] < 128 as char
  {
    if letter == Ascii(positive) then Degrees(Atof(text)) else -Degrees(Atof(text))
  }

  /** A known letter, or none. */
  predicate LetterField(letter: seq<u8>, one: char, other: char)
    requires one < 128 as char && other < 128 as char
  {
    letter == Ascii([one]) || letter == Ascii([other]) || letter == []
  }

  /** What the fields of a position sentence say: time, altitude, satellites, and coordinates to
      half a millionth of a degree, and a little more. */
  predicate SaysPlace(p: Place, fields: seq<seq<u8>>)
    requires |fields| >= 11
  {
    && p.times == Atof(fields[1]) && p.altitude == Atof(fields[9]) && p.satellites == Atoi(fields[7]) % 0x100
    && Near(p.latitude, Meaning(fields[2], fields[3], "N"))
    && Near(p.longitude, Meaning(fields[4], fields[5], "E"))
  }

  predicate SaysMotion(m: Motion, fields: seq<seq<u8>>)
    requires |fields| >= 11
  {
    m.speed == Atof(fields[7]) && m.course == Atof(fields[8]) && m.date == Atof(fields[9])
  }

  predicate PositionFields(fields: seq<seq<u8>>) {
    && |fields| >= 11 && PlainFields(fields) && Ascii("GPGGA") <= fields[0]
    && LetterField(fields[3], 'N', 'S') && LetterField(fields[5], 'E', 'W')
  }

  predicate CourseFields(fields: seq<seq<u8>>) {
    |fields| >= 11 && PlainFields(fields) && Ascii("GPRMC") <= fields[0]
  }

  /** A position sentence put together from fields is understood. */
  lemma PositionReceived(fields: seq<seq<u8>>, tail: seq<u8>, before: Letters)
    requires PositionFields(fields) && EndOfLine(tail)
    ensures var input := Input(SentenceOf(fields, tail), before);
      Readable(input) && MessageOf(input).Position? && SaysPlace(MessageOf(input).place, fields)
  {
    var g := PositionRead(fields, tail, before);
    PlaceSays(g, PlaceOf(g), fields, before);
  }

  lemma PlaceSays(g: Gpgga, p: Place, fields: seq<seq<u8>>, before: Letters)
    requires PositionFields(fields) && p == PlaceOf(g)
    requires g == Gpgga(Atof(fields[1]), Atof(fields[2]), LetterOf(fields[3], NORTH, SOUTH, before.lat),
                        Atof(fields[4]), LetterOf(fields[5], WEST, EAST, before.lon),
                        Atoi(fields[6]) % 0x100, Atoi(fields[7]) % 0x100, Atof(fields[9]))
    ensures SaysPlace(p, fields)
  {
    PlaceClose(g, fields[2], fields[3], fields[4], fields[5]);
  }

  lemma PositionRead(fields: seq<seq<u8>>, tail: seq<u8>, before: Letters) returns (g: Gpgga)
    requires PositionFields(fields) && EndOfLine(tail)
    ensures Readable(Input(SentenceOf(fields, tail), before))
    ensures MessageOf(Input(SentenceOf(fields, tail), before)) == Position(PlaceOf(g))
    ensures g == Gpgga(Atof(fields[1]), Atof(fields[2]), LetterOf(fields[3], NORTH, SOUTH, before.lat),
                       Atof(fields[4]), LetterOf(fields[5], WEST, EAST, before.lon),
                       Atoi(fields[6]) % 0x100, Atoi(fields[7]) % 0x100, Atof(fields[9]))
  {
    SentenceReadable(fields, tail);
    SentenceKind(fields, tail);
    g := GpggaFrom(GgaFields(SentenceOf(fields, tail)), before);
  }

  lemma PlaceClose(g: Gpgga, latitude: seq<u8>, ns: seq<u8>, longitude: seq<u8>, we: seq<u8>)
    requires g.latitude == Atof(latitude) && g.longitude == Atof(longitude)
    requires LetterField(ns, 'N', 'S') && g.lat == (if ns == [] then 0 else ns[0])
    requires LetterField(we, 'E', 'W') && g.lon == (if we == [] then 0 else we[0])
    ensures Near(PlaceOf(g).latitude, Meaning(latitude, ns, "N"))
    ensures Near(PlaceOf(g).longitude, Meaning(longitude, we, "E"))
  {
    SignedClose(g.latitude, g.lat, NORTH);
    SignedClose(g.longitude, g.lon, EAST);
  }

  /** A course sentence put together from fields gives speed, course and date. */
  lemma CourseReceived(fields: seq<seq<u8>>, tail: seq<u8>, before: Letters)
    requires CourseFields(fields) && EndOfLine(tail)
    ensures var input := Input(SentenceOf(fields, tail), before);
      Readable(input) && MessageOf(input).Course? && SaysMotion(MessageOf(input).motion, fields)
  {
    SentenceReadable(fields, tail);
    SentenceKind(fields, tail);
    NotBothNames(fields[0]);
  }

  /** The answer to a position and a course sentence, in either order, has what both say. */
  lemma TwoMessages(ms: seq<Message>, answer: Answer)
    requires |ms| == 2 && AnswersTo(ms, answer)
    requires (ms[0].Position? && ms[1].Course?) || (ms[0].Course? && ms[1].Position?)
    ensures answer == Located(if ms[0].Position? then Location(ms[0].place, ms[1].motion)
                              else Location(ms[1].place, ms[0].motion), 2)
  {
    assert HasPosition(ms, 2) && HasCourse(ms, 2);
    assert !Complete(ms, 0) && !Complete(ms, 1);
  }

  /** So a location has the numbers of the fields that were sent. */
  lemma LocationReceived(a: Input, b: Input, fields: seq<seq<u8>>, course: seq<seq<u8>>, tail: seq<u8>, answer: Answer)
    requires PositionFields(fields) && CourseFields(course) && EndOfLine(tail)
    requires a.line == SentenceOf(fields, tail) && b.line == SentenceOf(course, tail)
    requires Readable(a) && Readable(b) && AnswersTo([MessageOf(a), MessageOf(b)], answer)
    ensures answer.Located? && answer.used == 2
    ensures SaysPlace(answer.location.place, fields) && SaysMotion(answer.location.motion, course)
  {
    PositionReceived(fields, tail, a.before);
    CourseReceived(course, tail, b.before);
    TwoMessages([MessageOf(a), MessageOf(b)], answer);
  }

  lemma SignedClose(d: real, letter: u8, positive: u8)
    ensures Near(SignedDegrees(d, letter, positive), if letter == positive then Degrees(d) else -Degrees(d))
  {
    DegDecClose(d);
  }

  // ----- Degrees

  /** Rounds toward zero, as a conversion to int and modf do. */
  function Trunc(x: real): (n: int) {
    if x >= 0.0 then x.Floor else -(-x).Floor
  }

  /** Rounds to the nearest integer, halves away from zero. */
  function Round(x: real): (n: int) {
    if x >= 0.0 then (x + 0.5).Floor else -(-x + 0.5).Floor
  }

  const MICRO: real := 1000000.0

  /** Degrees of ddmm.mmmm, as truncated. */
  function WholeDegrees(d: real): int {
    Trunc(Trunc(d) as real / 100.0)
  }

  /** Minutes and seconds of ddmm.mmmm; the fraction of the minutes gives the seconds. */
  function Minutes(d: real): int {
    Trunc(d - (WholeDegrees(d) * 100) as real)
  }

  function Seconds(d: real): real {
    (d - Trunc(d) as real) * 60.0
  }

  function InMicro(x: real): real {
    Round(x * MICRO) as real
  }

  function Combine(deg: int, min: int, sec: real): real {
    Round(InMicro(deg as real) + InMicro(min as real) / 60.0 + InMicro(sec) / 3600.0) as real / MICRO
  }

  function DegDec(d: real): real {
    Combine(WholeDegrees(d), Minutes(d), Seconds(d))
  }

  /** What ddmm.mmmm means: degrees and minutes. */
  function Degrees(d: real): real {
    WholeDegrees(d) as real + (d - (WholeDegrees(d) * 100) as real) / 60.0
  }

  lemma RoundClose(x: real)
    ensures -0.5 <= Round(x) as real - x <= 0.5
  {
  }

  lemma RoundInt(n: int)
    ensures Round(n as real) == n
  {
  }

  lemma RoundOdd(x: real)
    ensures Round(-x) == -Round(x)
  {
  }

  lemma TruncOdd(x: real)
    ensures Trunc(-x) == -Trunc(x)
  {
  }

  /** Both truncations of the minutes agree: what modf cuts off is the fraction of the minutes. */
  lemma MinutesAndFraction(d: real)
    ensures Minutes(d) == Trunc(d) - WholeDegrees(d) * 100
  {
    var t, deg := Trunc(d), WholeDegrees(d);
    WholeDegreesBelow(t);
    if d >= 0.0 {
      assert 0 <= t - deg * 100;
      assert (d - (deg * 100) as real).Floor == d.Floor - deg * 100;
    } else {
      assert t - deg * 100 <= 0;
      assert (-d + (deg * 100) as real).Floor == (-d).Floor + deg * 100;
    }
  }

  lemma WholeDegreesBelow(t: int)
    ensures var deg := Trunc(t as real / 100.0);
      (t >= 0 ==> 0 <= deg * 100 <= t) && (t <= 0 ==> t <= deg * 100 <= 0)
  {
  }

  lemma InMicroInt(n: int)
    ensures InMicro(n as real) == n as real * MICRO
  {
    assert n as real * MICRO == (n * 1000000) as real;
    RoundInt(n * 1000000);
  }

  lemma CombineClose(deg: int, min: int, sec: real)
    ensures var e := 0.5 + 0.5 / 3600.0;
      -e <= Combine(deg, min, sec) * MICRO
            - (deg as real + min as real / 60.0 + sec / 3600.0) * MICRO <= e
  {
    InMicroInt(deg);
    InMicroInt(min);
    RoundClose(sec * MICRO);
    var x := InMicro(deg as real) + InMicro(min as real) / 60.0 + InMicro(sec) / 3600.0;
    RoundClose(x);
    assert Combine(deg, min, sec) * MICRO == Round(x) as real;
  }

  /** At most (0.5 + 0.5 / 3600) millionths apart. */
  predicate Near(x: real, y: real) {
    var e := (0.5 + 0.5 / 3600.0) / 1000000.0;
    -e <= x - y <= e
  }

  /** The result is within (0.5 + 0.5 / 3600) millionths of a degree of the true one. */
  lemma DegDecClose(d: real)
    ensures Near(DegDec(d), Degrees(d))
  {
    var deg, min, sec := WholeDegrees(d), Minutes(d), Seconds(d);
    MinutesAndFraction(d);
    CombineClose(deg, min, sec);
    assert Degrees(d) == deg as real + min as real / 60.0 + sec / 3600.0;
  }

  /** A number of degrees and minutes written as ddmm.mmmm, for any deg and any min below 60,
      gives deg + min / 60, and its negative the negative. */
  lemma DegreesAndMinutes(deg: nat, min: real)
    requires 0.0 <= min < 60.0
    ensures var d := (100 * deg) as real + min;
      Near(DegDec(d), deg as real + min / 60.0) && Near(DegDec(-d), -(deg as real + min / 60.0))
  {
    var d := (100 * deg) as real + min;
    SplitDegrees(deg, min);
    DegDecClose(d);
    DegDecOdd(d);
  }

  lemma SplitDegrees(deg: nat, min: real)
    requires 0.0 <= min < 60.0
    ensures WholeDegrees((100 * deg) as real + min) == deg
  {
    var t := Trunc((100 * deg) as real + min);
    assert t == 100 * deg + min.Floor;
    assert 100 * deg <= t < 100 * deg + 100;
  }

  lemma InMicroOdd(x: real)
    ensures InMicro(-x) == -InMicro(x)
  {
    RoundOdd(x * MICRO);
  }

  lemma CombineOdd(deg: int, min: int, sec: real)
    ensures Combine(-deg, -min, -sec) == -Combine(deg, min, sec)
  {
    InMicroOdd(deg as real);
    InMicroOdd(min as real);
    InMicroOdd(sec);
    RoundOdd(InMicro(deg as real) + InMicro(min as real) / 60.0 + InMicro(sec) / 3600.0);
  }

  lemma WholeDegreesOdd(d: real)
    ensures WholeDegrees(-d) == -WholeDegrees(d)
  {
    TruncOdd(d);
    TruncOdd(Trunc(d) as real / 100.0);
  }

  lemma MinutesAndSecondsOdd(d: real)
    ensures Minutes(-d) == -Minutes(d) && Seconds(-d) == -Seconds(d)
  {
    WholeDegreesOdd(d);
    TruncOdd(d);
    TruncOdd(d - (WholeDegrees(d) * 100) as real);
  }

  /** South and west are the negatives of north and east. */
  lemma DegDecOdd(d: real)
    ensures DegDec(-d) == -DegDec(d)
  {
    WholeDegreesOdd(d);
    MinutesAndSecondsOdd(d);
    var deg, min, sec := WholeDegrees(d), Minutes(d), Seconds(d);
    CombineOdd(deg, min, sec);
    assert DegDec(-d) == Combine(-deg, -min, -sec);
  }

  /** The coordinates, negated unless north and east. */
  method ConvertDegToDec(latitude: real, ns: u8, longitude: real, we: u8) returns (lat: real, lon: real)
    ensures lat == SignedDegrees(latitude, ns, NORTH) && lon == SignedDegrees(longitude, we, EAST)
  {
    DegDecOdd(latitude);
    DegDecOdd(longitude);
    lat := DegDec(if ns == NORTH then latitude else -latitude);
    lon := DegDec(if we == EAST then longitude else -longitude);
  }
}
