/** fpga-bit-to-bin: finds the configuration data in a .bit container and, on request, reverses
    the bytes of each 32-bit word. Reading past the end of the file gives fewer bytes, as
    Python's read does; unpacking fewer bytes than a number needs is an error. */
module BitFile {
  import opened Words

  datatype Error = ShortNumber | NoHeader9 | NoHeaderA | UnexpectedEof | NotWholeWords

  datatype Outcome = Written(payload: seq<u8>) | Failed(error: Error)

  const KEY_A: u8 := 'a' as int
  const KEY_E: u8 := 'e' as int

  // ----- Reading

  function Taken(f: seq<u8>, n: nat): (d: seq<u8>)
    ensures |d| <= |f|
  {
    if n <= |f| then f[..n] else f
  }

  function Left(f: seq<u8>, n: nat): (rest: seq<u8>)
    ensures f == Taken(f, n) + rest
  {
    if n <= |f| then f[n..] else []
  }

  function Short(b: seq<u8>): (n: nat)
    requires |b| == 2
    ensures n < 0x1_0000
  {
    b[0] as int * 0x100 + b[1]
  }

  function Flipped(data: seq<u8>): (d: seq<u8>)
    requires |data| % 4 == 0
    ensures |d| == |data|
  {
    seq(|data|, i requires 0 <= i < |data| => data[i / 4 * 4 + 3 - i % 4])
  }

  function Output(payload: seq<u8>, flip: bool): Outcome {
    if !flip then Written(payload)
    else if |payload| % 4 != 0 then Failed(NotWholeWords)
    else Written(Flipped(payload))
  }

  function ParseFields(f: seq<u8>, flip: bool): Outcome
    decreases |f|
  {
    if f == [] then Failed(UnexpectedEof)
    else
      var rest := f[1..];
      if f[0] == KEY_E then
        if |rest| < 4 then Failed(ShortNumber)
        else Output(Taken(rest[4..], BigEndian(rest[..4])), flip)
      else if |rest| < 2 then Failed(ShortNumber)
      else ParseFields(Left(rest[2..], Short(rest[..2])), flip)
  }

  function ParseName(f: seq<u8>, flip: bool): Outcome {
    if |f| < 2 then Failed(ShortNumber)
    else ParseFields(Left(f[2..], Short(f[..2])), flip)
  }

  function ParseA(f: seq<u8>, flip: bool): Outcome {
    if |f| < 2 then Failed(ShortNumber)
    else if Taken(f[2..], Short(f[..2])) != [KEY_A] then Failed(NoHeaderA)
    else ParseName(Left(f[2..], Short(f[..2])), flip)
  }

  function Parse(f: seq<u8>, flip: bool): Outcome {
    if |f| < 2 then Failed(ShortNumber)
    else if Short(f[..2]) != 9 then Failed(NoHeader9)
    else ParseA(Left(f[2..], 9), flip)
  }

  // ----- The container

  datatype Field = Field(key: u8, value: seq<u8>)

  /** size is the length that the file gives for its data; a file may end before. */
  datatype Container = Container(
    header: seq<u8>, name: seq<u8>, fields: seq<Field>, size: u32, payload: seq<u8>, tail: seq<u8>)
  {
    predicate Valid() {
      && |header| == 9 && |name| < 0x1_0000
      && (forall k :: 0 <= k < |fields| ==> fields[k].key != KEY_E && |fields[k].value| < 0x1_0000)
      && |payload| <= size && (|payload| < size ==> tail == [])
    }
  }

  function ShortBytes(n: nat): (b: seq<u8>)
    requires n < 0x1_0000
    ensures |b| == 2 && Short(b) == n
  {
    [n / 0x100, n % 0x100]
  }

  function PrintField(d: Field): (b: seq<u8>)
    requires |d.value| < 0x1_0000
  {
    [d.key] + ShortBytes(|d.value|) + d.value
  }

  function PrintFields(fields: seq<Field>): (b: seq<u8>)
    requires forall k :: 0 <= k < |fields| ==> |fields[k].value| < 0x1_0000
  {
    if fields == [] then [] else PrintField(fields[0]) + PrintFields(fields[1..])
  }

  function PrintData(size: u32, payload: seq<u8>, tail: seq<u8>): seq<u8> {
    [KEY_E] + ToBytes(size) + payload + tail
  }

  function Print(c: Container): seq<u8>
    requires c.Valid()
  {
    ShortBytes(9) + c.header + (ShortBytes(1) + [KEY_A]
    + (ShortBytes(|c.name|) + c.name + (PrintFields(c.fields) + PrintData(c.size, c.payload, c.tail))))
  }

  // ----- The parser undoes the printer

  lemma ReadBack(n: nat, d: seq<u8>, rest: seq<u8>)
    requires n < 0x1_0000 && n == |d|
    ensures var f := ShortBytes(n) + d + rest;
      |f| >= 2 && Short(f[..2]) == n && Taken(f[2..], n) == d && Left(f[2..], n) == rest
  {
    var f := ShortBytes(n) + d + rest;
    assert f[..2] == ShortBytes(n);
    assert f[2..] == d + rest;
    assert f[2..][..n] == d;
    assert f[2..][n..] == rest;
  }

  lemma DataReadBack(size: u32, payload: seq<u8>, tail: seq<u8>, flip: bool)
    requires |payload| <= size && (|payload| < size ==> tail == [])
    ensures ParseFields(PrintData(size, payload, tail), flip) == Output(payload, flip)
  {
    var f := PrintData(size, payload, tail);
    var rest := f[1..];
    assert rest == ToBytes(size) + payload + tail;
    assert rest[..4] == ToBytes(size);
    assert rest[4..] == payload + tail;
    if |payload| < size {
      assert payload + tail == payload;
    } else {
      assert (payload + tail)[..size] == payload;
    }
  }

  lemma FieldReadBack(d: Field, rest: seq<u8>, flip: bool)
    requires d.key != KEY_E && |d.value| < 0x1_0000
    ensures ParseFields(PrintField(d) + rest, flip) == ParseFields(rest, flip)
  {
    var f := PrintField(d) + rest;
    assert f[1..] == ShortBytes(|d.value|) + d.value + rest;
    ReadBack(|d.value|, d.value, rest);
  }

  lemma {:induction false} FieldsReadBack(fields: seq<Field>, rest: seq<u8>, flip: bool)
    requires forall k :: 0 <= k < |fields| ==> fields[k].key != KEY_E && |fields[k].value| < 0x1_0000
    ensures ParseFields(PrintFields(fields) + rest, flip) == ParseFields(rest, flip)
  {
    if fields == [] {
      assert PrintFields(fields) + rest == rest;
    } else {
      FieldsReadBack(fields[1..], rest, flip);
      FieldReadBack(fields[0], PrintFields(fields[1..]) + rest, flip);
      assert PrintFields(fields) + rest == PrintField(fields[0]) + (PrintFields(fields[1..]) + rest);
    }
  }

  /** Whatever the name and the fields before the data, the parser returns the data. */
  lemma ParsePrint(c: Container, flip: bool)
    requires c.Valid()
    ensures Parse(Print(c), flip) == Output(c.payload, flip)
  {
    var data := PrintFields(c.fields) + PrintData(c.size, c.payload, c.tail);
    var named := ShortBytes(|c.name|) + c.name + data;
    var a := ShortBytes(1) + [KEY_A] + named;
    assert Print(c) == ShortBytes(9) + c.header + a;
    ReadBack(9, c.header, a);
    ReadBack(1, [KEY_A], named);
    ReadBack(|c.name|, c.name, data);
    FieldsReadBack(c.fields, PrintData(c.size, c.payload, c.tail), flip);
    DataReadBack(c.size, c.payload, c.tail, flip);
  }

  // ----- Only printed containers parse

  lemma ShortBytesOf(b: seq<u8>)
    requires |b| == 2
    ensures ShortBytes(Short(b)) == b
  {
    Unpack(b[0], 0x100, b[1]);
  }

  /** A length and what it announces, when something follows it. */
  lemma ChunkFound(f: seq<u8>)
    requires |f| >= 2 && Left(f[2..], Short(f[..2])) != []
    ensures var n := Short(f[..2]);
      && |Taken(f[2..], n)| == n
      && f == ShortBytes(n) + Taken(f[2..], n) + Left(f[2..], n)
  {
    ShortBytesOf(f[..2]);
    assert f == f[..2] + f[2..];
  }

  predicate PrintableFields(fields: seq<Field>) {
    forall k :: 0 <= k < |fields| ==> fields[k].key != KEY_E && |fields[k].value| < 0x1_0000
  }

  lemma DataFound(f: seq<u8>) returns (size: u32, payload: seq<u8>, tail: seq<u8>)
    requires |f| >= 5 && f[0] == KEY_E
    ensures |payload| <= size && (|payload| < size ==> tail == [])
    ensures f == PrintData(size, payload, tail)
    ensures payload == Taken(f[1..][4..], BigEndian(f[1..][..4]))
  {
    var rest := f[1..];
    size := BigEndian(rest[..4]);
    payload, tail := Taken(rest[4..], size), Left(rest[4..], size);
    ToBytesBigEndian(rest[..4]);
    assert rest == rest[..4] + (payload + tail);
    assert f == [KEY_E] + rest;
  }

  lemma FieldFound(f: seq<u8>) returns (first: Field, after: seq<u8>)
    requires f != [] && f[0] != KEY_E && ParseFields(f, false).Written?
    ensures first.key != KEY_E && |first.value| < 0x1_0000
    ensures f == PrintField(first) + after
    ensures ParseFields(after, false) == ParseFields(f, false)
  {
    var rest := f[1..];
    var n := Short(rest[..2]);
    after := Left(rest[2..], n);
    ChunkFound(rest);
    first := Field(f[0], Taken(rest[2..], n));
    FieldSplit(f, rest, first, after);
  }

  lemma FieldSplit(f: seq<u8>, rest: seq<u8>, first: Field, after: seq<u8>)
    requires f != [] && rest == f[1..] && first.key == f[0] && |first.value| < 0x1_0000
    requires rest == ShortBytes(|first.value|) + first.value + after
    ensures f == PrintField(first) + after
  {
    assert f == [f[0]] + rest;
  }

  lemma PrintFieldsCons(first: Field, others: seq<Field>, data: seq<u8>)
    requires |first.value| < 0x1_0000 && PrintableFields(others)
    ensures PrintFields([first] + others) + data == PrintField(first) + (PrintFields(others) + data)
  {
    assert ([first] + others)[1..] == others;
  }

  /** The fields before the first 'e', and what starts there. */
  lemma {:induction false} FieldsFound(f: seq<u8>) returns (fields: seq<Field>, data: seq<u8>)
    requires ParseFields(f, false).Written?
    ensures PrintableFields(fields) && f == PrintFields(fields) + data
    ensures |data| >= 5 && data[0] == KEY_E
    ensures ParseFields(data, false) == ParseFields(f, false)
    decreases |f|
  {
    if f[0] == KEY_E {
      fields, data := [], f;
    } else {
      var first, after := FieldFound(f);
      var others;
      others, data := FieldsFound(after);
      fields := [first] + others;
      PrintFieldsCons(first, others, data);
    }
  }

  lemma ContainerFound(f: seq<u8>) returns (c: Container)
    requires Parse(f, false).Written?
    ensures c.Valid() && f == Print(c) && c.payload == Parse(f, false).payload
  {
    var a := Left(f[2..], 9);
    ChunkFound(f);
    var named := Left(a[2..], Short(a[..2]));
    ChunkFound(a);
    var data := Left(named[2..], Short(named[..2]));
    ChunkFound(named);
    var fields, rest := FieldsFound(data);
    var size, payload, tail := DataFound(rest);
    c := Container(Taken(f[2..], 9), Taken(named[2..], Short(named[..2])), fields, size, payload, tail);
  }

  ghost predicate Contains(f: seq<u8>, payload: seq<u8>) {
    exists c: Container :: c.Valid() && Print(c) == f && c.payload == payload
  }

  /** A file is accepted exactly when it is a container, and the data of its first 'e' field is
      what is written. */
  lemma ParseIff(f: seq<u8>, payload: seq<u8>)
    ensures Parse(f, false) == Written(payload) <==> Contains(f, payload)
  {
    if Parse(f, false) == Written(payload) {
      var c := ContainerFound(f);
      assert Contains(f, payload);
    }
    if Contains(f, payload) {
      var c: Container :| c.Valid() && Print(c) == f && c.payload == payload;
      ParsePrint(c, false);
    }
  }

  // ----- The flip

  /** Group g of the result is group g of the data, last byte first. */
  lemma FlippedGroup(data: seq<u8>, g: nat)
    requires |data| % 4 == 0 && 4 * g + 4 <= |data|
    ensures Flipped(data)[4 * g..4 * g + 4] == [data[4 * g + 3], data[4 * g + 2], data[4 * g + 1], data[4 * g]]
  {
    Unpack(g, 4, 0);
    Unpack(g, 4, 1);
    Unpack(g, 4, 2);
    Unpack(g, 4, 3);
  }

  /** With the flip the payload is written in reversed groups, and refused exactly when its last
      group is short. */
  lemma FlipOnly(f: seq<u8>, payload: seq<u8>)
    requires Parse(f, false) == Written(payload)
    ensures Parse(f, true) == if |payload| % 4 == 0 then Written(Flipped(payload)) else Failed(NotWholeWords)
  {
    var c := ContainerFound(f);
    ParsePrint(c, false);
    ParsePrint(c, true);
  }

  // ----- Errors

  /** The first two bytes, high byte first, have to be 9. */
  lemma WrongStart(f: seq<u8>, flip: bool)
    requires |f| >= 2
    ensures Parse(f, flip) == Failed(NoHeader9) <==> f[0] as int * 256 + f[1] != 9
  {
    if Short(f[..2]) == 9 {
      NeverNoHeader9(Left(f[2..], 9), flip);
    }
  }

  lemma NeverNoHeader9(f: seq<u8>, flip: bool)
    ensures ParseA(f, flip) != Failed(NoHeader9)
  {
    if |f| >= 2 {
      var g := Left(f[2..], Short(f[..2]));
      if |g| >= 2 {
        FieldErrors(Left(g[2..], Short(g[..2])), flip);
      }
    }
  }

  lemma {:induction false} FieldErrors(f: seq<u8>, flip: bool)
    ensures ParseFields(f, flip) != Failed(NoHeader9) && ParseFields(f, flip) != Failed(NoHeaderA)
    decreases |f|
  {
    if f != [] && f[0] != KEY_E && |f| >= 3 {
      FieldErrors(Left(f[3..], Short(f[1..3])), flip);
      assert f[1..][2..] == f[3..] && f[1..][..2] == f[1..3];
    }
  }

  /** After nine bytes of header the next two give the length of a field that has to be "a"; a
      longer field of which only that is left in the file passes, too. */
  lemma WrongKey(header: seq<u8>, rest: seq<u8>, flip: bool)
    requires |header| == 9 && |rest| >= 2
    ensures Parse([0, 9] + header + rest, flip) == Failed(NoHeaderA)
       <==> !(|rest| >= 3 && rest[2] == 'a' as int && Short(rest[..2]) >= 1 && (Short(rest[..2]) == 1 || |rest| == 3))
  {
    var f := [0, 9] + header + rest;
    assert f[..2] == [0, 9] && f[2..] == header + rest;
    assert Left(f[2..], 9) == rest;
    var n := Short(rest[..2]);
    assert rest[..2] == [rest[0], rest[1]];
    if Taken(rest[2..], n) == [KEY_A] {
      var g := Left(rest[2..], n);
      if |g| >= 2 {
        FieldErrors(Left(g[2..], Short(g[..2])), flip);
      }
    }
  }

  /** A file that ends after whole fields is cut short: nothing left means no data was found, one
      or two bytes (up to four after the key of the data) that a length is incomplete. */
  lemma CutShort(fields: seq<Field>, rest: seq<u8>, flip: bool)
    requires forall k :: 0 <= k < |fields| ==> fields[k].key != KEY_E && |fields[k].value| < 0x1_0000
    ensures rest == [] ==> ParseFields(PrintFields(fields) + rest, flip) == Failed(UnexpectedEof)
    ensures 1 <= |rest| <= 2 || (3 <= |rest| <= 4 && rest[0] == 'e' as int) ==>
      ParseFields(PrintFields(fields) + rest, flip) == Failed(ShortNumber)
  {
    FieldsReadBack(fields, rest, flip);
  }

  lemma FlippedTwice(data: seq<u8>)
    requires |data| % 4 == 0
    ensures Flipped(Flipped(data)) == data
  {
    forall i | 0 <= i < |data|
      ensures Flipped(Flipped(data))[i] == data[i]
    {
      Mirror(i);
    }
  }

  lemma Mirror(i: nat)
    ensures var j := i / 4 * 4 + 3 - i % 4;
      j / 4 == i / 4 && j / 4 * 4 + 3 - j % 4 == i
  {
    Unpack(i / 4, 4, 3 - i % 4);
  }

  function LittleEndian(b: seq<u8>): u32
    requires |b| == 4
  {
    BigEndian([b[3], b[2], b[1], b[0]])
  }

  /** Each word is unpacked as little-endian and packed as big-endian; the last one may be short. */
  method Flip32(data: seq<u8>) returns (d: Outcome)
    ensures d == Output(data, true)
  {
    var flipped := new u8[|data|];
    var offset := 0;
    while offset < |data|
      invariant 0 <= offset <= |data| + 3 && offset % 4 == 0
      invariant offset <= |data|
      invariant forall i :: 0 <= i < offset ==> flipped[i] == data[i / 4 * 4 + 3 - i % 4]
    {
      if |data| - offset < 4 {
        return Failed(NotWholeWords);
      }
      PackFlipped(flipped, data, offset);
      offset := offset + 4;
    }
    return Written(flipped[..]);
  }

  method PackFlipped(flipped: array<u8>, data: seq<u8>, offset: nat)
    requires flipped.Length == |data| && offset % 4 == 0 && offset + 4 <= |data|
    modifies flipped
    ensures forall i :: 0 <= i < |data| ==>
      flipped[i] == if offset <= i < offset + 4 then data[i / 4 * 4 + 3 - i % 4] else old(flipped[i])
  {
    var b := [data[offset + 3], data[offset + 2], data[offset + 1], data[offset]];
    ToBytesBigEndian(b);
    var w := ToBytes(LittleEndian(data[offset..offset + 4]));
    assert w == b;
    flipped[offset], flipped[offset + 1] := w[0], w[1];
    flipped[offset + 2], flipped[offset + 3] := w[2], w[3];
  }

  // ----- The program

  class BitReader {
    const data: seq<u8>
    var pos: nat

    constructor (data: seq<u8>)
      ensures this.data == data && pos == 0
    {
      this.data, pos := data, 0;
    }

    /** The rest of the file, from the cursor. */
    function Rest(): seq<u8>
      reads this
      requires pos <= |data|
    {
      data[pos..]
    }

    method Read(n: nat) returns (d: seq<u8>)
      requires pos <= |data|
      modifies this`pos
      ensures pos <= |data| && d == Taken(old(Rest()), n) && Rest() == Left(old(Rest()), n)
      ensures pos == old(pos) + |d|
    {
      var end := if n <= |data| - pos then pos + n else |data|;
      d := data[pos..end];
      pos := end;
    }

    method Convert(flip: bool) returns (o: Outcome)
      requires pos == 0
      modifies this`pos
      ensures o == Parse(data, flip)
    {
      assert Rest() == data;
      var b := Read(2);
      if |b| < 2 {
        return Failed(ShortNumber);
      }
      var l := Short(b);
      if l != 9 {
        return Failed(NoHeader9);
      }
      var d := Read(l);
      b := Read(2);
      if |b| < 2 {
        return Failed(ShortNumber);
      }
      d := Read(Short(b));
      if d != [KEY_A] {
        return Failed(NoHeaderA);
      }
      b := Read(2);
      if |b| < 2 {
        return Failed(ShortNumber);
      }
      d := Read(Short(b));
      o := ConvertFields(flip);
    }

    method ConvertFields(flip: bool) returns (o: Outcome)
      requires pos <= |data|
      modifies this`pos
      ensures o == ParseFields(old(Rest()), flip)
    {
      while true
        invariant pos <= |data|
        invariant ParseFields(Rest(), flip) == ParseFields(old(Rest()), flip)
        decreases |data| - pos
      {
        ghost var f := Rest();
        var k := Read(1);
        if k == [] {
          return Failed(UnexpectedEof);
        }
        if k == [KEY_E] {
          var b := Read(4);
          if |b| < 4 {
            return Failed(ShortNumber);
          }
          var d := Read(BigEndian(b));
          if flip {
            o := Flip32(d);
          } else {
            o := Written(d);
          }
          return;
        }
        var b := Read(2);
        if |b| < 2 {
          return Failed(ShortNumber);
        }
        var d := Read(Short(b));
      }
    }
  }
}
