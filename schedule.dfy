/**
 * `Schedule`: one weekly timetable entry and its byte codec. The wire form is five
 * 0x00-terminated text fields (title, description, at, instructor, location), one
 * week byte and two little-endian int32 second counts (from, to).
 */
module Schedules {

  import opened Wrappers
  import opened TypedArrays
  import opened ByteUtils
  import opened ScheduleTimes

  /** A schedule record. `createAt` is a timestamp; `week` is the weekday code. */
  datatype Schedule = Schedule(
    id: int,
    title: Text,
    description: Option<Text>,
    at: Option<Text>,
    instructor: Option<Text>,
    location: Option<Text>,
    week: int,
    from: ScheduleTime,
    to: ScheduleTime,
    series: Option<Text>,
    notifiable: bool,
    createAt: int,
    enabled: bool)

  /** The constructor's parameter object; a member left out is `None`. */
  datatype Params = Params(
    id: Option<int>,
    title: Text,
    description: Option<Text>,
    at: Option<Text>,
    instructor: Option<Text>,
    location: Option<Text>,
    week: int,
    from: ScheduleTime,
    to: ScheduleTime,
    series: Option<Text>,
    notifiable: Option<bool>,
    createAt: Option<int>,
    enabled: Option<bool>)

  /** The constructor; `now` stands for the `new Date()` it reads when `createAt` is left out. */
  function Create(p: Params, now: int): (s: Schedule)
    ensures s.title == p.title && s.week == p.week && s.from == p.from && s.to == p.to
    ensures s.description == p.description && s.at == p.at
    ensures s.instructor == p.instructor && s.location == p.location && s.series == p.series
    ensures s.id == (if p.id.Some? then p.id.value else 0)
    ensures s.notifiable == (p.notifiable.None? || p.notifiable.value)
    ensures s.enabled == (p.enabled.None? || p.enabled.value)
    ensures s.createAt == (if p.createAt.Some? then p.createAt.value else now)
  {
    Schedule(
      if p.id.Some? then p.id.value else 0,
      p.title, p.description, p.at, p.instructor, p.location,
      p.week, p.from, p.to, p.series,
      if p.notifiable.Some? then p.notifiable.value else true,
      if p.createAt.Some? then p.createAt.value else now,
      if p.enabled.Some? then p.enabled.value else true)
  }

  /** The `duration` getter. */
  function Duration(s: Schedule): ScheduleTime
  {
    GetDuration(s.from, s.to)
  }

  lemma {:induction false} DurationForward(s: Schedule)
    requires ToInt(s.from) <= ToInt(s.to)
    ensures ToInt(Duration(s)) == ToInt(s.to) - ToInt(s.from)
    ensures Duration(s).hour >= 0 && 0 <= Duration(s).minute < 60
  {
    GetDurationForward(s.from, s.to);
  }

  // ---------------------------------------------------------------------------
  // Encoding

  /** `this.week & 0xff`: the low eight bits of the two's complement of the week. */
  function WeekByte(week: int): byte
  {
    week % 256
  }

  /** The five text fields in wire order, as `stringToByteArray` renders them. */
  function Fields(s: Schedule): seq<Text>
  {
    [StringToByteArray(Some(s.title)), StringToByteArray(s.description), StringToByteArray(s.at),
     StringToByteArray(s.instructor), StringToByteArray(s.location)]
  }

  /** Each field followed by one 0x00 separator. */
  function Join(fields: seq<Text>): seq<byte>
  {
    if fields == [] then [] else fields[0] + [0] + Join(fields[1..])
  }

  /** The bytes `toFormat` produces. */
  function Format(s: Schedule): seq<byte>
  {
    Join(Fields(s)) + [WeekByte(s.week)] + Int32LE(ToInt(s.from)) + Int32LE(ToInt(s.to))
  }

  /** No text field holds U+0000, the separator. */
  predicate NulFree(s: Schedule)
  {
    forall f :: f in Fields(s) ==> 0 !in f
  }

  /** `toFormat`: allocates the buffer and fills it at a running offset. */
  method ToFormat(s: Schedule) returns (combined: array<byte>)
    ensures fresh(combined)
    ensures combined[..] == Format(s)
  {
    var title := StringToByteArray(Some(s.title));
    var description := StringToByteArray(s.description);
    var at := StringToByteArray(s.at);
    var instructor := StringToByteArray(s.instructor);
    var location := StringToByteArray(s.location);
    var week: seq<byte> := [WeekByte(s.week)];
    var from := ToByteArray(s.from);
    var to := ToByteArray(s.to);

    combined := new byte[|title| + 1 + |description| + 1 + |at| + 1 + |instructor| + 1
                         + |location| + 1 + |week| + from.Length + to.Length];

    var offset := 0;
    assert combined[..offset] == [];
    offset := SetField(combined, title, offset);
    ghost var text := title + [0];
    assert combined[..offset] == text;
    offset := SetField(combined, description, offset);
    text := text + description + [0];
    assert combined[..offset] == text;
    offset := SetField(combined, at, offset);
    text := text + at + [0];
    assert combined[..offset] == text;
    offset := SetField(combined, instructor, offset);
    text := text + instructor + [0];
    assert combined[..offset] == text;
    offset := SetField(combined, location, offset);
    text := text + location + [0];
    assert combined[..offset] == text;
    assert text == Join(Fields(s)) by {
      JoinFive(title, description, at, instructor, location);
      assert Fields(s) == [title, description, at, instructor, location];
    }

    SetBytes(combined, week, offset);
    offset := offset + |week|;
    text := text + week;
    assert combined[..offset] == text;
    SetBytes(combined, from[..], offset);
    offset := offset + from.Length;
    text := text + from[..];
    assert combined[..offset] == text;
    SetBytes(combined, to[..], offset);
    text := text + to[..];
    assert combined[..] == combined[..offset + to.Length] == text;
  }

  /** One text field of `toFormat`: `combined.set(field, offset)`, then the separator after it. */
  method SetField(combined: array<byte>, field: Text, offset: nat) returns (next: nat)
    requires offset + |field| + 1 <= combined.Length
    modifies combined
    ensures next == offset + |field| + 1
    ensures combined[..next] == old(combined[..offset]) + field + [0]
    ensures combined[next..] == old(combined[next..])
  {
    var sep: seq<byte> := [0];
    SetBytes(combined, field, offset);
    next := offset + |field|;
    SetBytes(combined, sep, next);
    next := next + 1;
  }

  // ---------------------------------------------------------------------------
  // Decoding

  /** Where the scan that `readString` runs from `i` stops: the first 0x00 at or after `i`, else the end. */
  function ScanEnd(data: seq<byte>, i: nat): (e: nat)
    ensures i <= e
    ensures i <= |data| ==> e <= |data|
    ensures i >= |data| ==> e == i
    decreases |data| - i
  {
    if i < |data| && data[i] != 0 then ScanEnd(data, i + 1) else i
  }

  /** The scan passes only non-zero bytes and stops on a 0x00 when it stops inside the buffer. */
  lemma {:induction false} ScanEndStops(data: seq<byte>, i: nat)
    ensures forall k :: i <= k < ScanEnd(data, i) ==> data[k] != 0
    ensures ScanEnd(data, i) < |data| ==> data[ScanEnd(data, i)] == 0
    decreases |data| - i
  {
    if i < |data| && data[i] != 0 {
      ScanEndStops(data, i + 1);
    }
  }

  /**
   * `readString` from offset `start`: the text read and the new offset, one past the
   * terminator (or one past the end of the buffer when there is none).
   */
  function Scan(data: seq<byte>, start: nat): (r: (Text, nat))
    ensures 0 !in r.0
    ensures r.1 == start + |r.0| + 1
    ensures start <= |data| ==> r.1 <= |data| + 1 && r.0 == data[start..r.1 - 1]
    ensures start > |data| ==> r.0 == []
    ensures r.1 <= |data| ==> data[r.1 - 1] == 0
  {
    var e := ScanEnd(data, start);
    ScanEndStops(data, start);
    (Slice(data, start, e), e + 1)
  }

  /** `description || undefined`: the empty string becomes absent. */
  function NonEmpty(t: Text): (r: Option<Text>)
    ensures r == None <==> t == []
    ensures r.Some? ==> r.value == t
  {
    if t == [] then None else Some(t)
  }

  /** `n` consecutive `readString` calls from offset `start`: the texts read and the offset after them. */
  function ReadStrings(data: seq<byte>, start: nat, n: nat): (r: (seq<Text>, nat))
    ensures |r.0| == n
    ensures r.1 >= start + n
    decreases n
  {
    if n == 0 then ([], start)
    else
      var (text, next) := Scan(data, start);
      var (texts, end) := ReadStrings(data, next, n - 1);
      ([text] + texts, end)
  }

  /** The five `readString` calls of `decodeFormat` (title, description, at, instructor, location). */
  function ReadFields(data: seq<byte>): (r: (seq<Text>, nat))
    ensures |r.0| == 5 && r.1 >= 5
  {
    ReadStrings(data, 0, 5)
  }

  /**
   * The record `decodeFormat` builds from the five texts, the week byte and the two
   * int32 counts; every field not on the wire takes its constructor default.
   */
  function Decoded(fields: seq<Text>, week: byte, fromInt: int, toInt: int, now: int): (s: Schedule)
    requires |fields| == 5
    ensures s.id == 0 && s.series == None && s.createAt == now && s.notifiable && s.enabled
    ensures s.title == fields[0] && s.week == week
    ensures s.description == NonEmpty(fields[1]) && s.at == NonEmpty(fields[2])
    ensures s.instructor == NonEmpty(fields[3]) && s.location == NonEmpty(fields[4])
    ensures s.from == FromInt(fromInt) && s.to == FromInt(toInt)
  {
    Create(Params(None, fields[0], NonEmpty(fields[1]), NonEmpty(fields[2]), NonEmpty(fields[3]),
                  NonEmpty(fields[4]), week, FromInt(fromInt), FromInt(toInt),
                  None, None, None, None), now)
  }

  /** What `decodeFormat` returns for `data`, or the `RangeError` it throws. */
  function Decode(data: seq<byte>, now: int): (r: Result<Schedule, RangeError>)
    ensures r.Success? ==> r.value.id == 0 && r.value.series == None && r.value.createAt == now
    ensures r.Success? ==> r.value.notifiable && r.value.enabled
    ensures r.Success? ==> 0 <= r.value.week < 256
    ensures r.Success? ==> r.value.description != Some([]) && r.value.at != Some([])
    ensures r.Success? ==> r.value.instructor != Some([]) && r.value.location != Some([])
  {
    var (fields, p) := ReadFields(data);
    DecodeTail(data, fields, p, now)
  }

  /**
   * The rest of `decodeFormat` once the five texts are read and the offset stands at `p`:
   * the week byte, then `fromInt` and `toInt`, each read from a 4-byte slice; a slice
   * cut short by the end of the buffer makes `getInt32` throw.
   */
  function DecodeTail(data: seq<byte>, fields: seq<Text>, p: nat, now: int): (r: Result<Schedule, RangeError>)
    requires |fields| == 5
    ensures r.Success? <==> p + 9 <= |data|
    ensures r.Failure? ==> r.error == OffsetOutsideBounds
    ensures r.Success? ==> r.value == Decoded(fields, data[p], IntFromByteArray(data[p + 1..p + 5]).value,
                                              IntFromByteArray(data[p + 5..p + 9]).value, now)
  {
    var fromInt := IntFromByteArray(Slice(data, p + 1, p + 5));
    var toInt := IntFromByteArray(Slice(data, p + 5, p + 9));
    if fromInt.Failure? then Failure(fromInt.error)
    else if toInt.Failure? then Failure(toInt.error)
    else Success(Decoded(fields, data[p], fromInt.value, toInt.value, now))
  }

  /** The inner `readString`: advances the shared offset past the next terminator. */
  method ReadString(data: array<byte>, offset: nat) returns (str: Text, next: nat)
    ensures (str, next) == Scan(data[..], offset)
  {
    var start := offset;
    var o := offset;
    while o < data.Length && data[o] != 0
      invariant start <= o
      invariant ScanEnd(data[..], o) == ScanEnd(data[..], start)
      decreases data.Length - o
    {
      o := o + 1;
    }
    str := Slice(data[..], start, o);
    next := o + 1;
  }

  /** `decodeFormat`; `now` is the creation time the constructor would read from the clock. */
  method DecodeFormat(data: array<byte>, now: int) returns (r: Result<Schedule, RangeError>)
    ensures r == Decode(data[..], now)
  {
    var offset: nat := 0;
    var title, description, at, instructor, location;
    title, offset := ReadString(data, offset);
    ghost var o1 := offset;
    description, offset := ReadString(data, offset);
    ghost var o2 := offset;
    at, offset := ReadString(data, offset);
    ghost var o3 := offset;
    instructor, offset := ReadString(data, offset);
    ghost var o4 := offset;
    location, offset := ReadString(data, offset);
    var texts := [title, description, at, instructor, location];
    ReadFieldsChain(data[..], texts, o1, o2, o3, o4, offset);
    DecodeAt(data[..], texts, offset, now);
    r := ReadWeekAndTimes(data, texts, offset, now);
  }

  /**
   * The second half of `decodeFormat`, from the offset the five reads left: the week
   * byte, the two 4-byte slices and their int32 values, then the constructor call.
   */
  method ReadWeekAndTimes(data: array<byte>, texts: seq<Text>, p: nat, now: int)
    returns (r: Result<Schedule, RangeError>)
    requires |texts| == 5
    ensures r == DecodeTail(data[..], texts, p, now)
  {
    var offset := p;
    // `data[offset]` is undefined past the end; the reads below then throw.
    var week: Option<byte> := if offset < data.Length then Some(data[offset]) else None;
    offset := offset + 1;

    var fromBytes := Slice(data[..], offset, offset + 4);
    offset := offset + 4;
    var toBytes := Slice(data[..], offset, offset + 4);
    offset := offset + 4;

    var fromInt := IntFromByteArray(fromBytes);
    if fromInt.Failure? {
      return Failure(fromInt.error);
    }
    var toInt := IntFromByteArray(toBytes);
    if toInt.Failure? {
      return Failure(toInt.error);
    }

    r := Success(Decoded(texts, week.value, fromInt.value, toInt.value, now));
  }

  // ---------------------------------------------------------------------------
  // Properties of the layout

  function SumLengths(fields: seq<Text>): nat
  {
    if fields == [] then 0 else |fields[0]| + SumLengths(fields[1..])
  }

  lemma {:induction false} JoinLength(fields: seq<Text>)
    ensures |Join(fields)| == SumLengths(fields) + |fields|
  {
    if fields != [] {
      JoinLength(fields[1..]);
    }
  }

  lemma {:induction false} JoinAppend(x: seq<Text>, y: seq<Text>)
    ensures Join(x + y) == Join(x) + Join(y)
  {
    if x == [] {
      assert x + y == y;
    } else {
      assert (x + y)[1..] == x[1..] + y;
      JoinAppend(x[1..], y);
    }
  }

  lemma JoinFive(a: Text, b: Text, c: Text, d: Text, e: Text)
    ensures Join([a, b, c, d, e]) == a + [0] + b + [0] + c + [0] + d + [0] + e + [0]
  {
    var none: seq<Text> := [];
    assert [e][1..] == none;
    assert [d, e][1..] == [e];
    assert [c, d, e][1..] == [d, e];
    assert [b, c, d, e][1..] == [c, d, e];
    assert [a, b, c, d, e][1..] == [b, c, d, e];
    assert Join([e]) == e + [0];
    assert Join([d, e]) == d + [0] + Join([e]);
    assert Join([c, d, e]) == c + [0] + Join([d, e]);
    assert Join([b, c, d, e]) == b + [0] + Join([c, d, e]);
    assert Join([a, b, c, d, e]) == a + [0] + Join([b, c, d, e]);
  }

  /** Field `i` sits right after the fields before it, followed by exactly one 0x00. */
  lemma {:induction false} JoinLayout(fields: seq<Text>, i: nat)
    requires i < |fields|
    ensures Join(fields[..i + 1]) == Join(fields[..i]) + fields[i] + [0]
    ensures Join(fields) == Join(fields[..i + 1]) + Join(fields[i + 1..])
  {
    assert fields == fields[..i + 1] + fields[i + 1..];
    JoinAppend(fields[..i + 1], fields[i + 1..]);
    assert fields[..i + 1] == fields[..i] + [fields[i]];
    JoinAppend(fields[..i], [fields[i]]);
    var single: seq<Text> := [fields[i]];
    assert single[1..] == [];
  }

  /** The encoded length: the five text lengths, five separators, one week byte, 4 + 4 time bytes. */
  lemma FormatLength(s: Schedule)
    ensures |Format(s)| == |s.title| + |StringToByteArray(s.description)| + |StringToByteArray(s.at)|
                           + |StringToByteArray(s.instructor)| + |StringToByteArray(s.location)|
                           + 5 + 1 + 4 + 4
  {
    var f := Fields(s);
    JoinFive(f[0], f[1], f[2], f[3], f[4]);
  }

  /** Each text field's bytes appear in order, each followed by exactly one 0x00. */
  lemma FormatFieldLayout(s: Schedule, i: nat)
    requires i < 5
    ensures var o := |Join(Fields(s)[..i])|;
            var f := Fields(s)[i];
            o + |f| < |Format(s)| && Format(s)[o..o + |f|] == f && Format(s)[o + |f|] == 0
  {
    var fields := Fields(s);
    JoinLayout(fields, i);
    SegmentAt(Join(fields[..i]), fields[i], Join(fields[i + 1..]),
              [WeekByte(s.week)] + Int32LE(ToInt(s.from)) + Int32LE(ToInt(s.to)));
  }

  /** A terminated segment inside a buffer: its bytes and then its 0x00, at the offset `|front|`. */
  lemma SegmentAt(front: seq<byte>, f: seq<byte>, back: seq<byte>, tail: seq<byte>)
    ensures var data := front + f + [0] + back + tail;
            |front| + |f| < |data| && data[|front|..|front| + |f|] == f && data[|front| + |f|] == 0
  {
    var data := front + f + [0] + back + tail;
    assert data == front + f + [0] + (back + tail);
  }

  /** After the fifth separator: the week byte, then `from` and `to` as little-endian int32. */
  lemma FormatTail(s: Schedule)
    ensures var p := |Join(Fields(s))|;
            |Format(s)| == p + 9 &&
            Format(s)[p] == WeekByte(s.week) &&
            Format(s)[p + 1..p + 5] == Int32LE(ToInt(s.from)) &&
            Format(s)[p + 5..] == Int32LE(ToInt(s.to))
  {
  }

  /** An absent optional field and an empty one produce the same bytes. */
  lemma FormatAbsentIsEmpty(s: Schedule)
    ensures Format(s.(description := None)) == Format(s.(description := Some([])))
    ensures Format(s.(at := None)) == Format(s.(at := Some([])))
    ensures Format(s.(instructor := None)) == Format(s.(instructor := Some([])))
    ensures Format(s.(location := None)) == Format(s.(location := Some([])))
  {
  }

  // ---------------------------------------------------------------------------
  // Properties of decoding

  /** A NUL-free field followed by 0x00 is read whole, and the offset lands past the 0x00. */
  lemma {:induction false} ScanField(prefix: seq<byte>, f: Text, suffix: seq<byte>)
    requires 0 !in f
    ensures Scan(prefix + f + [0] + suffix, |prefix|) == (f, |prefix| + |f| + 1)
  {
    var data := prefix + f + [0] + suffix;
    assert data[|prefix| + |f|] == 0;
    assert data[|prefix|..|prefix| + |f|] == f;
  }

  lemma {:induction false} ScanJoin(fields: seq<Text>, rest: seq<byte>, i: nat)
    requires i < |fields|
    requires forall k :: 0 <= k < |fields| ==> 0 !in fields[k]
    ensures Scan(Join(fields) + rest, |Join(fields[..i])|) == (fields[i], |Join(fields[..i + 1])|)
  {
    JoinLayout(fields, i);
    var suffix := Join(fields[i + 1..]) + rest;
    assert Join(fields) + rest == Join(fields[..i]) + fields[i] + [0] + suffix;
    ScanField(Join(fields[..i]), fields[i], suffix);
  }

  /** Scanning five NUL-free fields from the start ends right after the fifth separator. */
  lemma {:induction false} ScanFive(fields: seq<Text>, rest: seq<byte>)
    requires |fields| == 5
    requires forall k :: 0 <= k < 5 ==> 0 !in fields[k]
    ensures ReadFields(Join(fields) + rest) == (fields, |Join(fields)|)
  {
    var none: seq<Text> := [];
    assert fields[..0] == none;
    ReadStringsJoin(fields, rest, 0);
  }

  /** The scans from the start of field `i` read the remaining fields and stop after the last separator. */
  lemma {:induction false} ReadStringsJoin(fields: seq<Text>, rest: seq<byte>, i: nat)
    requires i <= |fields|
    requires forall k :: 0 <= k < |fields| ==> 0 !in fields[k]
    ensures ReadStrings(Join(fields) + rest, |Join(fields[..i])|, |fields| - i) == (fields[i..], |Join(fields)|)
    decreases |fields| - i
  {
    if i == |fields| {
      assert fields[..i] == fields;
    } else {
      assert fields[i..] == [fields[i]] + fields[i + 1..];
      ScanJoin(fields, rest, i);
      ReadStringsJoin(fields, rest, i + 1);
    }
  }

  /** Five scans that each stop where the next one starts read the five fields in turn. */
  lemma ReadFieldsChain(data: seq<byte>, fields: seq<Text>, o1: nat, o2: nat, o3: nat, o4: nat, p: nat)
    requires |fields| == 5
    requires Scan(data, 0) == (fields[0], o1) && Scan(data, o1) == (fields[1], o2)
    requires Scan(data, o2) == (fields[2], o3) && Scan(data, o3) == (fields[3], o4)
    requires Scan(data, o4) == (fields[4], p)
    ensures ReadFields(data) == (fields, p)
  {
    var none: seq<Text> := [];
    assert fields[5..] == none;
    assert ReadStrings(data, p, 0) == (fields[5..], p);
    assert fields[4..] == [fields[4]] + fields[5..];
    assert ReadStrings(data, o4, 1) == (fields[4..], p);
    assert fields[3..] == [fields[3]] + fields[4..];
    assert ReadStrings(data, o3, 2) == (fields[3..], p);
    assert fields[2..] == [fields[2]] + fields[3..];
    assert ReadStrings(data, o2, 3) == (fields[2..], p);
    assert fields[1..] == [fields[1]] + fields[2..];
    assert ReadStrings(data, o1, 4) == (fields[1..], p);
    assert fields == [fields[0]] + fields[1..];
  }

  /** Once the five scans are known to have read `fields` and stopped at `p`, `Decode` is `DecodeTail`. */
  lemma DecodeAt(data: seq<byte>, fields: seq<Text>, p: nat, now: int)
    requires ReadFields(data) == (fields, p)
    ensures |fields| == 5
    ensures Decode(data, now) == DecodeTail(data, fields, p, now)
  {
  }

  /**
   * Five NUL-free fields, each terminated, followed by at least nine bytes decode to those
   * fields, the week byte and the two int32 counts; bytes after those nine play no part.
   */
  lemma {:induction false} DecodeFrame(fields: seq<Text>, rest: seq<byte>, now: int)
    requires |fields| == 5
    requires forall k :: 0 <= k < 5 ==> 0 !in fields[k]
    requires |rest| >= 9
    ensures IntFromByteArray(rest[1..5]).Success? && IntFromByteArray(rest[5..9]).Success?
    ensures Decode(Join(fields) + rest, now) ==
      Success(Decoded(fields, rest[0], IntFromByteArray(rest[1..5]).value, IntFromByteArray(rest[5..9]).value, now))
  {
    ScanFive(fields, rest);
    DecodeAt(Join(fields) + rest, fields, |Join(fields)|, now);
    TailOfAppend(Join(fields), rest, fields, now);
  }

  /** What follows the offset `|front|` is all `DecodeTail` looks at. */
  lemma TailOfAppend(front: seq<byte>, rest: seq<byte>, fields: seq<Text>, now: int)
    requires |fields| == 5
    requires |rest| >= 9
    ensures DecodeTail(front + rest, fields, |front|, now) ==
      Success(Decoded(fields, rest[0], IntFromByteArray(rest[1..5]).value, IntFromByteArray(rest[5..9]).value, now))
  {
    var data := front + rest;
    var p := |front|;
    assert data[p] == rest[0];
    assert data[p + 1..p + 5] == rest[1..5];
    assert data[p + 5..p + 9] == rest[5..9];
  }

  /**
   * Decoding succeeds exactly when nine bytes (week, from, to) follow the offset the five
   * `readString` calls leave behind; a buffer with fewer than five 0x00 bytes leaves that
   * offset past the end (`DecodeNeedsFiveTerminators`).
   */
  lemma DecodeSucceedsIff(data: seq<byte>, now: int)
    ensures Decode(data, now).Success? <==> ReadFields(data).1 + 9 <= |data|
  {
    var (fields, p) := ReadFields(data);
    DecodeAt(data, fields, p, now);
  }

  /** Fewer than nine bytes after the fifth separator: decoding throws. */
  lemma {:induction false} DecodeFrameShort(fields: seq<Text>, rest: seq<byte>, now: int)
    requires |fields| == 5
    requires forall k :: 0 <= k < 5 ==> 0 !in fields[k]
    requires |rest| < 9
    ensures Decode(Join(fields) + rest, now) == Failure(OffsetOutsideBounds)
  {
    var data := Join(fields) + rest;
    ScanFive(fields, rest);
    DecodeAt(data, fields, |Join(fields)|, now);
  }

  /** The five text fields as they are put on the wire again for a decoded record. */
  function WireFields(s: Schedule): seq<Text>
  {
    [s.title, StringToByteArray(s.description), StringToByteArray(s.at),
     StringToByteArray(s.instructor), StringToByteArray(s.location)]
  }

  /** One `readString` that found its terminator consumed exactly the text read and the 0x00. */
  lemma ScanConsumed(data: seq<byte>, start: nat)
    requires Scan(data, start).1 <= |data|
    ensures data[start..Scan(data, start).1] == Scan(data, start).0 + [0]
  {
  }

  lemma PrefixExtend(data: seq<byte>, i: nat, j: nat, front: seq<byte>, next: seq<byte>)
    requires i <= j <= |data|
    requires data[..i] == front && data[i..j] == next
    ensures data[..j] == front + next
  {
    assert data[..j] == data[..i] + data[i..j];
  }

  /** When the five scans stay inside the buffer, the bytes they passed are the texts read, joined. */
  lemma {:induction false} ReadFieldsShape(data: seq<byte>)
    requires ReadFields(data).1 <= |data|
    ensures var (fields, p) := ReadFields(data);
            (forall k :: 0 <= k < 5 ==> 0 !in fields[k]) && data[..p] == Join(fields)
  {
    var (t, o1) := Scan(data, 0);
    var (d, o2) := Scan(data, o1);
    var (a, o3) := Scan(data, o2);
    var (i, o4) := Scan(data, o3);
    var (l, p) := Scan(data, o4);
    ReadFieldsChain(data, [t, d, a, i, l], o1, o2, o3, o4, p);
    ScanConsumed(data, 0);
    ScanConsumed(data, o1);
    ScanConsumed(data, o2);
    ScanConsumed(data, o3);
    ScanConsumed(data, o4);
    JoinSegments(data, t, d, a, i, l, o1, o2, o3, o4, p);
  }

  /** Five consecutive segments, each a text and its terminator, make up the joined texts. */
  lemma JoinSegments(data: seq<byte>, t: Text, d: Text, a: Text, i: Text, l: Text,
                     o1: nat, o2: nat, o3: nat, o4: nat, p: nat)
    requires o1 <= o2 <= o3 <= o4 <= p <= |data|
    requires data[0..o1] == t + [0] && data[o1..o2] == d + [0] && data[o2..o3] == a + [0]
    requires data[o3..o4] == i + [0] && data[o4..p] == l + [0]
    ensures data[..p] == Join([t, d, a, i, l])
  {
    assert data[..o1] == t + [0];
    PrefixExtend(data, o1, o2, t + [0], d + [0]);
    PrefixExtend(data, o2, o3, t + [0] + d + [0], a + [0]);
    PrefixExtend(data, o3, o4, t + [0] + d + [0] + a + [0], i + [0]);
    PrefixExtend(data, o4, p, t + [0] + d + [0] + a + [0] + i + [0], l + [0]);
    JoinFive(t, d, a, i, l);
  }

  /**
   * Conversely, a buffer that decodes starts with five NUL-free terminated fields (those
   * decoded) and has at least nine more bytes.
   */
  lemma {:induction false} DecodeShape(data: seq<byte>, now: int)
    requires Decode(data, now).Success?
    ensures var fields := WireFields(Decode(data, now).value);
            var p := |Join(fields)|;
            (forall k :: 0 <= k < 5 ==> 0 !in fields[k]) &&
            p + 9 <= |data| && data[..p] == Join(fields)
  {
    var (fields, p) := ReadFields(data);
    assert |Slice(data, p + 5, p + 9)| >= 4;
    assert p + 9 <= |data|;
    ReadFieldsShape(data);
    assert WireFields(Decode(data, now).value) == fields;
  }

  lemma {:induction false} JoinTerminators(fields: seq<Text>)
    ensures multiset(Join(fields))[0] >= |fields|
  {
    if fields != [] {
      JoinTerminators(fields[1..]);
      assert Join(fields) == fields[0] + [0] + Join(fields[1..]);
    }
  }

  /** A buffer with fewer than five 0x00 bytes never decodes. */
  lemma {:induction false} DecodeNeedsFiveTerminators(data: seq<byte>, now: int)
    requires multiset(data)[0] < 5
    ensures Decode(data, now).Failure?
  {
    if Decode(data, now).Success? {
      DecodeShape(data, now);
      var fields := WireFields(Decode(data, now).value);
      var p := |Join(fields)|;
      assert data == data[..p] + data[p..];
      JoinTerminators(fields);
      assert false;
    }
  }

  /** Appending bytes to a buffer that decodes changes nothing. */
  lemma {:induction false} DecodeIgnoresTrailing(data: seq<byte>, extra: seq<byte>, now: int)
    requires Decode(data, now).Success?
    ensures Decode(data + extra, now) == Decode(data, now)
  {
    var (fields, p) := ReadFields(data);
    DecodeSucceedsIff(data, now);
    ReadStringsExtend(data, extra, 0, 5);
    DecodeAt(data, fields, p, now);
    DecodeAt(data + extra, fields, p, now);
    TailIgnoresTrailing(data, extra, fields, p, now);
  }

  /** Bytes appended after the nine that `DecodeTail` reads leave its result unchanged. */
  lemma TailIgnoresTrailing(data: seq<byte>, extra: seq<byte>, fields: seq<Text>, p: nat, now: int)
    requires |fields| == 5
    requires p + 9 <= |data|
    ensures DecodeTail(data + extra, fields, p, now) == DecodeTail(data, fields, p, now)
  {
    assert (data + extra)[p] == data[p];
    assert (data + extra)[p + 1..p + 5] == data[p + 1..p + 5];
    assert (data + extra)[p + 5..p + 9] == data[p + 5..p + 9];
  }

  /** A scan that stops at a terminator inside the buffer is unaffected by bytes appended after it. */
  lemma {:induction false} ScanEndExtend(data: seq<byte>, extra: seq<byte>, i: nat)
    requires ScanEnd(data, i) < |data|
    ensures ScanEnd(data + extra, i) == ScanEnd(data, i)
    decreases |data| - i
  {
    if data[i] != 0 {
      ScanEndExtend(data, extra, i + 1);
    }
  }

  lemma ScanExtend(data: seq<byte>, extra: seq<byte>, start: nat)
    requires Scan(data, start).1 <= |data|
    ensures Scan(data + extra, start) == Scan(data, start)
  {
    var e := ScanEnd(data, start);
    ScanEndExtend(data, extra, start);
    assert Slice(data + extra, start, e) == Slice(data, start, e);
  }

  /** Scans that all found their terminators inside the buffer read the same after bytes are appended. */
  lemma {:induction false} ReadStringsExtend(data: seq<byte>, extra: seq<byte>, start: nat, n: nat)
    requires ReadStrings(data, start, n).1 <= |data|
    ensures ReadStrings(data + extra, start, n) == ReadStrings(data, start, n)
    decreases n
  {
    if n > 0 {
      var next := Scan(data, start).1;
      ScanExtend(data, extra, start);
      ReadStringsExtend(data, extra, next, n - 1);
    }
  }

  // ---------------------------------------------------------------------------
  // Round trip

  /** `decodeFormat(toFormat(s))` for a record whose text fields hold no U+0000. */
  lemma {:induction false} RoundTrip(s: Schedule, now: int)
    requires NulFree(s)
    ensures Decode(Format(s), now) ==
      Success(Decoded(Fields(s), WeekByte(s.week), ToInt32(ToInt(s.from)), ToInt32(ToInt(s.to)), now))
  {
    var fields := Fields(s);
    var rest := [WeekByte(s.week)] + Int32LE(ToInt(s.from)) + Int32LE(ToInt(s.to));
    assert Format(s) == Join(fields) + rest;
    assert forall k :: 0 <= k < 5 ==> fields[k] in fields;
    DecodeFrame(fields, rest, now);
    ThreePieces([WeekByte(s.week)], Int32LE(ToInt(s.from)), Int32LE(ToInt(s.to)));
    IntFromInt32LE(ToInt(s.from));
    IntFromInt32LE(ToInt(s.to));
  }

  /** The nine bytes after the texts split into the week byte and two 4-byte groups. */
  lemma ThreePieces(w: seq<byte>, x: seq<byte>, y: seq<byte>)
    requires |w| == 1 && |x| == 4 && |y| == 4
    ensures (w + x + y)[0] == w[0] && (w + x + y)[1..5] == x && (w + x + y)[5..9] == y
  {
  }

  /** A time of day that has the normal shape and fits in an int32. */
  predicate Normal(t: ScheduleTime)
  {
    t.hour >= 0 && 0 <= t.minute < 60 && ToInt(t) < TWO31
  }

  /** The round trip, field by field. */
  lemma {:induction false} RoundTripFields(s: Schedule, now: int)
    requires NulFree(s)
    ensures Decode(Format(s), now).Success?
    ensures var d := Decode(Format(s), now).value;
            d.title == s.title &&
            d.description == (if s.description == Some([]) then None else s.description) &&
            d.at == (if s.at == Some([]) then None else s.at) &&
            d.instructor == (if s.instructor == Some([]) then None else s.instructor) &&
            d.location == (if s.location == Some([]) then None else s.location) &&
            d.week == s.week % 256
    ensures var d := Decode(Format(s), now).value;
            (0 <= ToInt(s.from) < TWO31 ==> ToInt(d.from) == ToInt(s.from)) &&
            (0 <= ToInt(s.to) < TWO31 ==> ToInt(d.to) == ToInt(s.to))
    ensures var d := Decode(Format(s), now).value;
            (Normal(s.from) ==> d.from == s.from) && (Normal(s.to) ==> d.to == s.to)
  {
    RoundTrip(s, now);
    SecondsRoundTrip(s.from);
    SecondsRoundTrip(s.to);
  }

  lemma {:induction false} SecondsRoundTrip(t: ScheduleTime)
    ensures 0 <= ToInt(t) < TWO31 ==> ToInt(FromInt(ToInt32(ToInt(t)))) == ToInt(t)
    ensures Normal(t) ==> FromInt(ToInt32(ToInt(t))) == t
  {
    var v := ToInt(t);
    if 0 <= v < TWO31 {
      ToInt32InRange(v);
      ToIntWholeMinutes(t);
      ToIntOfFromInt(v);
    }
    if Normal(t) {
      ToInt32InRange(v);
      FromIntOfToInt(t);
    }
  }

  // ---------------------------------------------------------------------------
  // Examples

  /** The week byte keeps only the low eight bits: 263 becomes 7. */
  lemma WeekByteExample()
    ensures WeekByte(263) == 7 && WeekByte(2) == 2
  {
  }

  /** "Math", weekday 2, 9:00 to 10:00, no optional fields. */
  function MathExample(now: int): Schedule
  {
    Create(Params(None, [77, 97, 116, 104], None, None, None, None, 2,
                  ScheduleTime(9, 0), ScheduleTime(10, 0), None, None, None, None), now)
  }

  /** Its bytes: 32400 = 0x7E90 and 36000 = 0x8CA0, little-endian. */
  lemma ConcreteVectorBytes(now: int)
    ensures Format(MathExample(now)) ==
            [77, 97, 116, 104, 0, 0, 0, 0, 0, 2, 0x90, 0x7E, 0, 0, 0xA0, 0x8C, 0, 0]
  {
    var s := MathExample(now);
    JoinFive(s.title, [], [], [], []);
    assert Fields(s) == [s.title, [], [], [], []];
    assert Int32LE(ToInt(s.from)) == [0x90, 0x7E, 0, 0];
    assert Int32LE(ToInt(s.to)) == [0xA0, 0x8C, 0, 0];
  }

  /** ... and they decode back to the same record. */
  lemma ConcreteVectorDecode(now: int)
    ensures Decode(Format(MathExample(now)), now) == Success(MathExample(now))
  {
    var s := MathExample(now);
    assert Normal(s.from) && Normal(s.to);
    SecondsRoundTrip(s.from);
    SecondsRoundTrip(s.to);
    assert Fields(s) == [s.title, [], [], [], []];
    assert NulFree(s);
    assert NonEmpty(StringToByteArray(None)) == None;
    assert WeekByte(s.week) == s.week;
    RoundTrip(s, now);
  }
}
