# Schedule codec

A Dafny model of the byte codec of `node_dalist_utils`. The codec serialises one weekly
timetable entry (`Schedule`) and reads it back. The model also covers the time-of-day
arithmetic the codec depends on (`ScheduleTime`) and the two byte helpers it calls
(`intFromByteArray`, `stringToByteArray`).

Wire form produced by `Schedule.toFormat` and read by `Schedule.decodeFormat`:

| field | bytes |
|---|---|
| title, description, at, instructor, location | the text's UTF-8 bytes, then one `0x00` each |
| week | `week & 0xff` |
| from, to | `toInt()` as a little-endian signed 32-bit integer, 4 bytes each |

Modules, one per source file plus two for the built-ins they lean on:

- `Wrappers` defines `Option` and `Result`. A `Result` failure stands for a thrown exception.
- `TypedArrays` holds the JavaScript built-ins the code calls, stated for integer values.
  These are `Uint8Array.set`, `Uint8Array.slice`, `DataView.setInt32` and
  `DataView.getInt32` (little-endian), with ECMAScript's ToInt32 wrap-around.
- `ByteUtils` models `src/utils/byte.ts`. A string is represented by its UTF-8 bytes
  (`Text = seq<byte>`). Encoding and decoding are taken to leave text unchanged, which
  holds for well-formed text without a leading byte order mark (see "## Left out").
- `ScheduleTimes` models `src/class/ScheduleTime.ts`. `ScheduleTime` is an immutable value
  (a datatype). `toByteArray` is a method that fills a fresh 4-byte array in place.
- `Schedules` models `src/class/Schedule.ts`. A `Schedule` is never changed after its
  constructor runs, so it is a datatype and the constructor is the function `Create`.
  - `ToFormat` allocates the array and fills it at a running offset. Its result is tied to
    the function `Format`.
  - `DecodeFormat` threads the offset through `ReadString`, which is a `while` loop. Its
    result is tied to the function `Decode`. The statements after the five reads are the
    method `ReadWeekAndTimes`, tied to the function `DecodeTail`.
  - All layout, decoding and round-trip lemmas are stated about `Format` and `Decode`.

Behaviour of the code worth knowing:

- **Negative second counts.** `fromInt` takes the minute from JavaScript's `%`, which
  keeps the dividend's sign. So -1800 gives hour -1 and minute -30. For a negative count
  that is not a whole number of hours, `toInt(fromInt(v))` lands one hour below `v`, less
  its sub-minute seconds (`ToIntOfFromIntNegative`); -1801 comes back as -5460.
- **Short buffers.** `decodeFormat` has no length check of its own. A buffer too short
  for the week byte and the two counts fails because `DataView.getInt32` throws a
  `RangeError` on fewer than 4 bytes. The model returns `Failure(OffsetOutsideBounds)`.
- **Terminators.** `readString` stops at the first `0x00` or at the end of the buffer.
  A buffer with fewer than five `0x00` bytes in all never decodes
  (`DecodeNeedsFiveTerminators`). When a text's terminator is missing but a later
  `0x00` exists, the scan stops on that later byte, and decoding can succeed with
  fields taken from the wrong bytes.
- **Example.** "Math", week 2, 9:00 to 10:00 encodes as the bytes of "Math", five
  `0x00` separators, `02`, then `90 7E 00 00` (32400) and `A0 8C 00 00` (36000)
  (`ConcreteVectorBytes`).

## Model

| member | source | states |
|---|---|---|
| `ByteUtils.IntFromByteArray` | src/utils/byte.ts:3-6 | succeeds exactly when at least 4 bytes are given; the result is the int32 congruent modulo 2^32 to the unsigned little-endian value of the first four bytes, so it lies in [-2^31, 2^31) |
| `ByteUtils.IntFromByteArrayIgnoresTail` | src/utils/byte.ts:5 | bytes after the first four do not affect the result |
| `ByteUtils.IntFromInt32LE` | src/utils/byte.ts:3-6 | reading back the 4 bytes `setInt32` wrote for `v` yields `ToInt32(v)` |
| `ByteUtils.IntFromInt32LEInRange` | src/utils/byte.ts:3-6 | every int32 value survives the write and the read unchanged |
| `ByteUtils.StringToByteArray` | src/utils/byte.ts:35-37 | the result is empty exactly when the string is absent or empty; otherwise it is the string's encoding |
| `ByteUtils.StringToByteArrayNulFree` | src/utils/byte.ts:36 | the bytes hold no `0x00` when the string holds no U+0000 |
| `TypedArrays.ToInt32` | src/class/ScheduleTime.ts:18 | the integer conversion `setInt32` applies: the unique value in [-2^31, 2^31) congruent to `v` modulo 2^32 |
| `TypedArrays.Int32LE` | src/class/ScheduleTime.ts:18 | the 4 bytes `setInt32(0, v, true)` stores; their meaning, the little-endian digits of `v mod 2^32`, is stated by `Uint32LEOfInt32LE` |
| `TypedArrays.Uint32LEOfInt32LE` | src/class/ScheduleTime.ts:14-20 | the 4 bytes written for `v` are the little-endian base-256 digits of `v mod 2^32` |
| `TypedArrays.GetInt32LE` | src/utils/byte.ts:5 | `getInt32(0, true)` throws exactly when fewer than 4 bytes are in view; otherwise it gives the int32 congruent modulo 2^32 to the unsigned little-endian value of the first four |
| `TypedArrays.GetInt32OfInt32LE` | src/utils/byte.ts:5 | `getInt32` of what `setInt32` wrote is `ToInt32(v)` |
| `TypedArrays.Slice` | src/class/Schedule.ts:127 | `slice(start, end)` clamps both ends to the length and is empty when they cross |
| `TypedArrays.SetBytes` | src/class/Schedule.ts:84 | `set(src, offset)` puts `src` right after the untouched prefix and leaves the rest of the array unchanged |
| `TypedArrays.SetInt32` | src/class/ScheduleTime.ts:18 | the four bytes at the offset become the little-endian int32 of the value and nothing else changes |
| `ScheduleTimes.JsRem` | src/class/ScheduleTime.ts:31 | JavaScript `%`: remainder of truncating division, with the dividend's sign and magnitude below the divisor |
| `ScheduleTimes.FromInt` | src/class/ScheduleTime.ts:29-33 | `hour` is `floor(v/3600)` and `minute` is `floor(jsrem(v,3600)/60)`, each stated by its bounds |
| `ScheduleTimes.ToByteArray` | src/class/ScheduleTime.ts:14-20 | returns a fresh array holding exactly the 4 little-endian bytes of `toInt()` |
| `ScheduleTimes.ToByteArrayRoundTrip` | src/class/ScheduleTime.ts:14-20 | those 4 bytes are the two's-complement of `toInt()`; `intFromByteArray` reads back `toInt()` whenever it fits in an int32 |
| `ScheduleTimes.FromIntOfToInt` | src/class/ScheduleTime.ts:10-12 | for `hour >= 0` and `0 <= minute < 60`, `fromInt(toInt())` gives back the same hour and minute |
| `ScheduleTimes.FromIntNonNegative` | src/class/ScheduleTime.ts:29-33 | for `v >= 0` the hour is non-negative and the minute lies in [0, 59] |
| `ScheduleTimes.ToIntOfFromInt` | src/class/ScheduleTime.ts:29-33 | for `v >= 0`, `toInt(fromInt(v)) == v - v % 60`: only sub-minute seconds are lost |
| `ScheduleTimes.FromIntNegative` | src/class/ScheduleTime.ts:30-31 | for `v < 0` the hour is negative and the minute lies in [-60, 0] |
| `ScheduleTimes.MinuteOfNegative` | src/class/ScheduleTime.ts:29-33 | for negative `v` that is not a whole number of hours, the minute is the floored minute of `v mod 3600` less 60 |
| `ScheduleTimes.ToIntOfFromIntNegative` | src/class/ScheduleTime.ts:29-33 | for negative `v` that is not a whole number of hours, `toInt(fromInt(v))` is one hour below `v` less its sub-minute seconds |
| `ScheduleTimes.ToIntOfFromIntWholeHours` | src/class/ScheduleTime.ts:29-33 | a whole number of hours, negative ones included, decodes with minute 0 and `toInt(fromInt(v))` gives `v` back |
| `ScheduleTimes.FromIntExample` | src/class/ScheduleTime.ts:30-31 | -1800 gives hour -1 and minute -30, which `toInt` reads as -5400; -1801 reads back as -5460 |
| `ScheduleTimes.ToInt` | src/class/ScheduleTime.ts:10-12 | seconds since midnight; `ToIntWholeMinutes`, `FromIntOfToInt` and `ToIntOfFromInt` state what it means against `fromInt` |
| `ScheduleTimes.ToIntWholeMinutes` | src/class/ScheduleTime.ts:10-12 | `toInt()` is always a whole number of minutes |
| `ScheduleTimes.GetDuration` | src/class/ScheduleTime.ts:22-27 | `fromInt` of the second difference; `GetDurationForward` states that a forward difference comes out exact and normal |
| `ScheduleTimes.GetDurationForward` | src/class/ScheduleTime.ts:22-27 | when `b` is not before `a`, `getDuration` is exact in seconds and has a normal hour and minute |
| `ScheduleTimes.GetDurationExample` | src/class/ScheduleTime.ts:22-27 | 9:00 to 10:30 lasts 1 hour 30 minutes |
| `Schedules.Create` | src/class/Schedule.ts:20-48 | the constructor copies the given fields; `id` defaults to 0, `notifiable` and `enabled` to true, `createAt` to the current time |
| `Schedules.Duration` | src/class/Schedule.ts:50-52 | the getter delegates to `getDuration(from, to)`; `DurationForward` states its value |
| `Schedules.DurationForward` | src/class/Schedule.ts:50-52 | the `duration` of a record whose `to` is not before `from` is `to - from` in seconds, as a normal time |
| `Schedules.Format` | src/class/Schedule.ts:54-117 | the bytes `toFormat` returns; `FormatLength`, `FormatFieldLayout`, `FormatTail` and `RoundTrip` state their length, layout and inverse |
| `Schedules.WeekByte` | src/class/Schedule.ts:60 | `week & 0xff`: a byte congruent to `week` modulo 256; `WeekByteExample` shows 263 stored as 7 |
| `Schedules.ToFormat` | src/class/Schedule.ts:54-117 | returns a fresh array whose contents are exactly the wire form `Format(s)` |
| `Schedules.SetField` | src/class/Schedule.ts:84-87 | one field is written, then its separator, and the offset advances by the field's length plus one; the bytes before `offset` and from the new offset on are left as they were |
| `Schedules.JoinLength` | src/class/Schedule.ts:67-81 | the text part is as long as the field lengths plus one separator per field |
| `Schedules.JoinLayout` | src/class/Schedule.ts:83-107 | field `i` follows the fields before it and is followed by exactly one `0x00` |
| `Schedules.FormatLength` | src/class/Schedule.ts:67-81 | the encoded length is the five text lengths plus 5 separators plus 1 week byte plus 4 + 4 time bytes |
| `Schedules.FormatFieldLayout` | src/class/Schedule.ts:83-107 | each text field's bytes appear in order, each immediately followed by one `0x00` |
| `Schedules.FormatTail` | src/class/Schedule.ts:109-114 | after the fifth separator come `week & 0xff`, then the LE int32 of `from.toInt()`, then that of `to.toInt()`, and nothing else |
| `Schedules.FormatAbsentIsEmpty` | src/class/Schedule.ts:56-59 | an absent optional field and an empty one produce identical bytes |
| `Schedules.WeekByteExample` | src/class/Schedule.ts:60 | the week byte keeps the low eight bits: 263 is stored as 7 |
| `Schedules.ScanEnd` | src/class/Schedule.ts:124-126 | the loop's stopping point lies between the start and the end of the buffer, and a start at or past the end does not move |
| `Schedules.ScanEndStops` | src/class/Schedule.ts:124-126 | every byte the loop passes is non-zero, and when it stops inside the buffer it stops on a `0x00` |
| `Schedules.Scan` | src/class/Schedule.ts:122-130 | `readString` returns the NUL-free bytes from the offset up to the first `0x00` or the end, and leaves the offset one past that point |
| `Schedules.ReadString` | src/class/Schedule.ts:122-130 | the loop over the array computes exactly `Scan` |
| `Schedules.NonEmpty` | src/class/Schedule.ts:154-157 | the `or undefined` fallback: absent exactly when the text is empty, else the text itself |
| `Schedules.ReadFields` | src/class/Schedule.ts:132-136 | the five `readString` calls yield five texts and leave the offset at least 5 bytes in |
| `Schedules.ReadStrings` | src/class/Schedule.ts:132-136 | `n` successive `readString` calls yield `n` texts and move the offset forward by at least one per call |
| `Schedules.ReadFieldsChain` | src/class/Schedule.ts:132-136 | five scans, each starting where the previous one stopped, are exactly the five reads of `decodeFormat` |
| `Schedules.Decoded` | src/class/Schedule.ts:148-160 | the record built from the wire: title as read, empty optional texts absent, the week byte, `fromInt` of both counts, and every other field at its constructor default |
| `Schedules.Decode` | src/class/Schedule.ts:119-161 | a decoded record has `id` 0, `series` absent, `notifiable` and `enabled` true, a week in [0, 255] and no empty optional field |
| `Schedules.DecodeTail` | src/class/Schedule.ts:138-161 | after the texts, decoding succeeds exactly when 9 bytes remain, fails only with the `RangeError`, and then holds the week byte and the int32 values of the two following 4-byte groups |
| `Schedules.DecodeAt` | src/class/Schedule.ts:119-161 | once the five reads are known to give `fields` and offset `p`, decoding is `DecodeTail` from `p` |
| `Schedules.DecodeFormat` | src/class/Schedule.ts:119-161 | the method threading the offset through `ReadString` returns exactly `Decode` of the buffer |
| `Schedules.ReadWeekAndTimes` | src/class/Schedule.ts:138-161 | the statements after the five reads return exactly `DecodeTail` at the offset they start from |
| `Schedules.ScanField` | src/class/Schedule.ts:122-130 | a NUL-free field followed by `0x00` is read whole and the offset lands just past the `0x00` |
| `Schedules.ScanJoin` | src/class/Schedule.ts:132-136 | scanning from the start of field `i` of a joined sequence reads field `i` and stops at the start of field `i + 1` |
| `Schedules.ReadStringsJoin` | src/class/Schedule.ts:132-136 | over NUL-free joined fields, the scans from the start of field `i` return the remaining fields and end after the last separator |
| `Schedules.ScanFive` | src/class/Schedule.ts:132-136 | over five NUL-free joined fields the five scans return the fields and end after the fifth separator |
| `Schedules.DecodeFrame` | src/class/Schedule.ts:132-161 | five terminated NUL-free fields and at least 9 more bytes decode to those fields, the week byte and the two int32 counts |
| `Schedules.TailOfAppend` | src/class/Schedule.ts:138-161 | `DecodeTail` at offset `|front|` of `front + rest` reads only `rest`: its first byte and its two 4-byte groups |
| `Schedules.DecodeFrameShort` | src/class/Schedule.ts:138-147 | fewer than 9 bytes after the fifth separator make decoding fail |
| `Schedules.DecodeSucceedsIff` | src/class/Schedule.ts:132-147 | decoding succeeds exactly when at least 9 bytes follow the offset the five scans leave |
| `Schedules.ReadFieldsShape` | src/class/Schedule.ts:132-136 | when the scans stay inside the buffer, the bytes they passed are the five NUL-free texts, joined |
| `Schedules.DecodeShape` | src/class/Schedule.ts:132-147 | a buffer that decodes starts with its decoded fields, each terminated, followed by at least 9 bytes |
| `Schedules.DecodeNeedsFiveTerminators` | src/class/Schedule.ts:122-147 | a buffer with fewer than five `0x00` bytes never decodes |
| `Schedules.ScanEndExtend` | src/class/Schedule.ts:124-126 | a scan that stops on a `0x00` inside the buffer stops at the same place when bytes are appended |
| `Schedules.ReadStringsExtend` | src/class/Schedule.ts:132-136 | reads that all stop inside the buffer give the same texts and offset when bytes are appended |
| `Schedules.TailIgnoresTrailing` | src/class/Schedule.ts:138-147 | bytes appended after the nine that `DecodeTail` reads do not change its result |
| `Schedules.DecodeIgnoresTrailing` | src/class/Schedule.ts:138-147 | appending bytes to a buffer that decodes does not change the result |
| `Schedules.RoundTrip` | src/class/Schedule.ts:54-161 | for NUL-free text fields, `decodeFormat(toFormat(s))` is the record built from the wire fields: texts, `week & 0xff`, and `fromInt` of the int32 of each time |
| `Schedules.RoundTripFields` | src/class/Schedule.ts:119-161 | field by field: the title is identical, each optional field is kept when non-empty and absent otherwise, `week` becomes `week & 0xff`, non-negative int32 second counts survive, and normal times survive whole |
| `Schedules.SecondsRoundTrip` | src/class/ScheduleTime.ts:29-33 | a non-negative int32 second count survives write, read and `fromInt`; a normal time survives whole |
| `Schedules.ConcreteVectorBytes` | src/class/Schedule.ts:54-117 | "Math", week 2, 9:00 to 10:00 encodes to `Math 00 00 00 00 00 02 90 7E 00 00 A0 8C 00 00` |
| `Schedules.ConcreteVectorDecode` | src/class/Schedule.ts:119-161 | those bytes decode to the same record, with the optional fields absent |

## Left out

- `byteArrayToBase64` and `base64ToByteArray` (src/utils/byte.ts:8-33) are left out. They
  branch on the runtime environment and call `btoa`, `atob` or `Buffer`, which are foreign
  library code.
- `createAt = new Date()` reads the clock. The model takes the current time as the
  parameter `now` of `Create`, `Decode` and `DecodeFormat`.
- UTF-8 encoding and decoding are not modelled. Text is its byte sequence. `TextDecoder`'s
  replacement of invalid sequences is therefore not modelled either.
- `Schedules.RoundTrip` and `Schedules.RoundTripFields`: the texts are compared as bytes.
  In the code, `new TextDecoder()` drops a leading byte order mark (EF BB BF), and
  `TextEncoder` replaces lone surrogates with U+FFFD. A title starting with U+FEFF, or
  one holding a lone surrogate, does not come back identical. A description that is only
  U+FEFF comes back absent. Neither effect is captured.
- JavaScript `number` is modelled as an unbounded integer. Fractional hours or minutes and
  `setInt32`'s conversion of non-integer doubles are not modelled. `ToInt32` is exact for
  integers.
- The `Week` enum and the validation schema are not part of this model. `week` is an
  integer.
- src/index.ts holds only re-exports.
- `Schedules.RoundTripFields`: equality of the decoded second counts is stated only for
  non-negative counts that fit in an int32. Negative counts that are not a whole number of
  hours do not come back unchanged, because `fromInt` mixes floor and truncation
  (`ToIntOfFromIntNegative`); whole hours do (`ToIntOfFromIntWholeHours`). Counts outside
  the int32 range wrap.
- `DecodeFormat`: when the offset has run past the end, `data[offset]` is `undefined` in
  JavaScript. The model reads the week byte only on the path where decoding succeeds. On
  every other path the following `getInt32` throws anyway.
