/**
 One stored message as a line of src/storage.cpp's raw log, and what a reader of the
 JSON object recovers from it.
 */
module Records {

  import opened Common
  import opened Decimal
  import opened Json
  import Base64
  import U = Utf8

  datatype Source = Unknown | Kalshi | Replay | SportsOdds | SportsStats | News | Weather | Custom

  datatype Record = Record(
    recvMono: int, recvWall: int, eventTime: Option<int>, source: Source, channel: seq<Byte>, ticker: seq<Byte>,
    sequence: Option<int>, sid: Option<int>, epoch: int, marker: Option<seq<Byte>>, raw: seq<Byte>)
  {
    // The ranges of the source's integer types.
    predicate InRange() {
      && Int64(recvMono) && Int64(recvWall) && (eventTime.Some? ==> Int64(eventTime.value))
      && (sequence.Some? ==> Uint64(sequence.value)) && (sid.Some? ==> Uint64(sid.value)) && 0 <= epoch < 0x1_0000_0000
    }
  }

  predicate Int64(n: int) { INT64_MIN <= n <= INT64_MAX }

  predicate Uint64(n: int) { 0 <= n <= 0xffff_ffff_ffff_ffff }

  // The bytes of a literal; its characters are all below 128.
  function Ascii(s: string): (b: seq<Byte>)
    ensures U.Ascii(b)
  {
    seq(|s|, i requires 0 <= i < |s| => (s[i] as int) % 128)
  }

  function WireName(s: Source): string {
    match s
    case Unknown => "Unknown"
    case Kalshi => "Kalshi"
    case Replay => "Replay"
    case SportsOdds => "SportsOdds"
    case SportsStats => "SportsStats"
    case News => "News"
    case Weather => "Weather"
    case Custom => "Custom"
  }

  function SourceFromWire(s: seq<Byte>): Source {
    if s == Ascii("Kalshi") then Kalshi
    else if s == Ascii("Replay") then Replay
    else if s == Ascii("SportsOdds") then SportsOdds
    else if s == Ascii("SportsStats") then SportsStats
    else if s == Ascii("News") then News
    else if s == Ascii("Weather") then Weather
    else if s == Ascii("Custom") then Custom
    else Unknown
  }

  /** Each source is written under its name, and the name is read back as it. */
  lemma SourceRoundTrip(s: Source)
    ensures SourceFromWire(Ascii(WireName(s))) == s
    ensures (s, WireName(s)) in
      {(Unknown, "Unknown"), (Kalshi, "Kalshi"), (Replay, "Replay"), (SportsOdds, "SportsOdds"),
       (SportsStats, "SportsStats"), (News, "News"), (Weather, "Weather"), (Custom, "Custom")}
  {
    assert Ascii("Kalshi")[0] == 75 && Ascii("Replay")[0] == 82 && Ascii("Custom")[0] == 67;
    assert |Ascii("Unknown")| == |Ascii("Weather")| == 7 && Ascii("Unknown")[0] == 85 && Ascii("Weather")[0] == 87;
    assert |Ascii("Kalshi")| == |Ascii("Replay")| == |Ascii("Custom")| == 6;
    assert |Ascii("SportsOdds")| == 10 && |Ascii("SportsStats")| == 11 && |Ascii("News")| == 4;
  }

  // ---------------------------------------------------------------- the payload

  // How many continuation bytes a lead byte announces; -1 if it cannot lead.
  function Extra(c: Byte): int {
    if c < 0x80 then 0 else if c / 32 == 6 then 1 else if c / 16 == 14 then 2 else if c / 8 == 30 then 3 else -1
  }

  predicate Continues(s: seq<Byte>, i: nat, n: nat)
    requires i + n < |s|
  {
    forall k | i < k <= i + n :: s[k] / 64 == 2
  }

  // Well-formed by lead and continuation bytes; overlong forms and surrogates pass.
  predicate Utf8From(s: seq<Byte>, i: nat)
    requires i <= |s|
    decreases |s| - i
  {
    i == |s| || (var n := Extra(s[i]); n >= 0 && i + n < |s| && Continues(s, i, n) && Utf8From(s, i + n + 1))
  }

  predicate IsValidUtf8(s: seq<Byte>) { Utf8From(s, 0) }

  method CheckUtf8(s: seq<Byte>) returns (ok: bool)
    ensures ok == IsValidUtf8(s)
  {
    var i := 0;
    while i < |s|
      invariant i <= |s| && Utf8From(s, 0) == Utf8From(s, i)
    {
      var n := Extra(s[i]);
      if n < 0 { return false; }
      if i + n >= |s| && n > 0 { return false; }
      var k := 1;
      while k <= n
        invariant 1 <= k <= n + 1 && forall j | i < j < i + k :: s[j] / 64 == 2
      {
        if s[i + k] / 64 != 2 {
          assert !Continues(s, i, n);
          return false;
        }
        k := k + 1;
      }
      i := i + n + 1;
    }
    return true;
  }

  // ---------------------------------------------------------------- objects

  datatype Value = Num(n: int) | Text(s: seq<Byte>)

  datatype Field = Field(key: seq<Byte>, value: Value)

  const COLON: Byte := 58
  const COMMA: Byte := 44
  const OPEN: Byte := 123
  const CLOSE: Byte := 125
  const NEWLINE: Byte := 10

  function EncodeValue(v: Value): seq<Byte> { if v.Num? then ToString(v.n) else Escape(v.s) }

  // The record keys need no escaping: their escaped form is the key between quotes.
  function EncodeField(f: Field): seq<Byte> { Escape(f.key) + [COLON] + EncodeValue(f.value) }

  function Join(fs: seq<Field>): seq<Byte>
    requires fs != []
  {
    if |fs| == 1 then EncodeField(fs[0]) else EncodeField(fs[0]) + ([COMMA] + Join(fs[1..]))
  }

  function EncodeObject(fs: seq<Field>): seq<Byte>
    requires fs != []
  {
    [OPEN] + Join(fs) + [CLOSE]
  }

  // ---------------------------------------------------------------- reading objects back

  predicate NumberByte(b: Byte) { IsDigit(b) || b == MINUS }

  function NumberLen(s: seq<Byte>): (n: nat)
    ensures n <= |s|
  {
    if s == [] || !NumberByte(s[0]) then 0 else 1 + NumberLen(s[1..])
  }

  function ReadValue(s: seq<Byte>): Option<Taken<Value>> {
    if s != [] && s[0] == QUOTE then
      var t := Unquote(s);
      if t.None? then None else Some(Taken(Text(t.value.value), t.value.rest))
    else
      var n := NumberLen(s);
      var v := ParseInt(s[..n]);
      if v.None? then None else Some(Taken(Num(v.value), s[n..]))
  }

  function ReadField(s: seq<Byte>): Option<Taken<Field>> {
    var k := Unquote(s);
    if k.None? || k.value.rest == [] || k.value.rest[0] != COLON then None
    else
      var v := ReadValue(k.value.rest[1..]);
      if v.None? then None else Some(Taken(Field(k.value.value, v.value.value), v.value.rest))
  }

  // Members up to the closing brace; compact form, no white space.
  function ReadMembers(s: seq<Byte>): Option<Taken<seq<Field>>>
    decreases |s|
  {
    var f := ReadField(s);
    if f.None? || f.value.rest == [] || |f.value.rest| >= |s| then None
    else if f.value.rest[0] == CLOSE then Some(Taken([f.value.value], f.value.rest[1..]))
    else if f.value.rest[0] != COMMA then None
    else
      var more := ReadMembers(f.value.rest[1..]);
      if more.None? then None else Some(Taken([f.value.value] + more.value.value, more.value.rest))
  }

  function ReadObject(s: seq<Byte>): Option<Taken<seq<Field>>> {
    if s == [] || s[0] != OPEN then None else ReadMembers(s[1..])
  }

  lemma {:induction false} NumberEnds(s: seq<Byte>, rest: seq<Byte>)
    requires (forall i | 0 <= i < |s| :: NumberByte(s[i])) && (rest == [] || !NumberByte(rest[0]))
    ensures NumberLen(s + rest) == |s|
  {
    if s == [] {
      assert s + rest == rest;
    } else {
      NumberEnds(s[1..], rest);
      assert (s + rest)[1..] == s[1..] + rest;
    }
  }

  lemma ValueRoundTrip(v: Value, rest: seq<Byte>)
    requires rest == [] || !NumberByte(rest[0])
    ensures ReadValue(EncodeValue(v) + rest) == Some(Taken(v, rest))
  {
    var s := EncodeValue(v) + rest;
    match v
    case Text(t) => EscapeRoundTrip(t, rest);
    case Num(n) =>
      NumberEnds(ToString(n), rest);
      ParseToString(n);
      assert s[..|ToString(n)|] == ToString(n) && s[|ToString(n)|..] == rest;
  }

  lemma FieldShape(key: seq<Byte>, v: seq<Byte>, rest: seq<Byte>)
    ensures (key + [COLON] + v) + rest == key + ([COLON] + (v + rest))
    ensures ([COLON] + (v + rest))[1..] == v + rest
  {
  }

  lemma FieldRead(s: seq<Byte>, key: seq<Byte>, tail: seq<Byte>, v: Value, rest: seq<Byte>)
    requires Unquote(s) == Some(Taken(key, tail)) && tail != [] && tail[0] == COLON && ReadValue(tail[1..]) == Some(Taken(v, rest))
    ensures ReadField(s) == Some(Taken(Field(key, v), rest))
  {
  }

  lemma FieldRoundTrip(f: Field, rest: seq<Byte>)
    requires rest == [] || !NumberByte(rest[0])
    ensures ReadField(EncodeField(f) + rest) == Some(Taken(f, rest))
  {
    var v := EncodeValue(f.value);
    var tail := [COLON] + (v + rest);
    FieldShape(Escape(f.key), v, rest);
    EscapeRoundTrip(f.key, tail);
    ValueRoundTrip(f.value, rest);
    FieldRead(EncodeField(f) + rest, f.key, tail, f.value, rest);
  }

  lemma LastMember(s: seq<Byte>, f: Field, rest: seq<Byte>)
    requires ReadField(s) == Some(Taken(f, [CLOSE] + rest)) && |rest| + 1 < |s|
    ensures ReadMembers(s) == Some(Taken([f], rest))
  {
    assert ([CLOSE] + rest)[1..] == rest;
  }

  lemma NextMember(s: seq<Byte>, f: Field, tail: seq<Byte>, fs: seq<Field>, rest: seq<Byte>)
    requires ReadField(s) == Some(Taken(f, [COMMA] + tail)) && |tail| + 1 < |s| && ReadMembers(tail) == Some(Taken(fs, rest))
    ensures ReadMembers(s) == Some(Taken([f] + fs, rest))
  {
    assert ([COMMA] + tail)[1..] == tail;
  }

  lemma Assoc(a: seq<Byte>, b: seq<Byte>, c: seq<Byte>)
    ensures (a + b) + c == a + (b + c)
  {
  }

  lemma {:induction false} MembersRoundTrip(fs: seq<Field>, rest: seq<Byte>)
    requires fs != []
    ensures ReadMembers(Join(fs) + ([CLOSE] + rest)) == Some(Taken(fs, rest))
  {
    var f := fs[0];
    if |fs| == 1 {
      FieldRoundTrip(f, [CLOSE] + rest);
      LastMember(EncodeField(f) + ([CLOSE] + rest), f, rest);
      assert [f] == fs;
    } else {
      var j, tail := Join(fs[1..]), Join(fs[1..]) + ([CLOSE] + rest);
      FieldRoundTrip(f, [COMMA] + tail);
      MembersRoundTrip(fs[1..], rest);
      NextMember(EncodeField(f) + ([COMMA] + tail), f, tail, fs[1..], rest);
      Assoc(EncodeField(f), [COMMA] + j, [CLOSE] + rest);
      Assoc([COMMA], j, [CLOSE] + rest);
      assert [f] + fs[1..] == fs;
    }
  }

  lemma Braces(j: seq<Byte>, rest: seq<Byte>)
    ensures ([OPEN] + j + [CLOSE]) + rest == [OPEN] + (j + ([CLOSE] + rest))
    ensures ([OPEN] + (j + ([CLOSE] + rest)))[1..] == j + ([CLOSE] + rest)
  {
  }

  lemma ObjectRoundTrip(fs: seq<Field>, rest: seq<Byte>)
    requires fs != []
    ensures ReadObject(EncodeObject(fs) + rest) == Some(Taken(fs, rest))
  {
    MembersRoundTrip(fs, rest);
    Braces(Join(fs), rest);
  }

  // ---------------------------------------------------------------- records

  datatype Key =
    | RecvMono | RecvWall | EventTime | SourceKey | Channel | Ticker | Sequence | Sid | Epoch | Marker | Raw | RawB64

  function Name(k: Key): string {
    match k
    case RecvMono => "recv_mono_ns"
    case RecvWall => "recv_wall_ns"
    case EventTime => "source_event_time_ms"
    case SourceKey => "source"
    case Channel => "channel"
    case Ticker => "source_ticker"
    case Sequence => "source_sequence"
    case Sid => "sid"
    case Epoch => "stream_epoch"
    case Marker => "marker"
    case Raw => "raw"
    case RawB64 => "raw_b64"
  }

  // Length, first byte and, where there is one, sixth byte of a key.
  function Print(k: Key): (int, int, int) {
    match k
    case RecvMono => (12, 114, 109)
    case RecvWall => (12, 114, 119)
    case EventTime => (20, 115, 101)
    case SourceKey => (6, 115, 101)
    case Channel => (7, 99, 101)
    case Ticker => (13, 115, 101)
    case Sequence => (15, 115, 101)
    case Sid => (3, 115, 0)
    case Epoch => (12, 115, 109)
    case Marker => (6, 109, 114)
    case Raw => (3, 114, 0)
    case RawB64 => (7, 114, 54)
  }

  lemma NamePrint(k: Key)
    ensures var n := Ascii(Name(k));
      |n| == Print(k).0 && n[0] == Print(k).1 && (|n| > 5 ==> n[5] == Print(k).2)
  {
  }

  lemma NamesDiffer(a: Key, b: Key)
    requires a != b
    ensures Ascii(Name(a)) != Ascii(Name(b))
  {
    NamePrint(a);
    NamePrint(b);
  }

  // A field whose key is one of ours.
  datatype Entry = Entry(key: Key, value: Value)

  function FieldsFrom(es: seq<Entry>): (fs: seq<Field>)
    ensures |fs| == |es|
  {
    seq(|es|, i requires 0 <= i < |es| => Field(Ascii(Name(es[i].key)), es[i].value))
  }

  // The entry, if it is there, in front of the others.
  function Opt(present: bool, e: Entry, rest: seq<Entry>): seq<Entry> { if present then [e] + rest else rest }

  function OrZero(n: Option<int>): int { if n.Some? then n.value else 0 }

  function OrEmpty(s: Option<seq<Byte>>): seq<Byte> { if s.Some? then s.value else [] }

  function RawEntry(raw: seq<Byte>): Entry {
    if IsValidUtf8(raw) then Entry(Raw, Text(raw)) else Entry(RawB64, Text(Base64.Encode(raw)))
  }

  function EntriesOf(r: Record): (es: seq<Entry>)
    ensures es != []
  {
    [Entry(RecvMono, Num(r.recvMono)), Entry(RecvWall, Num(r.recvWall))] + LaterEntries(r)
  }

  function LaterEntries(r: Record): seq<Entry> {
    Opt(r.eventTime.Some?, Entry(EventTime, Num(OrZero(r.eventTime))),
    [Entry(SourceKey, Text(Ascii(WireName(r.source)))), Entry(Channel, Text(r.channel)), Entry(Ticker, Text(r.ticker))] +
    LastEntries(r))
  }

  function LastEntries(r: Record): seq<Entry> {
    Opt(r.sequence.Some?, Entry(Sequence, Num(OrZero(r.sequence))),
    Opt(r.sid.Some?, Entry(Sid, Num(OrZero(r.sid))),
    Opt(r.epoch != 0, Entry(Epoch, Num(r.epoch)),
    Opt(r.marker.Some?, Entry(Marker, Text(OrEmpty(r.marker))),
    [RawEntry(r.raw)]))))
  }

  // What RawLogWriter::write puts in the file.
  function Line(r: Record): seq<Byte> { EncodeObject(FieldsFrom(EntriesOf(r))) + [NEWLINE] }

  // ---------------------------------------------------------------- reading records

  const KEYS: seq<Key> := [RecvMono, RecvWall, EventTime, SourceKey, Channel, Ticker, Sequence, Sid, Epoch, Marker, Raw, RawB64]

  // Which of the keys a name is.
  function KeyAmong(name: seq<Byte>, ks: seq<Key>): Option<Key> {
    if ks == [] then None else if Ascii(Name(ks[0])) == name then Some(ks[0]) else KeyAmong(name, ks[1..])
  }

  function KeyOf(name: seq<Byte>): Option<Key> { KeyAmong(name, KEYS) }

  // The fields the reader asks for; it ignores all others.
  function EntriesFrom(fs: seq<Field>): seq<Entry> {
    if fs == [] then []
    else
      var k := KeyOf(fs[0].key);
      if k.None? then EntriesFrom(fs[1..]) else [Entry(k.value, fs[0].value)] + EntriesFrom(fs[1..])
  }

  function FindEntry(es: seq<Entry>, k: Key): Option<Value> {
    if es == [] then None else if es[0].key == k then Some(es[0].value) else FindEntry(es[1..], k)
  }

  lemma {:induction false} KeyFound(k: Key, ks: seq<Key>)
    requires k in ks
    ensures KeyAmong(Ascii(Name(k)), ks) == Some(k)
  {
    if ks[0] != k {
      KeyFound(k, ks[1..]);
      assert Ascii(Name(ks[0])) != Ascii(Name(k)) by { NamesDiffer(ks[0], k); }
    }
  }

  lemma KeyIs(k: Key)
    ensures KeyOf(Ascii(Name(k))) == Some(k)
  {
    assert k in KEYS;
    KeyFound(k, KEYS);
  }

  lemma {:induction false} EntriesRoundTrip(es: seq<Entry>)
    ensures EntriesFrom(FieldsFrom(es)) == es
  {
    if es != [] {
      EntriesRoundTrip(es[1..]);
      assert FieldsFrom(es)[1..] == FieldsFrom(es[1..]);
      KeyIs(es[0].key);
      assert [es[0]] + es[1..] == es;
    }
  }

  // Number and text lookups; a value of the wrong kind or out of range is not there.
  function IntAt(es: seq<Entry>, k: Key): Option<int> {
    var v := FindEntry(es, k);
    if v.Some? && v.value.Num? && Int64(v.value.n) then Some(v.value.n) else None
  }

  function UintAt(es: seq<Entry>, k: Key): Option<int> {
    var v := FindEntry(es, k);
    if v.Some? && v.value.Num? && Uint64(v.value.n) then Some(v.value.n) else None
  }

  function TextAt(es: seq<Entry>, k: Key): Option<seq<Byte>> {
    var v := FindEntry(es, k);
    if v.Some? && v.value.Text? then Some(v.value.s) else None
  }

  function RecordFrom(es: seq<Entry>): Record {
    var raw, b64 := TextAt(es, Raw), TextAt(es, RawB64);
    Record(
      OrZero(IntAt(es, RecvMono)), OrZero(IntAt(es, RecvWall)), IntAt(es, EventTime),
      SourceFromWire(OrEmpty(TextAt(es, SourceKey))), OrEmpty(TextAt(es, Channel)), OrEmpty(TextAt(es, Ticker)),
      UintAt(es, Sequence), UintAt(es, Sid), OrZero(UintAt(es, Epoch)) % 0x1_0000_0000, TextAt(es, Marker),
      if raw.Some? then raw.value else if b64.Some? then Base64.Decode(b64.value) else [])
  }

  // The reader's use of the JSON parser on one line without its newline. The parser
  // refuses a document that is not well-formed UTF-8.
  function DecodeLine(s: seq<Byte>): Option<Record> {
    var o := ReadObject(s);
    if !U.Strict(s) || o.None? || o.value.rest != [] then None else Some(RecordFrom(EntriesFrom(o.value.value)))
  }

  // ---------------------------------------------------------------- records round trip

  lemma FindFirst(e: Entry, rest: seq<Entry>, k: Key)
    ensures FindEntry([e] + rest, k) == if e.key == k then Some(e.value) else FindEntry(rest, k)
  {
    assert ([e] + rest)[1..] == rest;
  }

  lemma FindTwo(a: Entry, b: Entry, rest: seq<Entry>, k: Key)
    ensures FindEntry([a, b] + rest, k) == if a.key == k then Some(a.value) else if b.key == k then Some(b.value) else FindEntry(rest, k)
  {
    assert [a, b] + rest == [a] + ([b] + rest);
    FindFirst(a, [b] + rest, k);
    FindFirst(b, rest, k);
  }

  lemma FindThree(a: Entry, b: Entry, c: Entry, rest: seq<Entry>, k: Key)
    ensures FindEntry([a, b, c] + rest, k)
         == if a.key == k then Some(a.value) else if b.key == k then Some(b.value) else if c.key == k then Some(c.value) else FindEntry(rest, k)
  {
    assert [a, b, c] + rest == [a] + ([b, c] + rest);
    FindFirst(a, [b, c] + rest, k);
    FindTwo(b, c, rest, k);
  }

  lemma FindOpt(present: bool, e: Entry, rest: seq<Entry>, k: Key)
    ensures FindEntry(Opt(present, e, rest), k) == if present && e.key == k then Some(e.value) else FindEntry(rest, k)
  {
    FindFirst(e, rest, k);
  }

  // What the writer stored under a key.
  function Stored(r: Record, k: Key): Option<Value> {
    match k
    case RecvMono => Some(Num(r.recvMono))
    case RecvWall => Some(Num(r.recvWall))
    case EventTime => if r.eventTime.Some? then Some(Num(r.eventTime.value)) else None
    case SourceKey => Some(Text(Ascii(WireName(r.source))))
    case Channel => Some(Text(r.channel))
    case Ticker => Some(Text(r.ticker))
    case Sequence => if r.sequence.Some? then Some(Num(r.sequence.value)) else None
    case Sid => if r.sid.Some? then Some(Num(r.sid.value)) else None
    case Epoch => if r.epoch != 0 then Some(Num(r.epoch)) else None
    case Marker => if r.marker.Some? then Some(Text(r.marker.value)) else None
    case Raw => if IsValidUtf8(r.raw) then Some(Text(r.raw)) else None
    case RawB64 => if IsValidUtf8(r.raw) then None else Some(Text(Base64.Encode(r.raw)))
  }

  lemma FindLast(r: Record, k: Key)
    ensures FindEntry(LastEntries(r), k) == if k in {Sequence, Sid, Epoch, Marker, Raw, RawB64} then Stored(r, k) else None
  {
    var e4 := [RawEntry(r.raw)];
    var e3 := Opt(r.marker.Some?, Entry(Marker, Text(OrEmpty(r.marker))), e4);
    var e2 := Opt(r.epoch != 0, Entry(Epoch, Num(r.epoch)), e3);
    var e1 := Opt(r.sid.Some?, Entry(Sid, Num(OrZero(r.sid))), e2);
    FindOpt(r.sequence.Some?, Entry(Sequence, Num(OrZero(r.sequence))), e1, k);
    FindOpt(r.sid.Some?, Entry(Sid, Num(OrZero(r.sid))), e2, k);
    FindOpt(r.epoch != 0, Entry(Epoch, Num(r.epoch)), e3, k);
    FindOpt(r.marker.Some?, Entry(Marker, Text(OrEmpty(r.marker))), e4, k);
    assert [RawEntry(r.raw)][1..] == [];
  }

  lemma FindLater(r: Record, k: Key)
    ensures FindEntry(LaterEntries(r), k) == if k in {RecvMono, RecvWall} then None else Stored(r, k)
  {
    var s, c, t := Entry(SourceKey, Text(Ascii(WireName(r.source)))), Entry(Channel, Text(r.channel)), Entry(Ticker, Text(r.ticker));
    var last := LastEntries(r);
    FindLast(r, k);
    FindOpt(r.eventTime.Some?, Entry(EventTime, Num(OrZero(r.eventTime))), [s, c, t] + last, k);
    FindThree(s, c, t, last, k);
  }

  lemma FindStored(r: Record, k: Key)
    ensures FindEntry(EntriesOf(r), k) == Stored(r, k)
  {
    FindLater(r, k);
    FindTwo(Entry(RecvMono, Num(r.recvMono)), Entry(RecvWall, Num(r.recvWall)), LaterEntries(r), k);
  }

  lemma NumbersBack(r: Record, es: seq<Entry>)
    requires r.InRange() && es == EntriesOf(r)
    ensures IntAt(es, RecvMono) == Some(r.recvMono) && IntAt(es, RecvWall) == Some(r.recvWall) && IntAt(es, EventTime) == r.eventTime
    ensures UintAt(es, Sequence) == r.sequence && UintAt(es, Sid) == r.sid && OrZero(UintAt(es, Epoch)) == r.epoch
  {
    FindStored(r, RecvMono);
    FindStored(r, RecvWall);
    FindStored(r, EventTime);
    FindStored(r, Sequence);
    FindStored(r, Sid);
    FindStored(r, Epoch);
  }

  lemma TextsBack(r: Record, es: seq<Entry>)
    requires es == EntriesOf(r)
    ensures SourceFromWire(OrEmpty(TextAt(es, SourceKey))) == r.source
    ensures TextAt(es, Channel) == Some(r.channel) && TextAt(es, Ticker) == Some(r.ticker) && TextAt(es, Marker) == r.marker
  {
    FindStored(r, SourceKey);
    FindStored(r, Channel);
    FindStored(r, Ticker);
    FindStored(r, Marker);
    SourceRoundTrip(r.source);
  }

  lemma PayloadBack(r: Record, es: seq<Entry>)
    requires es == EntriesOf(r)
    ensures TextAt(es, Raw) == if IsValidUtf8(r.raw) then Some(r.raw) else None
    ensures !IsValidUtf8(r.raw) ==> TextAt(es, RawB64) == Some(Base64.Encode(r.raw)) && Base64.Decode(Base64.Encode(r.raw)) == r.raw
  {
    FindStored(r, Raw);
    FindStored(r, RawB64);
    Base64.RoundTrip(r.raw);
  }

  lemma Assembled(r: Record, es: seq<Entry>)
    requires 0 <= r.epoch < 0x1_0000_0000
    requires IntAt(es, RecvMono) == Some(r.recvMono) && IntAt(es, RecvWall) == Some(r.recvWall) && IntAt(es, EventTime) == r.eventTime
    requires UintAt(es, Sequence) == r.sequence && UintAt(es, Sid) == r.sid && OrZero(UintAt(es, Epoch)) == r.epoch
    requires SourceFromWire(OrEmpty(TextAt(es, SourceKey))) == r.source
    requires TextAt(es, Channel) == Some(r.channel) && TextAt(es, Ticker) == Some(r.ticker) && TextAt(es, Marker) == r.marker
    requires TextAt(es, Raw) == Some(r.raw) || (TextAt(es, Raw).None? && TextAt(es, RawB64).Some? && Base64.Decode(TextAt(es, RawB64).value) == r.raw)
    ensures RecordFrom(es) == r
  {
  }

  lemma RecordRoundTrip(r: Record, es: seq<Entry>)
    requires r.InRange() && es == EntriesOf(r)
    ensures RecordFrom(es) == r
  {
    NumbersBack(r, es);
    TextsBack(r, es);
    PayloadBack(r, es);
    Assembled(r, es);
  }

  // ---------------------------------------------------------------- UTF-8

  // What the parser needs of a record: its texts are well-formed UTF-8, and so is its
  // payload if the writer's own, laxer check let it through as text.
  predicate Readable(r: Record) {
    && U.Strict(r.channel) && U.Strict(r.ticker) && (r.marker.Some? ==> U.Strict(r.marker.value))
    && (IsValidUtf8(r.raw) ==> U.Strict(r.raw))
  }

  predicate StrictField(f: Field) { U.Strict(f.key) && (f.value.Text? ==> U.Strict(f.value.s)) }

  lemma NumberAscii(n: int)
    ensures U.Ascii(ToString(n))
  {
  }

  lemma ValueUtf8(v: Value)
    ensures U.Strict(EncodeValue(v)) <==> (v.Text? ==> U.Strict(v.s))
    ensures U.Boundary(EncodeValue(v))
  {
    if v.Text? {
      QuotedStrict(v.s);
    } else {
      NumberAscii(v.n);
      U.AsciiStrict(ToString(v.n));
    }
  }

  lemma FieldUtf8(f: Field)
    ensures U.Strict(EncodeField(f)) <==> StrictField(f)
  {
    QuotedStrict(f.key);
    ValueUtf8(f.value);
    U.AsciiAfter(Escape(f.key), [COLON]);
    U.StrictSplit(Escape(f.key) + [COLON], EncodeValue(f.value));
  }

  lemma {:induction false} JoinUtf8(fs: seq<Field>)
    requires fs != []
    ensures U.Strict(Join(fs)) <==> forall i | 0 <= i < |fs| :: StrictField(fs[i])
  {
    FieldUtf8(fs[0]);
    if |fs| > 1 {
      JoinUtf8(fs[1..]);
      U.AsciiBefore([COMMA], Join(fs[1..]));
      U.StrictSplit(EncodeField(fs[0]), [COMMA] + Join(fs[1..]));
      assert forall i | 0 < i < |fs| :: fs[i] == fs[1..][i - 1];
    }
  }

  lemma ObjectUtf8(fs: seq<Field>)
    requires fs != []
    ensures U.Strict(EncodeObject(fs)) <==> forall i | 0 <= i < |fs| :: StrictField(fs[i])
  {
    JoinUtf8(fs);
    U.AsciiBefore([OPEN], Join(fs));
    U.AsciiAfter([OPEN] + Join(fs), [CLOSE]);
  }

  predicate StrictEntry(e: Entry) { e.value.Text? ==> U.Strict(e.value.s) }

  predicate AllStrict(es: seq<Entry>) { forall i | 0 <= i < |es| :: StrictEntry(es[i]) }

  lemma AllStrictAdd(a: seq<Entry>, b: seq<Entry>)
    ensures AllStrict(a + b) <==> AllStrict(a) && AllStrict(b)
  {
    assert forall i | 0 <= i < |a| :: (a + b)[i] == a[i];
    assert forall i | 0 <= i < |b| :: (a + b)[|a| + i] == b[i];
  }

  lemma AllStrictOpt(present: bool, e: Entry, rest: seq<Entry>)
    ensures AllStrict(Opt(present, e, rest)) <==> (present ==> StrictEntry(e)) && AllStrict(rest)
  {
    AllStrictAdd([e], rest);
    assert AllStrict([e]) <==> StrictEntry([e][0]);
  }

  lemma RawUtf8(raw: seq<Byte>)
    ensures StrictEntry(RawEntry(raw)) <==> (IsValidUtf8(raw) ==> U.Strict(raw))
  {
    if !IsValidUtf8(raw) {
      Base64.Plain(raw);
      U.AsciiStrict(Base64.Encode(raw));
    }
  }

  lemma LastUtf8(r: Record)
    ensures AllStrict(LastEntries(r)) <==> (r.marker.Some? ==> U.Strict(r.marker.value)) && (IsValidUtf8(r.raw) ==> U.Strict(r.raw))
  {
    var e4 := [RawEntry(r.raw)];
    var e3 := Opt(r.marker.Some?, Entry(Marker, Text(OrEmpty(r.marker))), e4);
    var e2 := Opt(r.epoch != 0, Entry(Epoch, Num(r.epoch)), e3);
    var e1 := Opt(r.sid.Some?, Entry(Sid, Num(OrZero(r.sid))), e2);
    AllStrictOpt(r.sequence.Some?, Entry(Sequence, Num(OrZero(r.sequence))), e1);
    AllStrictOpt(r.sid.Some?, Entry(Sid, Num(OrZero(r.sid))), e2);
    AllStrictOpt(r.epoch != 0, Entry(Epoch, Num(r.epoch)), e3);
    AllStrictOpt(r.marker.Some?, Entry(Marker, Text(OrEmpty(r.marker))), e4);
    RawUtf8(r.raw);
    assert AllStrict(e4) <==> StrictEntry(e4[0]);
  }

  lemma EntriesUtf8(r: Record)
    ensures AllStrict(EntriesOf(r)) <==> Readable(r)
  {
    var a, b := Entry(RecvMono, Num(r.recvMono)), Entry(RecvWall, Num(r.recvWall));
    var s, c, t := Entry(SourceKey, Text(Ascii(WireName(r.source)))), Entry(Channel, Text(r.channel)), Entry(Ticker, Text(r.ticker));
    AllStrictAdd([a, b], LaterEntries(r));
    AllStrictOpt(r.eventTime.Some?, Entry(EventTime, Num(OrZero(r.eventTime))), [s, c, t] + LastEntries(r));
    AllStrictAdd([s, c, t], LastEntries(r));
    LastUtf8(r);
    U.AsciiStrict(Ascii(WireName(r.source)));
    assert AllStrict([s, c, t]) <==> StrictEntry([s, c, t][0]) && StrictEntry([s, c, t][1]) && StrictEntry([s, c, t][2]);
  }

  lemma LineUtf8(r: Record)
    ensures U.Strict(EncodeObject(FieldsFrom(EntriesOf(r)))) <==> Readable(r)
  {
    var es := EntriesOf(r);
    ObjectUtf8(FieldsFrom(es));
    forall i | 0 <= i < |es| ensures StrictField(FieldsFrom(es)[i]) <==> StrictEntry(es[i]) { U.AsciiStrict(Ascii(Name(es[i].key))); }
    EntriesUtf8(r);
  }

  /** A written line is read back, field by field and with the payload byte for byte,
      whether it was stored as text or in base64, if and only if the record's texts are
      well-formed UTF-8; otherwise the line is refused. */
  lemma LineRoundTrip(r: Record)
    requires r.InRange()
    ensures DecodeLine(Line(r)[..|Line(r)| - 1]) == if Readable(r) then Some(r) else None
  {
    var fs := FieldsFrom(EntriesOf(r));
    ObjectRoundTrip(fs, []);
    assert EncodeObject(fs) + [] == EncodeObject(fs) == Line(r)[..|Line(r)| - 1];
    LineUtf8(r);
    EntriesRoundTrip(EntriesOf(r));
    RecordRoundTrip(r, EntriesOf(r));
  }

  /** The writer's check passes an overlong form and a surrogate as text, although neither
      is well-formed: such a payload would be safe only in base64. */
  lemma LaxCheckPasses(raw: seq<Byte>)
    requires raw == [0xC0, 0x80] || raw == [0xED, 0xA0, 0x80]
    ensures IsValidUtf8(raw) && !U.Strict(raw)
  {
    assert Continues(raw, 0, |raw| - 1);
  }

  lemma {:induction false} PlainEscape(s: seq<Byte>)
    requires forall i | 0 <= i < |s| :: s[i] >= 32 && s[i] != QUOTE && s[i] != BACKSLASH
    ensures EscapeAll(s) == s
  {
    if s != [] {
      PlainEscape(s[1..]);
      assert [s[0]] + s[1..] == s;
    }
  }

  /** Base64 text is written between quotes as it is: escaping would not change it. */
  lemma Base64NeedsNoEscape(raw: seq<Byte>)
    ensures Escape(Base64.Encode(raw)) == [QUOTE] + Base64.Encode(raw) + [QUOTE]
  {
    Base64.Plain(raw);
    PlainEscape(Base64.Encode(raw));
  }

  // ---------------------------------------------------------------- one line each

  predicate Printable(s: seq<Byte>) { forall i | 0 <= i < |s| :: s[i] >= 32 }

  lemma FieldPrintable(f: Field)
    ensures Printable(EncodeField(f))
  {
    EscapeIsPrintable(f.key);
    if f.value.Text? { EscapeIsPrintable(f.value.s); }
    assert Printable(EncodeValue(f.value));
  }

  lemma {:induction false} JoinPrintable(fs: seq<Field>)
    requires fs != []
    ensures Printable(Join(fs))
  {
    FieldPrintable(fs[0]);
    if |fs| > 1 { JoinPrintable(fs[1..]); }
  }

  /** A record is one line: its only line break is its last byte. */
  lemma LineIsOneLine(r: Record)
    ensures var s := Line(r); |s| > 1 && s[|s| - 1] == NEWLINE && Printable(s[..|s| - 1])
  {
    var fs := FieldsFrom(EntriesOf(r));
    JoinPrintable(fs);
  }

  // ---------------------------------------------------------------- a line with something in front

  predicate Suffix(s: seq<Byte>, b: seq<Byte>) { |b| <= |s| && s[|s| - |b|..] == b }

  // How every line begins: an open brace, a quote, and the first letter of the first key.
  predicate Opens(b: seq<Byte>) { |b| >= 3 && b[0] == OPEN && b[1] == QUOTE && b[2] == 114 }

  lemma Shorter(s: seq<Byte>, b: seq<Byte>, n: nat)
    requires Suffix(s, b) && n <= |s| - |b|
    ensures Suffix(s[n..], b)
  {
  }

  // Where the end of s begins, its bytes are those of b.
  lemma Within(s: seq<Byte>, b: seq<Byte>, i: nat)
    requires Suffix(s, b) && |s| - |b| <= i < |s|
    ensures s[i] == b[i - (|s| - |b|)]
  {
    assert s[|s| - |b|..][i - (|s| - |b|)] == s[i];
  }

  // What a reader leaves of a text that ends in a line: the whole line, or what follows
  // the first quote of it.
  predicate Leaves(rest: seq<Byte>, b: seq<Byte>) { Suffix(rest, b) || (|b| >= 2 && rest == b[2..]) }

  lemma {:induction false} CharsLeave(s: seq<Byte>, b: seq<Byte>)
    requires Suffix(s, b) && Opens(b) && Chars(s).Some?
    ensures Leaves(Chars(s).value.rest, b)
    decreases |s|
  {
    if |s| == |b| {
      assert s == b && Chars(s[1..]) == Some(Taken([], s[2..]));
    } else if s[0] == QUOTE {
      Shorter(s, b, 1);
    } else if s[0] != BACKSLASH {
      Shorter(s, b, 1);
      CharsLeave(s[1..], b);
    } else {
      Within(s, b, |s| - |b|);
      if Short(s[1]) >= 0 {
        Shorter(s, b, 2);
        CharsLeave(s[2..], b);
      } else {
        Shorter(s, b, 6);
        CharsLeave(s[6..], b);
      }
    }
  }

  lemma UnquoteLeaves(s: seq<Byte>, b: seq<Byte>)
    requires Suffix(s, b) && Opens(b) && Unquote(s).Some?
    ensures Leaves(Unquote(s).value.rest, b)
  {
    assert |s| == |b| ==> s == b;
    Shorter(s, b, 1);
    CharsLeave(s[1..], b);
  }

  lemma {:induction false} NumberStops(s: seq<Byte>, b: seq<Byte>)
    requires Suffix(s, b) && Opens(b)
    ensures NumberLen(s) <= |s| - |b|
    decreases |s|
  {
    if |s| == |b| {
      assert s == b;
    } else if NumberByte(s[0]) {
      Shorter(s, b, 1);
      NumberStops(s[1..], b);
    }
  }

  lemma ValueLeaves(s: seq<Byte>, b: seq<Byte>)
    requires Suffix(s, b) && Opens(b) && ReadValue(s).Some?
    ensures Leaves(ReadValue(s).value.rest, b)
  {
    if s != [] && s[0] == QUOTE {
      UnquoteLeaves(s, b);
    } else {
      NumberStops(s, b);
      Shorter(s, b, NumberLen(s));
    }
  }

  // After punctuation, the line is still whole.
  lemma Punctuated(s: seq<Byte>, b: seq<Byte>)
    requires Leaves(s, b) && Opens(b) && s != [] && (s[0] == COLON || s[0] == COMMA || s[0] == CLOSE)
    ensures Suffix(s[1..], b)
  {
    assert s != b[2..] && (|s| == |b| ==> s == b);
    Shorter(s, b, 1);
  }

  lemma FieldLeaves(s: seq<Byte>, b: seq<Byte>)
    requires Suffix(s, b) && Opens(b) && ReadField(s).Some?
    ensures Leaves(ReadField(s).value.rest, b)
  {
    UnquoteLeaves(s, b);
    Punctuated(Unquote(s).value.rest, b);
    ValueLeaves(Unquote(s).value.rest[1..], b);
  }

  lemma {:induction false} MembersLeave(s: seq<Byte>, b: seq<Byte>)
    requires Suffix(s, b) && Opens(b) && ReadMembers(s).Some?
    ensures Suffix(ReadMembers(s).value.rest, b)
    decreases |s|
  {
    var rest := ReadField(s).value.rest;
    FieldLeaves(s, b);
    Punctuated(rest, b);
    if rest[0] != CLOSE { MembersLeave(rest[1..], b); }
  }

  lemma LineOpens(r: Record)
    ensures Opens(Line(r)[..|Line(r)| - 1])
  {
    var fs := FieldsFrom(EntriesOf(r));
    assert fs[0].key == Ascii("recv_mono_ns") && fs[0].key[0] == 114;
    assert EscapeAll(fs[0].key)[0] == 114;
    assert Join(fs)[0] == QUOTE && Join(fs)[1] == 114;
  }

  lemma SpoiledText(front: seq<Byte>, b: seq<Byte>)
    requires front != [] && Opens(b)
    ensures DecodeLine(front + b) == None
  {
    var s := front + b;
    assert Suffix(s, b);
    Shorter(s, b, 1);
    if ReadObject(s).Some? { MembersLeave(s[1..], b); }
  }

  lemma WithoutLast(front: seq<Byte>, line: seq<Byte>, l: seq<Byte>)
    requires line != [] && l == front + line
    ensures l != [] && l[..|l| - 1] == front + line[..|line| - 1]
  {
  }

  lemma SpoiledAs(front: seq<Byte>, b: seq<Byte>, s: seq<Byte>)
    requires front != [] && Opens(b) && s == front + b
    ensures DecodeLine(s) == None
  {
    SpoiledText(front, b);
  }

  /** A line with anything in front of it, such as what is left of a cut one, is not a
      record: the reader refuses it. */
  lemma SpoiledLine(front: seq<Byte>, r: Record, l: seq<Byte>)
    requires front != [] && l == front + Line(r)
    ensures l != [] && DecodeLine(l[..|l| - 1]) == None
  {
    WithoutLast(front, Line(r), l);
    LineOpens(r);
    SpoiledAs(front, Line(r)[..|Line(r)| - 1], l[..|l| - 1]);
  }
}
