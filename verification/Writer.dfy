/** The line builder of src/storage.cpp, text by text as it appends them. */
module Writer {

  import opened Common
  import opened Decimal
  import opened Json
  import opened Records
  import Base64

  // What stands in the line once these entries have been written.
  ghost function Begun(es: seq<Entry>): seq<Byte>
    requires es != []
  {
    [OPEN] + Join(FieldsFrom(es))
  }

  ghost predicate Unescaped(s: seq<Byte>) { forall i | 0 <= i < |s| :: s[i] >= 32 && s[i] != QUOTE && s[i] != BACKSLASH }

  lemma NameUnescaped(k: Key)
    ensures Unescaped(Ascii(Name(k)))
  {
    match k
    case RecvMono | RecvWall | EventTime => TimeUnescaped(k);
    case Sequence | Sid | Epoch => StreamUnescaped(k);
    case _ =>
  }

  lemma TimeUnescaped(k: Key)
    requires k in {RecvMono, RecvWall, EventTime}
    ensures Unescaped(Ascii(Name(k)))
  {
  }

  lemma StreamUnescaped(k: Key)
    requires k in {Sequence, Sid, Epoch}
    ensures Unescaped(Ascii(Name(k)))
  {
  }

  lemma SourceUnescaped(s: Source)
    ensures Unescaped(Ascii(WireName(s)))
  {
  }

  // The key between quotes, after a comma and before a colon.
  ghost function KeyText(k: Key): string {
    match k
    case RecvMono => ",\"recv_mono_ns\":"
    case RecvWall => ",\"recv_wall_ns\":"
    case EventTime => ",\"source_event_time_ms\":"
    case SourceKey => ",\"source\":"
    case Channel => ",\"channel\":"
    case Ticker => ",\"source_ticker\":"
    case Sequence => ",\"source_sequence\":"
    case Sid => ",\"sid\":"
    case Epoch => ",\"stream_epoch\":"
    case Marker => ",\"marker\":"
    case Raw => ",\"raw\":"
    case RawB64 => ",\"raw_b64\":"
  }

  lemma KeyTextIs(k: Key)
    ensures KeyText(k) == ",\"" + Name(k) + "\":"
  {
    match k
    case RecvMono | RecvWall | EventTime => TimeText(k);
    case Sequence | Sid | Epoch => StreamText(k);
    case _ => NameText(k);
  }

  lemma TimeText(k: Key)
    requires k in {RecvMono, RecvWall, EventTime}
    ensures KeyText(k) == ",\"" + Name(k) + "\":"
  {
  }

  lemma StreamText(k: Key)
    requires k in {Sequence, Sid, Epoch}
    ensures KeyText(k) == ",\"" + Name(k) + "\":"
  {
  }

  lemma NameText(k: Key)
    requires k in {SourceKey, Channel, Ticker, Marker, Raw, RawB64}
    ensures KeyText(k) == ",\"" + Name(k) + "\":"
  {
  }

  lemma AsciiJoin(a: string, b: string)
    ensures Ascii(a + b) == Ascii(a) + Ascii(b)
  {
  }

  lemma KeyBytes(k: Key)
    ensures Ascii(KeyText(k)) == [COMMA] + ([QUOTE] + Ascii(Name(k)) + [QUOTE]) + [COLON]
  {
    KeyTextIs(k);
    AsciiJoin(",\"" + Name(k), "\":");
    AsciiJoin(",\"", Name(k));
    assert Ascii(",\"") == [COMMA, QUOTE] && Ascii("\":") == [QUOTE, COLON];
  }

  lemma Quoted(s: seq<Byte>)
    requires Unescaped(s)
    ensures Escape(s) == [QUOTE] + s + [QUOTE]
  {
    PlainEscape(s);
  }

  lemma {:induction false} JoinSnoc(fs: seq<Field>, f: Field)
    requires fs != []
    ensures Join(fs + [f]) == Join(fs) + ([COMMA] + EncodeField(f))
  {
    if |fs| == 1 {
      assert (fs + [f])[1..] == [f];
    } else {
      JoinSnoc(fs[1..], f);
      assert (fs + [f])[1..] == fs[1..] + [f];
      Regroup(EncodeField(fs[0]), [COMMA], Join(fs[1..]), [COMMA] + EncodeField(f));
    }
  }

  lemma Regroup(a: seq<Byte>, b: seq<Byte>, c: seq<Byte>, d: seq<Byte>)
    ensures a + (b + (c + d)) == (a + (b + c)) + d
  {
  }

  lemma FieldText(k: Key, v: Value)
    ensures [COMMA] + EncodeField(Field(Ascii(Name(k)), v)) == Ascii(KeyText(k)) + EncodeValue(v)
  {
    NameUnescaped(k);
    Quoted(Ascii(Name(k)));
    KeyBytes(k);
    FieldShapes(Escape(Ascii(Name(k))), EncodeValue(v));
  }

  lemma FieldShapes(key: seq<Byte>, v: seq<Byte>)
    ensures [COMMA] + (key + [COLON] + v) == ([COMMA] + key + [COLON]) + v
  {
  }

  lemma Appends(es: seq<Entry>, k: Key, v: Value)
    requires es != []
    ensures Begun(es + [Entry(k, v)]) == Begun(es) + (Ascii(KeyText(k)) + EncodeValue(v))
  {
    var f := Field(Ascii(Name(k)), v);
    assert FieldsFrom(es + [Entry(k, v)]) == FieldsFrom(es) + [f];
    JoinSnoc(FieldsFrom(es), f);
    FieldText(k, v);
    Assoc([OPEN], Join(FieldsFrom(es)), Ascii(KeyText(k)) + EncodeValue(v));
  }

  method AppendNumber(line: seq<Byte>, text: string, n: int, ghost es: seq<Entry>, ghost k: Key) returns (out: seq<Byte>)
    requires es != [] && line == Begun(es) && text == KeyText(k)
    ensures out == Begun(es + [Entry(k, Num(n))])
  {
    out := line + Ascii(text);
    out := out + ToString(n);
    Appends(es, k, Num(n));
    Assoc(line, Ascii(text), ToString(n));
  }

  method AppendText(line: seq<Byte>, text: string, s: seq<Byte>, ghost es: seq<Entry>, ghost k: Key) returns (out: seq<Byte>)
    requires es != [] && line == Begun(es) && text == KeyText(k)
    ensures out == Begun(es + [Entry(k, Text(s))])
  {
    out := line + Ascii(text);
    out := EscapeLoop(s, out);
    Appends(es, k, Text(s));
    Assoc(line, Ascii(text), Escape(s));
  }

  // A value that needs no escaping, quote by quote.
  lemma AppendsPlain(line: seq<Byte>, es: seq<Entry>, k: Key, s: seq<Byte>)
    requires es != [] && line == Begun(es) && Escape(s) == [QUOTE] + s + [QUOTE]
    ensures ((line + (Ascii(KeyText(k)) + [QUOTE])) + s) + [QUOTE] == Begun(es + [Entry(k, Text(s))])
  {
    Appends(es, k, Text(s));
    var t := Ascii(KeyText(k));
    assert ((line + (t + [QUOTE])) + s) + [QUOTE] == line + (t + ([QUOTE] + s + [QUOTE]));
  }

  ghost function One(present: bool, e: Entry): seq<Entry> { if present then [e] else [] }

  ghost function Head(r: Record): seq<Entry> {
    [Entry(RecvMono, Num(r.recvMono)), Entry(RecvWall, Num(r.recvWall))] + One(r.eventTime.Some?, Entry(EventTime, Num(OrZero(r.eventTime))))
    + NameEntries(r)
  }

  ghost function NameEntries(r: Record): seq<Entry> {
    [Entry(SourceKey, Text(Ascii(WireName(r.source)))), Entry(Channel, Text(r.channel)), Entry(Ticker, Text(r.ticker))]
  }

  ghost function Middle(r: Record): seq<Entry> {
    One(r.sequence.Some?, Entry(Sequence, Num(OrZero(r.sequence)))) + One(r.sid.Some?, Entry(Sid, Num(OrZero(r.sid))))
    + One(r.epoch != 0, Entry(Epoch, Num(r.epoch))) + One(r.marker.Some?, Entry(Marker, Text(OrEmpty(r.marker))))
  }

  lemma OptIs(present: bool, e: Entry, rest: seq<Entry>)
    ensures Opt(present, e, rest) == One(present, e) + rest
  {
    assert [] + rest == rest;
  }

  lemma FourMore(a: seq<Entry>, b: seq<Entry>, c: seq<Entry>, d: seq<Entry>, z: seq<Entry>)
    ensures a + (b + (c + (d + z))) == (a + b + c + d) + z
    ensures z + a + b + c + d == z + (a + b + c + d)
  {
  }

  lemma LastInParts(r: Record)
    ensures LastEntries(r) == Middle(r) + [RawEntry(r.raw)]
  {
    var a, b := Entry(Sequence, Num(OrZero(r.sequence))), Entry(Sid, Num(OrZero(r.sid)));
    var c, d := Entry(Epoch, Num(r.epoch)), Entry(Marker, Text(OrEmpty(r.marker)));
    var z := [RawEntry(r.raw)];
    OptIs(r.marker.Some?, d, z);
    var three := Opt(r.marker.Some?, d, z);
    OptIs(r.epoch != 0, c, three);
    var two := Opt(r.epoch != 0, c, three);
    OptIs(r.sid.Some?, b, two);
    OptIs(r.sequence.Some?, a, Opt(r.sid.Some?, b, two));
    FourMore(One(r.sequence.Some?, a), One(r.sid.Some?, b), One(r.epoch != 0, c), One(r.marker.Some?, d), z);
  }

  lemma HeadFirst(a: seq<Entry>, o: seq<Entry>, n: seq<Entry>, l: seq<Entry>, z: seq<Entry>)
    ensures a + (o + (n + (l + z))) == ((a + o + n) + l) + z
  {
  }

  lemma InParts(r: Record)
    ensures EntriesOf(r) == Head(r) + Middle(r) + [RawEntry(r.raw)]
  {
    LastInParts(r);
    var t, names := Entry(EventTime, Num(OrZero(r.eventTime))), NameEntries(r);
    OptIs(r.eventTime.Some?, t, names + LastEntries(r));
    HeadFirst([Entry(RecvMono, Num(r.recvMono)), Entry(RecvWall, Num(r.recvWall))], One(r.eventTime.Some?, t), names, Middle(r), [RawEntry(r.raw)]);
  }

  method BuildHead(r: Record) returns (line: seq<Byte>)
    ensures line == Begun(Head(r))
  {
    ghost var es := [Entry(RecvMono, Num(r.recvMono))];
    line := BuildStart(r.recvMono);
    line := AppendNumber(line, ",\"recv_wall_ns\":", r.recvWall, es, RecvWall);
    es := es + [Entry(RecvWall, Num(r.recvWall))];
    if r.eventTime.Some? {
      line := AppendNumber(line, ",\"source_event_time_ms\":", r.eventTime.value, es, EventTime);
      es := es + [Entry(EventTime, Num(r.eventTime.value))];
    }
    line := BuildNames(r, line, es);
    assert Head(r) == es + NameEntries(r);
  }

  method BuildStart(n: int) returns (line: seq<Byte>)
    ensures line == Begun([Entry(RecvMono, Num(n))])
  {
    Starts(n);
    line := Ascii("{\"recv_mono_ns\":");
    line := line + ToString(n);
  }

  lemma StartText()
    ensures "{\"recv_mono_ns\":" == "{\"" + "recv_mono_ns" + "\":"
  {
  }

  lemma StartBytes(name: string, text: string)
    requires text == "{\"" + name + "\":"
    ensures Ascii(text) == [OPEN, QUOTE] + Ascii(name) + [QUOTE, COLON]
  {
    AsciiJoin("{\"" + name, "\":");
    AsciiJoin("{\"", name);
    assert Ascii("{\"") == [OPEN, QUOTE] && Ascii("\":") == [QUOTE, COLON];
  }

  lemma Starts(n: int)
    ensures Ascii("{\"recv_mono_ns\":") + ToString(n) == Begun([Entry(RecvMono, Num(n))])
  {
    NameUnescaped(RecvMono);
    Quoted(Ascii(Name(RecvMono)));
    StartText();
    StartBytes(Name(RecvMono), "{\"recv_mono_ns\":");
    StartShape(Ascii(Name(RecvMono)), ToString(n));
  }

  lemma StartShape(key: seq<Byte>, v: seq<Byte>)
    ensures ([OPEN, QUOTE] + key + [QUOTE, COLON]) + v == [OPEN] + (([QUOTE] + key + [QUOTE]) + [COLON] + v)
  {
  }

  lemma SourceText()
    ensures Ascii(",\"source\":\"") == Ascii(KeyText(SourceKey)) + [QUOTE]
  {
    assert ",\"source\":\"" == KeyText(SourceKey) + "\"";
    AsciiJoin(KeyText(SourceKey), "\"");
    assert Ascii("\"") == [QUOTE];
  }

  lemma ChannelText()
    ensures Ascii("\",\"channel\":") == [QUOTE] + Ascii(KeyText(Channel))
  {
    assert "\",\"channel\":" == "\"" + KeyText(Channel);
    AsciiJoin("\"", KeyText(Channel));
    assert Ascii("\"") == [QUOTE];
  }

  // The source name goes between quotes written with the keys around it.
  method BuildSource(r: Record, line: seq<Byte>, ghost es: seq<Entry>, ghost named: seq<Entry>) returns (out: seq<Byte>)
    requires es != [] && line == Begun(es) && named == es + [Entry(SourceKey, Text(Ascii(WireName(r.source))))]
    ensures out == Begun(named) + Ascii(KeyText(Channel))
  {
    SourceUnescaped(r.source);
    Quoted(Ascii(WireName(r.source)));
    AppendsPlain(line, es, SourceKey, Ascii(WireName(r.source)));
    SourceText();
    ChannelText();
    out := line + Ascii(",\"source\":\"");
    out := out + Ascii(WireName(r.source));
    Assoc(out, [QUOTE], Ascii(KeyText(Channel)));
    out := out + Ascii("\",\"channel\":");
  }

  method BuildNames(r: Record, line: seq<Byte>, ghost es: seq<Entry>) returns (out: seq<Byte>)
    requires es != [] && line == Begun(es)
    ensures out == Begun(es + NameEntries(r))
  {
    ghost var es1 := es + [Entry(SourceKey, Text(Ascii(WireName(r.source))))];
    out := BuildSource(r, line, es, es1);
    Appends(es1, Channel, Text(r.channel));
    Assoc(Begun(es1), Ascii(KeyText(Channel)), Escape(r.channel));
    out := EscapeLoop(r.channel, out);
    ghost var es2 := es1 + [Entry(Channel, Text(r.channel))];
    out := AppendText(out, ",\"source_ticker\":", r.ticker, es2, Ticker);
    assert es2 + [Entry(Ticker, Text(r.ticker))] == es + NameEntries(r);
  }

  method BuildMiddle(r: Record, line: seq<Byte>, ghost before: seq<Entry>) returns (out: seq<Byte>)
    requires before != [] && line == Begun(before)
    ensures out == Begun(before + Middle(r))
  {
    out := line;
    ghost var a, b := One(r.sequence.Some?, Entry(Sequence, Num(OrZero(r.sequence)))), One(r.sid.Some?, Entry(Sid, Num(OrZero(r.sid))));
    ghost var c, d := One(r.epoch != 0, Entry(Epoch, Num(r.epoch))), One(r.marker.Some?, Entry(Marker, Text(OrEmpty(r.marker))));
    FourMore(a, b, c, d, before);
    Nothing(before);
    if r.sequence.Some? { out := AppendNumber(out, ",\"source_sequence\":", r.sequence.value, before, Sequence); }
    Nothing(before + a);
    if r.sid.Some? { out := AppendNumber(out, ",\"sid\":", r.sid.value, before + a, Sid); }
    Nothing(before + a + b);
    if r.epoch != 0 { out := AppendNumber(out, ",\"stream_epoch\":", r.epoch, before + a + b, Epoch); }
    Nothing(before + a + b + c);
    if r.marker.Some? { out := AppendText(out, ",\"marker\":", r.marker.value, before + a + b + c, Marker); }
  }

  lemma Nothing(es: seq<Entry>)
    ensures es + [] == es
  {
  }

  lemma RawB64Text()
    ensures Ascii(",\"raw_b64\":\"") == Ascii(KeyText(RawB64)) + [QUOTE]
  {
    assert ",\"raw_b64\":\"" == KeyText(RawB64) + "\"";
    AsciiJoin(KeyText(RawB64), "\"");
    assert Ascii("\"") == [QUOTE];
  }

  // The payload as text, or in base64 between quotes.
  method BuildRaw(raw: seq<Byte>, line: seq<Byte>, ghost es: seq<Entry>) returns (out: seq<Byte>)
    requires es != [] && line == Begun(es)
    ensures out == Begun(es + [RawEntry(raw)])
  {
    var ok := CheckUtf8(raw);
    if ok {
      out := AppendText(line, ",\"raw\":", raw, es, Raw);
    } else {
      var b64 := Base64.EncodeLoop(raw);
      Base64NeedsNoEscape(raw);
      AppendsPlain(line, es, RawB64, b64);
      RawB64Text();
      out := line + Ascii(",\"raw_b64\":\"");
      out := out + b64;
      out := out + [QUOTE];
    }
  }

  /** The texts the source appends, in its order, make the line. */
  method BuildLine(r: Record) returns (line: seq<Byte>)
    ensures line == Line(r)
  {
    line := BuildHead(r);
    line := BuildMiddle(r, line, Head(r));
    line := BuildRaw(r.raw, line, Head(r) + Middle(r));
    InParts(r);
    assert Ascii("}\n") == [CLOSE, NEWLINE];
    line := line + Ascii("}\n");
  }
}
