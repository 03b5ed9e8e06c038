/** What the reader of src/storage.cpp takes from any object, written by it or not. */
module Reader {

  import opened Common
  import opened Records
  import Base64
  import U = Utf8

  // The first member of this name.
  function Member(fs: seq<Field>, name: string): Option<Value> {
    if fs == [] then None else if fs[0].key == Ascii(name) then Some(fs[0].value) else Member(fs[1..], name)
  }

  // A member of the wrong kind, or out of range, is as good as absent.
  function Signed(v: Option<Value>): Option<int> {
    if v.Some? && v.value.Num? && -0x8000_0000_0000_0000 <= v.value.n <= 0x7fff_ffff_ffff_ffff then Some(v.value.n) else None
  }

  function Unsigned(v: Option<Value>): Option<int> {
    if v.Some? && v.value.Num? && 0 <= v.value.n <= 0xffff_ffff_ffff_ffff then Some(v.value.n) else None
  }

  function Str(v: Option<Value>): Option<seq<Byte>> { if v.Some? && v.value.Text? then Some(v.value.s) else None }

  function Or<T>(v: Option<T>, d: T): T { if v.Some? then v.value else d }

  // ---------------------------------------------------------------- lookup by name

  lemma {:induction false} KeyNamed(name: seq<Byte>, ks: seq<Key>)
    requires KeyAmong(name, ks).Some?
    ensures name == Ascii(Name(KeyAmong(name, ks).value))
  {
    if Ascii(Name(ks[0])) != name { KeyNamed(name, ks[1..]); }
  }

  lemma KeyMatches(name: seq<Byte>, k: Key)
    ensures KeyOf(name) == Some(k) <==> name == Ascii(Name(k))
  {
    KeyIs(k);
    if KeyOf(name) == Some(k) { KeyNamed(name, KEYS); }
  }

  lemma {:induction false} FindMember(fs: seq<Field>, k: Key)
    ensures FindEntry(EntriesFrom(fs), k) == Member(fs, Name(k))
  {
    if fs != [] {
      FindMember(fs[1..], k);
      KeyMatches(fs[0].key, k);
      var o := KeyOf(fs[0].key);
      if o.Some? {
        var e, rest := Entry(o.value, fs[0].value), EntriesFrom(fs[1..]);
        assert EntriesFrom(fs) == [e] + rest;
        FindFirst(e, rest, k);
      }
    }
  }

  // ---------------------------------------------------------------- the record

  ghost predicate TakesTimes(r: Record, fs: seq<Field>) {
    && r.recvMono == Or(Signed(Member(fs, "recv_mono_ns")), 0) && r.recvWall == Or(Signed(Member(fs, "recv_wall_ns")), 0)
    && r.eventTime == Signed(Member(fs, "source_event_time_ms"))
  }

  ghost predicate TakesNames(r: Record, fs: seq<Field>) {
    && r.source == SourceFromWire(Or(Str(Member(fs, "source")), []))
    && r.channel == Or(Str(Member(fs, "channel")), []) && r.ticker == Or(Str(Member(fs, "source_ticker")), [])
    && r.marker == Str(Member(fs, "marker"))
  }

  ghost predicate TakesStream(r: Record, fs: seq<Field>) {
    && r.sequence == Unsigned(Member(fs, "source_sequence")) && r.sid == Unsigned(Member(fs, "sid"))
    && r.epoch == Or(Unsigned(Member(fs, "stream_epoch")), 0) % 0x1_0000_0000
  }

  // Text comes before base64.
  ghost predicate TakesRaw(r: Record, fs: seq<Field>) {
    var raw, b64 := Str(Member(fs, "raw")), Str(Member(fs, "raw_b64"));
    r.raw == if raw.Some? then raw.value else if b64.Some? then Base64.Decode(b64.value) else []
  }

  lemma TimesTaken(fs: seq<Field>, es: seq<Entry>)
    requires es == EntriesFrom(fs)
    ensures TakesTimes(RecordFrom(es), fs)
  {
    FindMember(fs, RecvMono);
    FindMember(fs, RecvWall);
    FindMember(fs, EventTime);
  }

  lemma NamesTaken(fs: seq<Field>, es: seq<Entry>)
    requires es == EntriesFrom(fs)
    ensures TakesNames(RecordFrom(es), fs)
  {
    FindMember(fs, SourceKey);
    FindMember(fs, Channel);
    FindMember(fs, Ticker);
    FindMember(fs, Marker);
  }

  lemma StreamTaken(fs: seq<Field>, es: seq<Entry>)
    requires es == EntriesFrom(fs)
    ensures TakesStream(RecordFrom(es), fs)
  {
    FindMember(fs, Sequence);
    FindMember(fs, Sid);
    FindMember(fs, Epoch);
  }

  lemma RawTaken(fs: seq<Field>, es: seq<Entry>)
    requires es == EntriesFrom(fs)
    ensures TakesRaw(RecordFrom(es), fs)
  {
    FindMember(fs, Raw);
    FindMember(fs, RawB64);
  }

  /** Any object in the compact form, if well-formed UTF-8, is read as the record whose
      fields are its first members of their names, a field being absent, or zero, or empty,
      if there is none of the right kind and range; the epoch is cut to 32 bits. */
  lemma FieldsDecoded(fs: seq<Field>)
    requires fs != [] && U.Strict(EncodeObject(fs))
    ensures var o := DecodeLine(EncodeObject(fs));
      o.Some? && TakesTimes(o.value, fs) && TakesNames(o.value, fs) && TakesStream(o.value, fs) && TakesRaw(o.value, fs)
  {
    ObjectRoundTrip(fs, []);
    assert EncodeObject(fs) + [] == EncodeObject(fs);
    TimesTaken(fs, EntriesFrom(fs));
    NamesTaken(fs, EntriesFrom(fs));
    StreamTaken(fs, EntriesFrom(fs));
    RawTaken(fs, EntriesFrom(fs));
  }
}
