/**
 The RESP2 encoder and incremental parser of src/resp.cpp: what a byte stream means, and
 that the receive buffer, however its chunks fall, reads exactly that.
 */
module Resp {

  import opened Common
  import opened Decimal

  const CR: Byte := 13
  const LF: Byte := 10
  const CRLF: seq<Byte> := [CR, LF]
  const PLUS: Byte := 43
  const DASH: Byte := 45
  const COLON: Byte := 58
  const DOLLAR: Byte := 36
  const STAR: Byte := 42

  const MAX_BULK: int := 0x400_0000 // 64 MiB
  const MAX_ARRAY: int := 1_000_000

  datatype Reply =
    | Simple(text: seq<Byte>)
    | Err(text: seq<Byte>)
    | Integer(n: int)
    | Bulk(text: seq<Byte>)
    | Nil
    | Array(items: seq<Reply>)

  // ---------------------------------------------------------------- the meaning of a stream

  predicate CrlfAt(s: seq<Byte>, i: nat) { i + 1 < |s| && s[i] == CR && s[i + 1] == LF }

  // Where the first CRLF at or after i is; |s| if there is none.
  function FindCrlf(s: seq<Byte>, i: nat): (p: nat)
    requires i <= |s|
    ensures i <= p <= |s|
    decreases |s| - i
  {
    if i + 1 >= |s| then |s| else if CrlfAt(s, i) then i else FindCrlf(s, i + 1)
  }

  // Parsing a prefix of the stream: a value and what follows it, not enough bytes, or a
  // protocol error.
  datatype Parsed<T> = Done(value: T, rest: seq<Byte>) | More | Bad

  function ParseReply(s: seq<Byte>): (p: Parsed<Reply>)
    ensures p.Done? ==> |p.rest| < |s|
    decreases |s|, 0
  {
    var at := FindCrlf(s, 0);
    if at + 2 > |s| then More
    else if at == 0 then Bad
    else ParseBody(s[0], s[1..at], s[at + 2..])
  }

  // The rest of a reply, after its first line.
  function ParseBody(tag: Byte, arg: seq<Byte>, rest: seq<Byte>): (p: Parsed<Reply>)
    ensures p.Done? ==> |p.rest| <= |rest|
    decreases |rest|, 2
  {
    if tag == PLUS then Done(Simple(arg), rest)
    else if tag == DASH then Done(Err(arg), rest)
    else
      var n := ParseLL(arg);
      if tag == COLON then (if n.None? then Bad else Done(Integer(n.value), rest))
      else if tag == DOLLAR then
        if n.None? || n.value > MAX_BULK then Bad
        else if n.value < 0 then Done(Nil, rest)
        else if |rest| < n.value + 2 then More
        else Done(Bulk(rest[..n.value]), rest[n.value + 2..])
      else if tag == STAR then
        if n.None? || n.value > MAX_ARRAY then Bad
        else if n.value < 0 then Done(Nil, rest)
        else
          match ParseMany(n.value, rest)
          case Done(items, after) => Done(Array(items), after)
          case More => More
          case Bad => Bad
      else Bad
  }

  function ParseMany(n: nat, s: seq<Byte>): (p: Parsed<seq<Reply>>)
    ensures p.Done? ==> |p.rest| <= |s| && |p.value| == n
    decreases |s|, 1
  {
    if n == 0 then Done([], s)
    else
      match ParseReply(s)
      case More => More
      case Bad => Bad
      case Done(r, rest) =>
        match ParseMany(n - 1, rest)
        case More => More
        case Bad => Bad
        case Done(rs, after) => Done([r] + rs, after)
  }

  // ---------------------------------------------------------------- encoding

  function Line(tag: Byte, arg: seq<Byte>): seq<Byte> { [tag] + arg + CRLF }

  function EncodeBulk(text: seq<Byte>): seq<Byte> { Line(DOLLAR, ToString(|text|)) + text + CRLF }

  function EncodeBulks(args: seq<seq<Byte>>): seq<Byte> {
    if args == [] then [] else EncodeBulk(args[0]) + EncodeBulks(args[1..])
  }

  // What send_command writes.
  function EncodeCommand(args: seq<seq<Byte>>): seq<Byte> { Line(STAR, ToString(|args|)) + EncodeBulks(args) }

  // What a server writes.
  function Encode(r: Reply): seq<Byte>
    decreases r, 0
  {
    match r
    case Simple(t) => Line(PLUS, t)
    case Err(t) => Line(DASH, t)
    case Integer(n) => Line(COLON, ToString(n))
    case Bulk(t) => EncodeBulk(t)
    case Nil => Line(DOLLAR, ToString(-1))
    case Array(items) => Line(STAR, ToString(|items|)) + EncodeAll(items)
  }

  function EncodeAll(rs: seq<Reply>): seq<Byte>
    decreases rs, 1
  {
    if rs == [] then [] else Encode(rs[0]) + EncodeAll(rs[1..])
  }

  predicate OneLine(t: seq<Byte>) { forall i | 0 <= i < |t| :: !CrlfAt(t, i) }

  // Replies within the parser's limits; one-line texts hold no CRLF.
  predicate Legal(r: Reply) {
    match r
    case Simple(t) => OneLine(t)
    case Err(t) => OneLine(t)
    case Integer(n) => INT64_MIN <= n <= INT64_MAX
    case Bulk(t) => |t| <= MAX_BULK
    case Nil => true
    case Array(items) => |items| <= MAX_ARRAY && forall i | 0 <= i < |items| :: Legal(items[i])
  }

  // ---------------------------------------------------------------- round trips

  lemma {:induction false} FindFirst(s: seq<Byte>, i: nat, p: nat)
    requires i <= p && CrlfAt(s, p) && forall k | i <= k < p :: !CrlfAt(s, k)
    ensures FindCrlf(s, i) == p
    decreases p - i
  {
    if i < p { FindFirst(s, i + 1, p); }
  }

  lemma ParseLine(tag: Byte, arg: seq<Byte>, rest: seq<Byte>)
    requires tag != CR && OneLine(arg)
    ensures ParseReply(Line(tag, arg) + rest) == ParseBody(tag, arg, rest)
  {
    var s, p := Line(tag, arg) + rest, |arg| + 1;
    assert s[0] == tag && s[1..p] == arg && s[p..p + 2] == CRLF && s[p + 2..] == rest;
    assert s[p] == CR && s[p + 1] == LF;
    forall k | 0 <= k < p ensures !CrlfAt(s, k) {
      if k > 0 { assert s[k] == arg[k - 1] && (k < p - 1 ==> s[k + 1] == arg[k] && !CrlfAt(arg, k - 1)); }
    }
    FindFirst(s, 0, p);
  }

  // A line that carries a number.
  lemma ParseNumber(tag: Byte, n: int, rest: seq<Byte>)
    requires tag != CR && INT64_MIN <= n <= INT64_MAX
    ensures ParseReply(Line(tag, ToString(n)) + rest) == ParseBody(tag, ToString(n), rest) && ParseLL(ToString(n)) == Some(n)
  {
    ParseLine(tag, ToString(n), rest);
    ParseToString(n);
  }

  lemma BulkRoundTrip(text: seq<Byte>, rest: seq<Byte>)
    requires |text| <= MAX_BULK
    ensures ParseReply(EncodeBulk(text) + rest) == Done(Bulk(text), rest)
  {
    var head, tail := Line(DOLLAR, ToString(|text|)), text + CRLF + rest;
    assert EncodeBulk(text) + rest == head + tail;
    ParseNumber(DOLLAR, |text|, tail);
    assert tail[..|text|] == text && tail[|text| + 2..] == rest;
  }

  /** Every legal reply, however nested and whatever follows it, is read back as itself
      and leaves exactly what follows. */
  lemma {:induction false} ReplyRoundTrip(r: Reply, rest: seq<Byte>)
    requires Legal(r)
    ensures ParseReply(Encode(r) + rest) == Done(r, rest)
    decreases r, 0
  {
    match r
    case Simple(t) => ParseLine(PLUS, t, rest);
    case Err(t) => ParseLine(DASH, t, rest);
    case Integer(n) => ParseNumber(COLON, n, rest);
    case Bulk(t) => BulkRoundTrip(t, rest);
    case Nil => ParseNumber(DOLLAR, -1, rest);
    case Array(items) =>
      RepliesRoundTrip(items, rest);
      ArrayRoundTrip(items, rest);
  }

  lemma ArrayBody(arg: seq<Byte>, tail: seq<Byte>, items: seq<Reply>, rest: seq<Byte>)
    requires |items| <= MAX_ARRAY && ParseLL(arg) == Some(|items|) && ParseMany(|items|, tail) == Done(items, rest)
    ensures ParseBody(STAR, arg, tail) == Done(Array(items), rest)
  {
  }

  lemma ManyStep(n: nat, s: seq<Byte>, r: Reply, s1: seq<Byte>, rs: seq<Reply>, rest: seq<Byte>)
    requires ParseReply(s) == Done(r, s1) && ParseMany(n, s1) == Done(rs, rest)
    ensures ParseMany(n + 1, s) == Done([r] + rs, rest)
  {
  }

  lemma Assoc(a: seq<Byte>, b: seq<Byte>, c: seq<Byte>)
    ensures (a + b) + c == a + (b + c)
  {
  }

  lemma ArrayLine(items: seq<Reply>, enc: seq<Byte>, rest: seq<Byte>)
    requires |items| <= MAX_ARRAY && ParseMany(|items|, enc + rest) == Done(items, rest)
    ensures ParseReply(Line(STAR, ToString(|items|)) + (enc + rest)) == Done(Array(items), rest)
  {
    ParseNumber(STAR, |items|, enc + rest);
    ArrayBody(ToString(|items|), enc + rest, items, rest);
  }

  lemma ArrayRoundTrip(items: seq<Reply>, rest: seq<Byte>)
    requires |items| <= MAX_ARRAY && ParseMany(|items|, EncodeAll(items) + rest) == Done(items, rest)
    ensures ParseReply(Encode(Array(items)) + rest) == Done(Array(items), rest)
  {
    ArrayLine(items, EncodeAll(items), rest);
    Assoc(Line(STAR, ToString(|items|)), EncodeAll(items), rest);
  }

  /** A concatenation of replies is read back in order by as many reads. */
  lemma {:induction false} RepliesRoundTrip(rs: seq<Reply>, rest: seq<Byte>)
    requires forall i | 0 <= i < |rs| :: Legal(rs[i])
    ensures ParseMany(|rs|, EncodeAll(rs) + rest) == Done(rs, rest)
    decreases rs, 1
  {
    if rs == [] {
      assert EncodeAll(rs) + rest == rest;
    } else {
      var tail := EncodeAll(rs[1..]) + rest;
      assert EncodeAll(rs) == Encode(rs[0]) + EncodeAll(rs[1..]);
      assert EncodeAll(rs) + rest == Encode(rs[0]) + tail;
      ReplyRoundTrip(rs[0], tail);
      RepliesRoundTrip(rs[1..], rest);
      ManyStep(|rs| - 1, EncodeAll(rs) + rest, rs[0], tail, rs[1..], rest);
      assert [rs[0]] + rs[1..] == rs;
    }
  }

  function Bulks(args: seq<seq<Byte>>): seq<Reply> { seq(|args|, i requires 0 <= i < |args| => Bulk(args[i])) }

  lemma {:induction false} BulksEncode(args: seq<seq<Byte>>)
    ensures EncodeAll(Bulks(args)) == EncodeBulks(args)
  {
    if args != [] {
      BulksEncode(args[1..]);
      assert Bulks(args)[1..] == Bulks(args[1..]);
    }
  }

  /** Every command within the limits is read as the array of exactly its arguments. */
  lemma CommandRoundTrip(args: seq<seq<Byte>>, rest: seq<Byte>)
    requires |args| <= MAX_ARRAY && forall i | 0 <= i < |args| :: |args[i]| <= MAX_BULK
    ensures ParseReply(EncodeCommand(args) + rest) == Done(Array(Bulks(args)), rest)
  {
    BulksEncode(args);
    var r := Array(Bulks(args));
    assert EncodeCommand(args) == Encode(r);
    ReplyRoundTrip(r, rest);
  }

  /** The two bytes after a bulk string are skipped unread: a reply with anything in
      their place parses to the same value. */
  lemma BulkTerminatorUnchecked(text: seq<Byte>, a: Byte, b: Byte, rest: seq<Byte>)
    requires |text| <= MAX_BULK
    ensures ParseReply(Line(DOLLAR, ToString(|text|)) + text + [a, b] + rest) == Done(Bulk(text), rest)
  {
    var head, tail := Line(DOLLAR, ToString(|text|)), text + [a, b] + rest;
    assert head + text + [a, b] + rest == head + tail;
    ParseNumber(DOLLAR, |text|, tail);
    assert tail[..|text|] == text && tail[|text| + 2..] == rest;
  }

  // ---------------------------------------------------------------- cut streams

  lemma {:induction false} CrlfPrefix(s: seq<Byte>, more: seq<Byte>, i: nat)
    requires i <= |s|
    ensures FindCrlf(s, i) < |s| ==> FindCrlf(s + more, i) == FindCrlf(s, i) && CrlfAt(s, FindCrlf(s, i))
    decreases |s| - i
  {
    if i + 1 < |s| && !CrlfAt(s, i) { CrlfPrefix(s, more, i + 1); }
  }

  // What is said about a stream cannot be unsaid by what follows it.
  ghost predicate Settles<T>(p: Parsed<T>, more: seq<Byte>, p': Parsed<T>) {
    match p
    case Done(v, rest) => p' == Done(v, rest + more)
    case More => true
    case Bad => p' == Bad
  }

  lemma StableLine(s: seq<Byte>, more: seq<Byte>)
    requires FindCrlf(s, 0) + 2 <= |s|
    ensures var at := FindCrlf(s, 0);
      FindCrlf(s + more, 0) == at && (s + more)[1..] == s[1..] + more && (s + more)[at + 2..] == s[at + 2..] + more
      && (at > 0 ==> (s + more)[1..at] == s[1..at])
  {
    CrlfPrefix(s, more, 0);
  }

  lemma StableBulk(n: nat, rest: seq<Byte>, more: seq<Byte>)
    requires n + 2 <= |rest|
    ensures (rest + more)[..n] == rest[..n] && (rest + more)[n + 2..] == rest[n + 2..] + more
  {
  }

  /** Once a stream holds a whole reply, or a protocol error, bytes that arrive later
      change neither. */
  lemma {:induction false} StableReply(s: seq<Byte>, more: seq<Byte>)
    ensures Settles(ParseReply(s), more, ParseReply(s + more))
    decreases |s|, 0
  {
    var at := FindCrlf(s, 0);
    if at + 2 <= |s| {
      StableLine(s, more);
      if at > 0 { StableBody(s[0], s[1..at], s[at + 2..], more); }
    }
  }

  lemma {:induction false} StableBody(tag: Byte, arg: seq<Byte>, rest: seq<Byte>, more: seq<Byte>)
    ensures Settles(ParseBody(tag, arg, rest), more, ParseBody(tag, arg, rest + more))
    decreases |rest|, 2
  {
    var n := ParseLL(arg);
    if tag == DOLLAR && n.Some? && 0 <= n.value && n.value + 2 <= |rest| { StableBulk(n.value, rest, more); }
    if tag == STAR && n.Some? && 0 <= n.value { StableMany(n.value, rest, more); }
  }

  lemma {:induction false} StableMany(n: nat, s: seq<Byte>, more: seq<Byte>)
    ensures Settles(ParseMany(n, s), more, ParseMany(n, s + more))
    decreases |s|, 1
  {
    if n > 0 {
      StableReply(s, more);
      var p := ParseReply(s);
      if p.Done? { StableMany(n - 1, p.rest, more); }
    }
  }

  /** A reply cut off anywhere is neither a reply nor an error: the parser asks for more. */
  lemma CutReplyAsksForMore(r: Reply, cut: nat)
    requires Legal(r) && cut < |Encode(r)|
    ensures ParseReply(Encode(r)[..cut]) == More
  {
    var s, t := Encode(r)[..cut], Encode(r)[cut..];
    assert s + t == Encode(r) == Encode(r) + [];
    ReplyRoundTrip(r, []);
    StableReply(s, t);
  }

  // ---------------------------------------------------------------- the receive buffer

  function Flat(chunks: seq<seq<Byte>>): seq<Byte> {
    if chunks == [] then [] else chunks[0] + Flat(chunks[1..])
  }

  method Command(args: seq<seq<Byte>>) returns (out: seq<Byte>)
    ensures out == EncodeCommand(args)
  {
    out := [STAR] + ToString(|args|) + CRLF;
    ghost var head := out;
    for i := 0 to |args|
      invariant out + EncodeBulks(args[i..]) == head + EncodeBulks(args)
    {
      assert args[i..][1..] == args[i + 1..];
      Assoc(out, EncodeBulk(args[i]), EncodeBulks(args[i + 1..]));
      ghost var was := out;
      out := out + [DOLLAR] + ToString(|args[i]|) + CRLF + args[i] + CRLF;
      assert out == was + EncodeBulk(args[i]);
    }
    assert EncodeBulks(args[|args|..]) == [];
  }

  datatype Read = Got(reply: Reply) | PeerClosed | ProtocolError

  // The items read so far, put in front of what is still to come.
  function Prepend(items: seq<Reply>, p: Parsed<seq<Reply>>): Parsed<seq<Reply>> {
    match p
    case Done(rs, rest) => Done(items + rs, rest)
    case More => More
    case Bad => Bad
  }

  lemma PrependNone(p: Parsed<seq<Reply>>)
    ensures Prepend([], p) == p
  {
    if p.Done? { assert [] + p.value == p.value; }
  }

  lemma PrependNext(items: seq<Reply>, r: Reply, p: Parsed<seq<Reply>>)
    ensures Prepend(items, Prepend([r], p)) == Prepend(items + [r], p)
  {
    if p.Done? { assert items + ([r] + p.value) == (items + [r]) + p.value; }
  }

  class RespClient {
    var open: bool
    var buf: seq<Byte>
    var consumed: nat
    // What the socket will deliver, one recv at a time, before the peer closes.
    var incoming: seq<seq<Byte>>

    ghost predicate Valid()
      reads this
    {
      consumed <= |buf| && forall i | 0 <= i < |incoming| :: |incoming[i]| > 0
    }

    // Everything not read yet.
    ghost function Pending(): seq<Byte>
      requires Valid()
      reads this
    {
      buf[consumed..] + Flat(incoming)
    }

    constructor (incoming: seq<seq<Byte>>)
      requires forall i | 0 <= i < |incoming| :: |incoming[i]| > 0
      ensures Valid() && open && Pending() == Flat(incoming)
    {
      open, buf, consumed, this.incoming := true, [], 0, incoming;
    }

    method Close()
      modifies this
      ensures !open && buf == [] && consumed == 0 && incoming == []
    {
      open, buf, consumed, incoming := false, [], 0, [];
    }

    // Receive until need bytes are at hand; false if the peer closes first.
    method Fill(need: nat) returns (ok: bool)
      requires Valid()
      modifies this
      ensures Valid() && (ok <==> |old(Pending())| >= need)
      ensures ok ==> open == old(open) && Pending() == old(Pending()) && |buf| - consumed >= need
      ensures ok ==> consumed == old(consumed) && old(buf) <= buf
      ensures ok ==> |incoming| <= old(|incoming|) && (need > |old(buf)| - old(consumed) ==> |incoming| < old(|incoming|))
      ensures !ok ==> !open && Pending() == []
    {
      while |buf| - consumed < need
        invariant Valid() && open == old(open) && Pending() == old(Pending())
        invariant consumed == old(consumed) && old(buf) <= buf && |incoming| <= old(|incoming|)
        invariant buf == old(buf) || |incoming| < old(|incoming|)
        decreases |incoming|
      {
        if incoming == [] {
          Close();
          return false;
        }
        ghost var was := buf;
        buf := buf + incoming[0];
        assert buf[consumed..] == was[consumed..] + incoming[0];
        incoming := incoming[1..];
      }
      return true;
    }

    // The next line without its CRLF.
    method ReadLine() returns (line: Option<seq<Byte>>)
      requires Valid()
      modifies this
      ensures Valid()
      ensures line.None? <==> FindCrlf(old(Pending()), 0) + 2 > |old(Pending())|
      ensures line.None? ==> !open && Pending() == []
      ensures line.Some? ==> var at := FindCrlf(old(Pending()), 0);
        open == old(open) && line.value == old(Pending())[..at] && Pending() == old(Pending())[at + 2..]
    {
      while true
        invariant Valid() && open == old(open) && Pending() == old(Pending())
        decreases |incoming|
      {
        var at := FindCrlf(buf[consumed..], 0);
        CrlfPrefix(buf[consumed..], Flat(incoming), 0);
        if at < |buf| - consumed {
          line := Some(buf[consumed..consumed + at]);
          consumed := consumed + at + 2;
          return;
        }
        assert Flat(incoming) == [] ==> Pending() == buf[consumed..];
        var ok := Fill(|buf| - consumed + 1);
        if !ok { return None; }
      }
    }

    // What reading a reply makes of a parse of everything pending.
    ghost predicate Reads(p: Parsed<Reply>, was: bool, r: Read)
      reads this
    {
      && Valid()
      && match p
         case Done(v, rest) => r == Got(v) && Pending() == rest && open == was
         case More => r == PeerClosed && !open && Pending() == []
         case Bad => r == ProtocolError && !open && Pending() == []
    }

    /** Read one reply. The outcome, and what is left, depend only on the bytes, not on
        how they are split into chunks. */
    method ReadReply() returns (r: Read)
      requires Valid()
      modifies this
      ensures Reads(ParseReply(old(Pending())), old(open), r)
      decreases |Pending()|, 0
    {
      var line := ReadLine();
      if line.None? { return PeerClosed; }
      if line.value == [] {
        Close();
        return ProtocolError;
      }
      assert line.value[0] == old(Pending())[0] && line.value[1..] == old(Pending())[1..FindCrlf(old(Pending()), 0)];
      r := ReadBody(line.value[0], line.value[1..]);
    }

    // The switch on the tag.
    method ReadBody(tag: Byte, arg: seq<Byte>) returns (r: Read)
      requires Valid()
      modifies this
      ensures Reads(ParseBody(tag, arg, old(Pending())), old(open), r)
      decreases |Pending()|, 2
    {
      if tag == PLUS { return Got(Simple(arg)); }
      if tag == DASH { return Got(Err(arg)); }
      var n := ParseLL(arg);
      if tag == COLON && n.Some? { return Got(Integer(n.value)); }
      if tag == DOLLAR && n.Some? && n.value <= MAX_BULK {
        if n.value < 0 { return Got(Nil); }
        r := ReadBulk(n.value);
        return;
      }
      if tag == STAR && n.Some? && n.value <= MAX_ARRAY {
        if n.value < 0 { return Got(Nil); }
        r := ReadArray(n.value);
        return;
      }
      Close();
      return ProtocolError;
    }

    method ReadBulk(len: nat) returns (r: Read)
      requires Valid()
      modifies this
      ensures var p := old(Pending());
        Reads(if |p| < len + 2 then More else Done(Bulk(p[..len]), p[len + 2..]), old(open), r)
    {
      var ok := Fill(len + 2);
      if !ok { return PeerClosed; }
      r := Got(Bulk(buf[consumed..consumed + len]));
      assert Pending()[..len] == buf[consumed..consumed + len];
      assert Pending()[len + 2..] == buf[consumed + len + 2..] + Flat(incoming);
      consumed := consumed + len + 2;
    }

    method ReadArray(n: nat) returns (r: Read)
      requires Valid()
      modifies this
      ensures Reads(match ParseMany(n, old(Pending())) case Done(items, rest) => Done(Array(items), rest) case More => More case Bad => Bad, old(open), r)
      decreases |Pending()|, 1
    {
      var items: seq<Reply> := [];
      var i := 0;
      PrependNone(ParseMany(n, Pending()));
      while i < n
        invariant i <= n && Valid() && open == old(open) && |Pending()| <= |old(Pending())|
        invariant ParseMany(n, old(Pending())) == Prepend(items, ParseMany(n - i, Pending()))
      {
        ghost var p := Pending();
        var elem := ReadReply();
        if !elem.Got? { return elem; }
        PrependNext(items, elem.reply, ParseMany(n - i - 1, Pending()));
        items := items + [elem.reply];
        i := i + 1;
      }
      assert items + [] == items;
      return Got(Array(items));
    }

    // Read a reply, then drop the parsed bytes; what is unread stays.
    method NextReply() returns (r: Read)
      requires Valid()
      modifies this
      ensures Reads(ParseReply(old(Pending())), old(open), r) && (r.Got? ==> consumed == 0)
    {
      r := ReadReply();
      if r.Got? {
        buf := buf[consumed..];
        consumed := 0;
        assert buf[0..] == buf;
      }
    }
  }
}
