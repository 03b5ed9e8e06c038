/**
 The JSON string writer of src/storage.cpp, and a bytewise reader of section 7 of RFC 8259
 to measure it against.
 */
module Json {

  import opened Common
  import U = Utf8

  const QUOTE: Byte := 34
  const BACKSLASH: Byte := 92

  function Hex(v: int): Byte
    requires 0 <= v < 16
  {
    if v < 10 then 48 + v else 97 + v - 10
  }

  function Escaped(c: Byte): seq<Byte> {
    if c == QUOTE then [BACKSLASH, QUOTE]
    else if c == BACKSLASH then [BACKSLASH, BACKSLASH]
    else if c == 10 then [BACKSLASH, 110]
    else if c == 13 then [BACKSLASH, 114]
    else if c == 9 then [BACKSLASH, 116]
    else if c == 8 then [BACKSLASH, 98]
    else if c == 12 then [BACKSLASH, 102]
    else if c < 32 then [BACKSLASH, 117, 48, 48, Hex(c / 16), Hex(c % 16)]
    else [c]
  }

  function EscapeAll(s: seq<Byte>): seq<Byte> { if s == [] then [] else Escaped(s[0]) + EscapeAll(s[1..]) }

  function Escape(s: seq<Byte>): seq<Byte> { [QUOTE] + EscapeAll(s) + [QUOTE] }

  // The escapes with a letter of their own.
  const SHORT: map<int, char> := map[34 := '"', 92 := '\\', 10 := 'n', 13 := 'r', 9 := 't', 8 := 'b', 12 := 'f']

  const HEX: string := "0123456789abcdef"

  lemma HexIs(v: int)
    requires 0 <= v < 16
    ensures Hex(v) as char == HEX[v]
  {
  }

  /** Quote, backslash and five control characters have a short escape, the other control
      characters \u00 and two lower-case hexadecimal digits, and all other bytes none. */
  lemma EscapedExact(c: Byte)
    ensures var e := Escaped(c);
      if c in SHORT then |e| == 2 && e[0] as char == '\\' && e[1] as char == SHORT[c]
      else if c < 32 then |e| == 6 && e[..4] == [92, 117, 48, 48] && e[4] as char == HEX[c / 16] && e[5] as char == HEX[c % 16]
      else e == [c]
  {
    if c < 32 {
      HexIs(c / 16);
      HexIs(c % 16);
    }
  }

  // ---------------------------------------------------------------- the reader

  function HexVal(b: Byte): int {
    if 48 <= b <= 57 then b - 48 else if 97 <= b <= 102 then b - 97 + 10 else if 65 <= b <= 70 then b - 65 + 10 else -1
  }

  // The escape after a backslash, other than \u.
  function Short(b: Byte): int {
    if b == QUOTE || b == BACKSLASH || b == 47 then b
    else if b == 98 then 8
    else if b == 102 then 12
    else if b == 110 then 10
    else if b == 114 then 13
    else if b == 116 then 9
    else -1
  }

  function Utf8(code: int): seq<Byte>
    requires 0 <= code < 0x10000
  {
    if code < 0x80 then [code]
    else if code < 0x800 then [0xC0 + code / 64, 0x80 + code % 64]
    else [0xE0 + code / 0x1000, 0x80 + code / 64 % 64, 0x80 + code % 64]
  }

  // A value and the bytes after it.
  datatype Taken<T> = Taken(value: T, rest: seq<Byte>)

  function Put(head: seq<Byte>, t: Option<Taken<seq<Byte>>>): Option<Taken<seq<Byte>>> {
    if t.None? then None else Some(Taken(head + t.value.value, t.value.rest))
  }

  // The characters of a string up to its closing quote. Escaped surrogates are not read.
  function Chars(s: seq<Byte>): Option<Taken<seq<Byte>>>
    decreases |s|
  {
    if s == [] then None
    else if s[0] == QUOTE then Some(Taken([], s[1..]))
    else if s[0] == BACKSLASH then
      if |s| < 2 then None
      else if Short(s[1]) >= 0 then Put([Short(s[1])], Chars(s[2..]))
      else if s[1] != 117 || |s| < 6 then None
      else
        var a, b, c, d := HexVal(s[2]), HexVal(s[3]), HexVal(s[4]), HexVal(s[5]);
        if a < 0 || b < 0 || c < 0 || d < 0 then None
        else
          var code := a * 0x1000 + b * 0x100 + c * 16 + d;
          if 0xD800 <= code < 0xE000 then None else Put(Utf8(code), Chars(s[6..]))
    else if s[0] < 32 then None
    else Put([s[0]], Chars(s[1..]))
  }

  function Unquote(s: seq<Byte>): Option<Taken<seq<Byte>>> {
    if s == [] || s[0] != QUOTE then None else Chars(s[1..])
  }

  // ---------------------------------------------------------------- round trip

  lemma ShortRoundTrip(b: Byte, tail: seq<Byte>)
    requires Short(b) >= 0
    ensures Chars([BACKSLASH, b] + tail) == Put([Short(b)], Chars(tail))
  {
    var s := [BACKSLASH, b] + tail;
    assert s[0] == BACKSLASH && s[1] == b && s[2..] == tail;
  }

  lemma HexRoundTrip(c: Byte, x: Byte, y: Byte, tail: seq<Byte>)
    requires c < 0x80 && HexVal(x) == c / 16 && HexVal(y) == c % 16
    ensures Chars([BACKSLASH, 117, 48, 48, x, y] + tail) == Put([c], Chars(tail))
  {
    var s := [BACKSLASH, 117, 48, 48, x, y] + tail;
    assert s[0] == BACKSLASH && s[1] == 117 && s[2] == 48 && s[3] == 48 && s[4] == x && s[5] == y && s[6..] == tail;
    assert HexVal(48) * 0x1000 + HexVal(48) * 0x100 + HexVal(x) * 16 + HexVal(y) == c;
  }

  lemma CharRoundTrip(c: Byte, tail: seq<Byte>)
    ensures Chars(Escaped(c) + tail) == Put([c], Chars(tail))
  {
    if |Escaped(c)| == 1 {
      assert ([c] + tail)[1..] == tail;
    } else if |Escaped(c)| == 2 {
      ShortRoundTrip(Escaped(c)[1], tail);
    } else {
      HexRoundTrip(c, Hex(c / 16), Hex(c % 16), tail);
    }
  }

  lemma {:induction false} CharsRoundTrip(s: seq<Byte>, rest: seq<Byte>)
    ensures Chars(EscapeAll(s) + ([QUOTE] + rest)) == Some(Taken(s, rest))
  {
    if s == [] {
      assert EscapeAll(s) + ([QUOTE] + rest) == [QUOTE] + rest;
    } else {
      var tail := EscapeAll(s[1..]) + ([QUOTE] + rest);
      assert EscapeAll(s) + ([QUOTE] + rest) == Escaped(s[0]) + tail;
      CharRoundTrip(s[0], tail);
      CharsRoundTrip(s[1..], rest);
      assert [s[0]] + s[1..] == s;
    }
  }

  /** Reading undoes escaping for every byte string, and stops right after it. */
  lemma EscapeRoundTrip(s: seq<Byte>, rest: seq<Byte>)
    ensures Unquote(Escape(s) + rest) == Some(Taken(s, rest))
  {
    CharsRoundTrip(s, rest);
    assert (Escape(s) + rest)[1..] == EscapeAll(s) + ([QUOTE] + rest);
  }

  /** Escaped text holds no control character, so no line break. */
  lemma {:induction false} EscapeIsPrintable(s: seq<Byte>)
    ensures forall i | 0 <= i < |EscapeAll(s)| :: EscapeAll(s)[i] >= 32
  {
    if s != [] { EscapeIsPrintable(s[1..]); }
  }

  // ---------------------------------------------------------------- UTF-8

  // Bytes at the front that are not ASCII, and so are not escaped.
  function HighRun(s: seq<Byte>): (n: nat)
    ensures n <= |s| && (n < |s| ==> s[n] < 0x80) && forall i | 0 <= i < n :: s[i] >= 0x80
  {
    if s == [] || s[0] < 0x80 then 0 else 1 + HighRun(s[1..])
  }

  lemma {:induction false} HighUnescaped(s: seq<Byte>, n: nat)
    requires n <= |s| && forall i | 0 <= i < n :: s[i] >= 0x80
    ensures EscapeAll(s) == s[..n] + EscapeAll(s[n..])
    decreases n
  {
    if n == 0 {
      assert s[..0] == [] && s[0..] == s;
    } else {
      HighUnescaped(s[1..], n - 1);
      assert s[1..][n - 1..] == s[n..] && s[..n] == [s[0]] + s[1..][..n - 1];
      Regroup([s[0]], s[1..][..n - 1], EscapeAll(s[n..]));
    }
  }

  lemma Regroup(a: seq<Byte>, b: seq<Byte>, c: seq<Byte>)
    ensures a + (b + c) == (a + b) + c
  {
  }

  lemma EscapedAscii(c: Byte)
    requires c < 0x80
    ensures U.Ascii(Escaped(c)) && |Escaped(c)| > 0
  {
  }

  lemma EscapeBoundary(s: seq<Byte>)
    requires s == [] || s[0] < 0x80
    ensures U.Boundary(EscapeAll(s))
  {
    if s != [] { EscapedAscii(s[0]); }
  }

  /** Escaping neither makes nor breaks well-formed UTF-8. */
  lemma {:induction false} EscapeStrict(s: seq<Byte>)
    ensures U.Strict(EscapeAll(s)) <==> U.Strict(s)
    decreases |s|
  {
    if s != [] && s[0] < 0x80 {
      EscapeStrict(s[1..]);
      EscapedAscii(s[0]);
      U.AsciiBefore(Escaped(s[0]), EscapeAll(s[1..]));
      U.AsciiBefore([s[0]], s[1..]);
      assert [s[0]] + s[1..] == s;
    } else if s != [] {
      var n := HighRun(s);
      EscapeStrict(s[n..]);
      HighUnescaped(s, n);
      EscapeBoundary(s[n..]);
      U.StrictSplit(s[..n], EscapeAll(s[n..]));
      U.StrictSplit(s[..n], s[n..]);
      assert s[..n] + s[n..] == s;
    }
  }

  lemma QuotedStrict(s: seq<Byte>)
    ensures U.Strict(Escape(s)) <==> U.Strict(s)
  {
    EscapeStrict(s);
    U.AsciiBefore([QUOTE], EscapeAll(s));
    U.AsciiAfter([QUOTE] + EscapeAll(s), [QUOTE]);
  }

  // ---------------------------------------------------------------- the loop

  method EscapeLoop(s: seq<Byte>, line: seq<Byte>) returns (out: seq<Byte>)
    ensures out == line + Escape(s)
  {
    out := line + [QUOTE];
    for i := 0 to |s|
      invariant out + EscapeAll(s[i..]) == line + [QUOTE] + EscapeAll(s)
    {
      assert s[i..][0] == s[i] && s[i..][1..] == s[i + 1..];
      assert out + (Escaped(s[i]) + EscapeAll(s[i + 1..])) == (out + Escaped(s[i])) + EscapeAll(s[i + 1..]);
      out := out + Escaped(s[i]);
    }
    assert out == line + [QUOTE] + EscapeAll(s);
    out := out + [QUOTE];
  }
}
