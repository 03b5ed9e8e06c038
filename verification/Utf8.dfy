/**
 Well-formed UTF-8 as section 4 of RFC 3629 defines it: no overlong forms, no surrogates,
 nothing above U+10FFFF. This is what the JSON library asks of a document before it looks
 at anything else.
 */
module Utf8 {

  import opened Common

  predicate Tail(b: Byte) { 0x80 <= b < 0xC0 }

  // The second byte after lead byte a.
  predicate Second(a: Byte, b: Byte) {
    if a == 0xE0 then 0xA0 <= b < 0xC0
    else if a == 0xED then 0x80 <= b < 0xA0
    else if a == 0xF0 then 0x90 <= b < 0xC0
    else if a == 0xF4 then 0x80 <= b < 0x90
    else Tail(b)
  }

  // How many bytes a character beginning with this byte has; 0 if none does.
  function Length(a: Byte): nat {
    if a < 0x80 then 1 else if 0xC2 <= a < 0xE0 then 2 else if 0xE0 <= a < 0xF0 then 3 else if 0xF0 <= a < 0xF5 then 4 else 0
  }

  // Does the text begin with a whole character?
  predicate Begins(s: seq<Byte>) {
    && s != [] && 0 < Length(s[0]) <= |s|
    && (Length(s[0]) > 1 ==> Second(s[0], s[1]))
    && (Length(s[0]) > 2 ==> Tail(s[2]))
    && (Length(s[0]) > 3 ==> Tail(s[3]))
  }

  predicate Strict(s: seq<Byte>)
    decreases |s|
  {
    s == [] || (Begins(s) && Strict(s[Length(s[0])..]))
  }

  // A place where a character may begin.
  predicate Boundary(s: seq<Byte>) { s == [] || !Tail(s[0]) }

  lemma BeginsBefore(a: seq<Byte>, b: seq<Byte>)
    requires a != [] && Boundary(b)
    ensures Begins(a + b) <==> Begins(a)
  {
    var s := a + b;
    assert s[0] == a[0];
    assert forall i | 0 <= i < |a| :: s[i] == a[i];
    if |b| > 0 { assert s[|a|] == b[0]; }
  }

  // Text cut at a boundary is well-formed exactly when both parts are.
  lemma {:induction false} StrictSplit(a: seq<Byte>, b: seq<Byte>)
    requires Boundary(b)
    ensures Strict(a + b) <==> Strict(a) && Strict(b)
    decreases |a|
  {
    if a == [] {
      assert a + b == b;
    } else {
      BeginsBefore(a, b);
      if Begins(a) {
        var n := Length(a[0]);
        StrictSplit(a[n..], b);
        assert (a + b)[n..] == a[n..] + b;
      }
    }
  }

  predicate Ascii(s: seq<Byte>) { forall i | 0 <= i < |s| :: s[i] < 0x80 }

  lemma {:induction false} AsciiStrict(s: seq<Byte>)
    requires Ascii(s)
    ensures Strict(s)
    decreases |s|
  {
    if s != [] { AsciiStrict(s[1..]); }
  }

  // ASCII text around other text does not matter.
  lemma {:induction false} AsciiBefore(a: seq<Byte>, s: seq<Byte>)
    requires Ascii(a)
    ensures Strict(a + s) <==> Strict(s)
    decreases |a|
  {
    if a == [] {
      assert a + s == s;
    } else {
      AsciiBefore(a[1..], s);
      assert (a + s)[1..] == a[1..] + s;
    }
  }

  lemma AsciiAfter(s: seq<Byte>, a: seq<Byte>)
    requires Ascii(a)
    ensures Strict(s + a) <==> Strict(s)
  {
    AsciiStrict(a);
    StrictSplit(s, a);
  }
}
