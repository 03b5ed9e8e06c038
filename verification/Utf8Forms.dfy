/**
 What the two UTF-8 tests accept, said with code points instead of bytes: the JSON reader
 takes the shortest forms of scalar values (section 3 of RFC 3629), the writer's own test
 of src/storage.cpp every form, whatever number it spells.
 */
module Utf8Forms {

  import opened Common
  import opened Records
  import U = Utf8

  // Numbers that fit a form of n bytes.
  function Bound(n: nat): nat { if n == 1 then 0x80 else if n == 2 then 0x800 else if n == 3 then 0x1_0000 else 0x20_0000 }

  predicate Fits(n: nat, c: nat) { 1 <= n <= 4 && c < Bound(n) }

  // The form of n bytes of a number.
  function Form(n: nat, c: nat): (s: seq<Byte>)
    requires Fits(n, c)
    ensures |s| == n
  {
    if n == 1 then [c]
    else if n == 2 then [0xC0 + c / 64, 0x80 + c % 64]
    else if n == 3 then [0xE0 + c / 0x1000, 0x80 + c / 64 % 64, 0x80 + c % 64]
    else [0xF0 + c / 0x4_0000, 0x80 + c / 0x1000 % 64, 0x80 + c / 64 % 64, 0x80 + c % 64]
  }

  // No shorter form, no surrogate, nothing above U+10FFFF.
  predicate Proper(n: nat, c: nat) { (n > 1 ==> c >= Bound(n - 1)) && c <= 0x10FFFF && !(0xD800 <= c <= 0xDFFF) }

  ghost predicate Spelled(s: seq<Byte>, proper: bool)
    decreases |s|
  {
    s == [] || exists n: nat, c: nat :: Fits(n, c) && (proper ==> Proper(n, c)) && Form(n, c) <= s && Spelled(s[n..], proper)
  }

  // ---------------------------------------------------------------- one character

  predicate Lead(n: nat, a: Byte) {
    if n == 1 then a < 0x80 else if n == 2 then 0xC0 <= a < 0xE0 else if n == 3 then 0xE0 <= a < 0xF0 else n == 4 && 0xF0 <= a < 0xF8
  }

  // The text begins with the bytes of a form of n bytes.
  predicate Shaped(s: seq<Byte>, n: nat) { 1 <= n <= 4 && n <= |s| && Lead(n, s[0]) && forall i | 1 <= i < n :: U.Tail(s[i]) }

  // A byte above the smallest of its kind.
  function Over(b: Byte, base: int): int { b - base }

  function Code(s: seq<Byte>, n: nat): nat
    requires Shaped(s, n)
  {
    if n == 1 then s[0]
    else if n == 2 then Over(s[0], 0xC0) * 64 + Over(s[1], 0x80)
    else if n == 3 then Over(s[0], 0xE0) * 0x1000 + Over(s[1], 0x80) * 64 + Over(s[2], 0x80)
    else Over(s[0], 0xF0) * 0x4_0000 + Over(s[1], 0x80) * 0x1000 + Over(s[2], 0x80) * 64 + Over(s[3], 0x80)
  }

  lemma Split64(q: nat, r: nat)
    requires r < 64
    ensures (q * 64 + r) / 64 == q && (q * 64 + r) % 64 == r
  {
  }

  lemma DivTwice(c: nat)
    ensures c / 0x1000 == c / 64 / 64 && c / 0x4_0000 == c / 64 / 64 / 64
  {
  }

  lemma CodeForm2(s: seq<Byte>)
    requires Shaped(s, 2)
    ensures Fits(2, Code(s, 2)) && Form(2, Code(s, 2)) == s[..2]
  {
    Split64(Over(s[0], 0xC0), Over(s[1], 0x80));
  }

  lemma CodeForm3(s: seq<Byte>)
    requires Shaped(s, 3)
    ensures Fits(3, Code(s, 3)) && Form(3, Code(s, 3)) == s[..3]
  {
    var a, b, c := Over(s[0], 0xE0), Over(s[1], 0x80), Over(s[2], 0x80);
    Split64(a * 64 + b, c);
    Split64(a, b);
    DivTwice(Code(s, 3));
  }

  lemma CodeForm4(s: seq<Byte>)
    requires Shaped(s, 4)
    ensures Fits(4, Code(s, 4)) && Form(4, Code(s, 4)) == s[..4]
  {
    var a, b, c, d := Over(s[0], 0xF0), Over(s[1], 0x80), Over(s[2], 0x80), Over(s[3], 0x80);
    Split64(a * 0x1000 + b * 64 + c, d);
    Split64(a * 64 + b, c);
    Split64(a, b);
    DivTwice(Code(s, 4));
  }

  lemma CodeForm(s: seq<Byte>, n: nat)
    requires Shaped(s, n)
    ensures Fits(n, Code(s, n)) && Form(n, Code(s, n)) <= s
  {
    if n == 1 { } else if n == 2 { CodeForm2(s); } else if n == 3 { CodeForm3(s); } else { CodeForm4(s); }
  }

  // Bytes that are a form of a number are shaped, and spell that number.
  lemma FormShaped(s: seq<Byte>, n: nat, c: nat)
    requires Fits(n, c) && Form(n, c) <= s
    ensures Shaped(s, n) && Code(s, n) == c
  {
    var f := Form(n, c);
    assert forall i | 0 <= i < n :: s[i] == f[i];
    DivTwice(c);
  }

  // ---------------------------------------------------------------- the writer's test

  lemma LaxBegins(s: seq<Byte>, i: nat, n: nat)
    requires i < |s| && 1 <= n <= 4
    ensures Shaped(s[i..], n) <==> Extra(s[i]) == n - 1 && i + n <= |s| && Continues(s, i, n - 1)
  {
    var t := s[i..];
    if Shaped(t, n) {
      forall k | i < k <= i + n - 1 ensures s[k] / 64 == 2 { assert U.Tail(t[k - i]); }
    } else if i + n <= |s| && Continues(s, i, n - 1) && Lead(n, t[0]) {
      forall k | 1 <= k < n ensures U.Tail(t[k]) { assert s[i + k] / 64 == 2; }
    }
  }

  lemma {:induction false} LaxFrom(s: seq<Byte>, i: nat)
    requires i <= |s|
    ensures Utf8From(s, i) <==> Spelled(s[i..], false)
    decreases |s| - i
  {
    if i < |s| {
      var t := s[i..];
      if Utf8From(s, i) {
        var n := Extra(s[i]) + 1;
        LaxBegins(s, i, n);
        CodeForm(t, n);
        LaxFrom(s, i + n);
        assert t[n..] == s[i + n..];
      }
      if Spelled(t, false) {
        var n: nat, c: nat :| Fits(n, c) && Form(n, c) <= t && Spelled(t[n..], false);
        FormShaped(t, n, c);
        LaxBegins(s, i, n);
        LaxFrom(s, i + n);
        assert t[n..] == s[i + n..];
      }
    }
  }

  /** The writer stores a payload as text exactly when it is a sequence of forms, whatever
      numbers they spell. */
  lemma LaxExact(s: seq<Byte>)
    ensures IsValidUtf8(s) <==> Spelled(s, false)
  {
    LaxFrom(s, 0);
    assert s[0..] == s;
  }

  // ---------------------------------------------------------------- the reader's test

  // A shaped beginning is proper exactly when it is a whole character.
  lemma ProperBegins(s: seq<Byte>, n: nat)
    requires Shaped(s, n)
    ensures Proper(n, Code(s, n)) <==> U.Begins(s) && U.Length(s[0]) == n
  {
    assert n > 1 ==> U.Tail(s[1]);
    assert n > 2 ==> U.Tail(s[2]);
    assert n > 3 ==> U.Tail(s[3]);
  }

  lemma BeginsShaped(s: seq<Byte>)
    requires U.Begins(s)
    ensures Shaped(s, U.Length(s[0]))
  {
  }

  /** The reader takes a text exactly when it is a sequence of shortest forms of numbers up
      to 10FFFF other than surrogates. */
  lemma {:induction false} StrictExact(s: seq<Byte>)
    ensures U.Strict(s) <==> Spelled(s, true)
    decreases |s|
  {
    if s != [] {
      if U.Strict(s) {
        var n := U.Length(s[0]);
        BeginsShaped(s);
        ProperBegins(s, n);
        CodeForm(s, n);
        StrictExact(s[n..]);
      }
      if Spelled(s, true) {
        var n: nat, c: nat :| Fits(n, c) && Proper(n, c) && Form(n, c) <= s && Spelled(s[n..], true);
        FormShaped(s, n, c);
        ProperBegins(s, n);
        StrictExact(s[n..]);
      }
    }
  }

  lemma {:induction false} Looser(s: seq<Byte>)
    requires Spelled(s, true)
    ensures Spelled(s, false)
    decreases |s|
  {
    if s != [] {
      var n: nat, c: nat :| Fits(n, c) && Proper(n, c) && Form(n, c) <= s && Spelled(s[n..], true);
      Looser(s[n..]);
    }
  }

  /** Well-formed payloads are never stored in base64. */
  lemma StrictIsText(s: seq<Byte>)
    requires U.Strict(s)
    ensures IsValidUtf8(s)
  {
    StrictExact(s);
    Looser(s);
    LaxExact(s);
  }
}
