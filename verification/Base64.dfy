/** The base64 codec of src/storage.cpp (section 4 of RFC 4648). */
module Base64 {

  import opened Common

  const PAD: Byte := 61 // '='

  // The alphabet.
  function Sym(v: int): Byte
    requires 0 <= v < 64
  {
    if v < 26 then 65 + v else if v < 52 then 97 + v - 26 else if v < 62 then 48 + v - 52 else if v == 62 then 43 else 47
  }

  function Val(c: Byte): int {
    if 65 <= c <= 90 then c - 65
    else if 97 <= c <= 122 then c - 97 + 26
    else if 48 <= c <= 57 then c - 48 + 52
    else if c == 43 then 62
    else if c == 47 then 63
    else -1
  }

  lemma SymVal(v: int)
    requires 0 <= v < 64
    ensures Val(Sym(v)) == v && Sym(v) != PAD
  {
  }

  // Six bits of a 24-bit group, counted from the top.
  function Sextet(v: nat, k: nat): int
    requires k < 4
  {
    if k == 0 then v / 0x40000 % 64 else if k == 1 then v / 0x1000 % 64 else if k == 2 then v / 64 % 64 else v % 64
  }

  function Group(a: Byte, b: Byte, c: Byte): nat { a * 0x10000 + b * 0x100 + c }

  // The four symbols of a group.
  function Symbols(v: nat): seq<Byte> { [Sym(Sextet(v, 0)), Sym(Sextet(v, 1)), Sym(Sextet(v, 2)), Sym(Sextet(v, 3))] }

  function Encode(s: seq<Byte>): seq<Byte>
    decreases |s|
  {
    if s == [] then []
    else if |s| == 1 then Symbols(Group(s[0], 0, 0))[..2] + [PAD, PAD]
    else if |s| == 2 then Symbols(Group(s[0], s[1], 0))[..3] + [PAD]
    else Symbols(Group(s[0], s[1], s[2])) + Encode(s[3..])
  }

  // The decoder's 32-bit accumulator: never cleared or masked, it wraps.
  const WORD: int := 0x1_0000_0000

  function Wrap(x: nat): (w: nat)
    ensures w < WORD
  {
    if x < WORD then x else Wrap(x - WORD)
  }

  function Push(acc: nat, v: nat): nat { Wrap(acc * 64 + v) }

  // The eight bits above the lowest `bits`; only 0, 2, 4 and 6 occur.
  function Octet(acc: nat, bits: int): Byte {
    if bits == 0 then acc % 256 else if bits == 2 then acc / 4 % 256 else if bits == 4 then acc / 16 % 256 else acc / 64 % 256
  }

  // Decoding from the middle: acc and bits are what earlier characters left behind.
  function DecodeFrom(s: seq<Byte>, acc: nat, bits: int): seq<Byte>
    decreases |s|
  {
    if s == [] || s[0] == PAD then []
    else if Val(s[0]) < 0 then DecodeFrom(s[1..], acc, bits)
    else
      var acc' := Push(acc, Val(s[0]));
      if bits + 6 >= 8 then [Octet(acc', bits - 2)] + DecodeFrom(s[1..], acc', bits - 2)
      else DecodeFrom(s[1..], acc', bits + 6)
  }

  function Decode(s: seq<Byte>): seq<Byte> { DecodeFrom(s, 0, 0) }

  // ---------------------------------------------------------------- what the text is

  // Table 1 of RFC 4648.
  function Letter(v: int): char
    requires 0 <= v < 64
  {
    if v < 26 then ('A' as int + v) as char
    else if v < 52 then ('a' as int + v - 26) as char
    else if v < 62 then ('0' as int + v - 52) as char
    else if v == 62 then '+' else '/'
  }

  function At(s: seq<Byte>, i: nat): Byte { if i < |s| then s[i] else 0 }

  // Bits 6k to 6k + 5 of the input, zeros after its end.
  function BitsAt(s: seq<Byte>, k: nat): int {
    var i := k / 4 * 3;
    if k % 4 == 0 then At(s, i) / 4
    else if k % 4 == 1 then At(s, i) % 4 * 16 + At(s, i + 1) / 16
    else if k % 4 == 2 then At(s, i + 1) % 16 * 4 + At(s, i + 2) / 64
    else At(s, i + 2) % 64
  }

  lemma GroupText(a: Byte, b: Byte, c: Byte, k: nat)
    requires k < 4
    ensures Symbols(Group(a, b, c))[k] == Sym(BitsAt([a, b, c], k))
  {
    Sextets(a, b, c);
  }

  lemma BitsAtLater(s: seq<Byte>, k: nat)
    requires |s| >= 3 && k >= 4
    ensures BitsAt(s, k) == BitsAt(s[3..], k - 4)
  {
    assert k / 4 == (k - 4) / 4 + 1 && k % 4 == (k - 4) % 4;
  }

  lemma ThreeMore(n: int)
    ensures (n + 3 + 2) / 3 == (n + 2) / 3 + 1
  {
  }

  lemma EncodeGroup(s: seq<Byte>)
    requires |s| >= 3
    ensures Encode(s) == Symbols(Group(s[0], s[1], s[2])) + Encode(s[3..])
  {
  }

  lemma {:induction false} EncodeLength(s: seq<Byte>)
    ensures |Encode(s)| == (|s| + 2) / 3 * 4
    decreases |s|
  {
    if |s| >= 3 {
      EncodeGroup(s);
      EncodeLength(s[3..]);
      ThreeMore(|s| - 3);
    }
  }

  lemma BitsInRange(s: seq<Byte>, k: nat)
    ensures 0 <= BitsAt(s, k) < 64
  {
  }

  lemma GroupBits(s: seq<Byte>, k: nat)
    requires s != [] && k < 4
    ensures BitsAt(s, k) == BitsAt([s[0], At(s, 1), At(s, 2)], k)
  {
  }

  // The first four characters.
  lemma FirstText(s: seq<Byte>, k: nat)
    requires s != [] && k < 4
    ensures 0 <= BitsAt(s, k) < 64 && k < |Encode(s)|
    ensures Encode(s)[k] == if 6 * k < 8 * |s| then Sym(BitsAt(s, k)) else PAD
  {
    BitsInRange(s, k);
    GroupBits(s, k);
    GroupText(s[0], At(s, 1), At(s, 2), k);
    if |s| >= 3 { EncodeGroup(s); }
  }

  lemma LaterText(s: seq<Byte>, k: nat)
    requires |s| >= 3 && 4 <= k < |Encode(s)|
    ensures k - 4 < |Encode(s[3..])| && Encode(s)[k] == Encode(s[3..])[k - 4]
  {
    EncodeGroup(s);
  }

  /** Section 4 of RFC 4648: four characters for every started three bytes; character k is
      the alphabet's for bits 6k to 6k + 5 of the input, or padding if they are all past
      its end. */
  lemma {:induction false} EncodeExact(s: seq<Byte>, k: nat)
    requires k < |Encode(s)|
    ensures |Encode(s)| == (|s| + 2) / 3 * 4 && 0 <= BitsAt(s, k) < 64
    ensures Encode(s)[k] as char == if 6 * k < 8 * |s| then Letter(BitsAt(s, k)) else '='
    decreases |s|
  {
    EncodeLength(s);
    if k < 4 {
      FirstText(s, k);
    } else {
      LaterText(s, k);
      BitsAtLater(s, k);
      EncodeExact(s[3..], k - 4);
    }
  }

  // ---------------------------------------------------------------- bits

  lemma Div64(q: int, r: int)
    requires 0 <= r < 64
    ensures (q * 64 + r) / 64 == q && (q * 64 + r) % 64 == r
  {
  }

  lemma Div4096(q: int, r: int)
    requires 0 <= r < 0x1000
    ensures (q * 0x1000 + r) / 0x1000 == q
  {
  }

  lemma Div262144(q: int, r: int)
    requires 0 <= r < 0x40000
    ensures (q * 0x40000 + r) / 0x40000 == q
  {
  }

  lemma Sextets(a: Byte, b: Byte, c: Byte)
    ensures var v := Group(a, b, c);
      && Sextet(v, 0) == a / 4 && Sextet(v, 1) == a % 4 * 16 + b / 16
      && Sextet(v, 2) == b % 16 * 4 + c / 64 && Sextet(v, 3) == c % 64
  {
    var a1, a0, b1, b0, c1, c0 := a / 4, a % 4, b / 16, b % 16, c / 64, c % 64;
    SextetsOf(a1, a0, b1, b0, c1, c0);
  }

  lemma SextetsOf(a1: int, a0: int, b1: int, b0: int, c1: int, c0: int)
    requires 0 <= a1 < 64 && 0 <= a0 < 4 && 0 <= b1 < 16 && 0 <= b0 < 16 && 0 <= c1 < 4 && 0 <= c0 < 64
    ensures var v := (a1 * 4 + a0) * 0x10000 + (b1 * 16 + b0) * 0x100 + (c1 * 64 + c0);
      && Sextet(v, 0) == a1 && Sextet(v, 1) == a0 * 16 + b1 && Sextet(v, 2) == b0 * 4 + c1 && Sextet(v, 3) == c0
  {
    var v := (a1 * 4 + a0) * 0x10000 + (b1 * 16 + b0) * 0x100 + (c1 * 64 + c0);
    var x1, x2 := a0 * 16 + b1, b0 * 4 + c1;
    assert v == a1 * 0x40000 + x1 * 0x1000 + x2 * 64 + c0;
    Div262144(a1, x1 * 0x1000 + x2 * 64 + c0);
    Div4096(a1 * 64 + x1, x2 * 64 + c0);
    Div64(a1, x1);
    Div64(a1 * 0x1000 + x1 * 64 + x2, c0);
    Div64(a1 * 64 + x1, x2);
  }

  // Pushing keeps the low bits of the wrapped accumulator, whatever is above them.
  lemma PushKeeps(acc: nat, v: int)
    requires 0 <= acc < WORD && 0 <= v < 64
    ensures 0 <= Push(acc, v) < WORD
    ensures Push(acc, v) % 0x1000 == acc % 64 * 64 + v
    ensures Push(acc, v) % 0x400 == acc % 16 * 64 + v
    ensures Push(acc, v) % 0x100 == acc % 4 * 64 + v
  {
    var h := WrapIs(acc * 64 + v);
    Mod4096(acc / 64 - h * 0x10_0000, acc % 64 * 64 + v);
    Mod1024(acc / 16 - h * 0x40_0000, acc % 16 * 64 + v);
    Mod256(acc / 4 - h * 0x100_0000, acc % 4 * 64 + v);
  }

  lemma {:induction false} WrapIs(x: nat) returns (h: nat)
    ensures x == h * WORD + Wrap(x)
  {
    if x < WORD {
      h := 0;
    } else {
      h := WrapIs(x - WORD);
      h := h + 1;
    }
  }

  lemma Mod4096(q: int, r: int)
    requires 0 <= r < 0x1000
    ensures (q * 0x1000 + r) % 0x1000 == r
  {
  }

  lemma Mod1024(q: int, r: int)
    requires 0 <= r < 0x400
    ensures (q * 0x400 + r) % 0x400 == r
  {
  }

  lemma Mod256(q: int, r: int)
    requires 0 <= r < 0x100
    ensures (q * 0x100 + r) % 0x100 == r
  {
  }

  lemma OctetAt4(acc: nat, a: int, k: int)
    requires acc % 0x1000 == a * 16 + k && 0 <= k < 16 && 0 <= a < 256
    ensures acc / 16 % 256 == a && acc % 16 == k
  {
    var h := acc / 0x1000;
    assert acc == (h * 256 + a) * 16 + k;
    assert acc / 16 == h * 256 + a;
  }

  lemma OctetAt2(acc: nat, b: int, k: int)
    requires acc % 0x400 == b * 4 + k && 0 <= k < 4 && 0 <= b < 256
    ensures acc / 4 % 256 == b && acc % 4 == k
  {
    var h := acc / 0x400;
    assert acc == (h * 256 + b) * 4 + k;
    assert acc / 4 == h * 256 + b;
  }

  // ---------------------------------------------------------------- any text

  lemma ValExact(c: Byte, v: int)
    requires 0 <= v < 64
    ensures Val(c) == v <==> c as char == Letter(v)
    ensures -1 <= Val(c) < 64
  {
  }

  // The values of the alphabet's characters before the first padding; others are skipped.
  function Vals(s: seq<Byte>): seq<int> {
    if s == [] || s[0] as char == '=' then []
    else if Val(s[0]) < 0 then Vals(s[1..])
    else [Val(s[0])] + Vals(s[1..])
  }

  // Their bits, eight at a time, without an accumulator; bits left over are dropped.
  function Bytes(w: seq<int>): seq<int>
    decreases |w|
  {
    if |w| < 2 then [] else [w[0] * 4 + w[1] / 16] + AfterFour(w[1] % 16, w[2..])
  }

  function AfterFour(k: int, w: seq<int>): seq<int>
    decreases |w|
  {
    if w == [] then [] else [k * 16 + w[0] / 4] + AfterTwo(w[0] % 4, w[1..])
  }

  function AfterTwo(k: int, w: seq<int>): seq<int>
    decreases |w|
  {
    if w == [] then [] else [k * 64 + w[0]] + Bytes(w[1..])
  }

  // What is still to come when `bits` bits are pending.
  function Coming(bits: int, pend: int, w: seq<int>): seq<int> {
    if bits == 0 then Bytes(w) else if bits == 6 then Bytes([pend] + w) else if bits == 4 then AfterFour(pend, w) else AfterTwo(pend, w)
  }

  predicate Holds(acc: nat, bits: int, pend: int) {
    && acc < WORD && bits in {0, 2, 4, 6}
    && (bits == 6 ==> acc % 64 == pend) && (bits == 4 ==> acc % 16 == pend) && (bits == 2 ==> acc % 4 == pend)
  }

  // One more character of value v.
  lemma OneMore(acc: nat, bits: int, pend: int, v: int, w: seq<int>) returns (pend': int)
    requires Holds(acc, bits, pend) && 0 <= v < 64
    ensures var acc' := Push(acc, v);
      if bits == 0 then Holds(acc', 6, pend') && Coming(bits, pend, [v] + w) == Coming(6, pend', w)
      else Holds(acc', bits - 2, pend') && Coming(bits, pend, [v] + w) == [Octet(acc', bits - 2) as int] + Coming(bits - 2, pend', w)
  {
    var acc' := Push(acc, v);
    PushKeeps(acc, v);
    SixBits(acc, v);
    assert ([v] + w)[1..] == w && ([pend] + ([v] + w))[2..] == w;
    if bits == 0 {
      pend' := v;
    } else if bits == 6 {
      pend' := v % 16;
      OctetAt4(acc', pend * 4 + v / 16, v % 16);
    } else if bits == 4 {
      pend' := v % 4;
      OctetAt2(acc', pend * 16 + v / 4, v % 4);
    } else {
      pend' := 0;
    }
  }

  lemma {:induction false} DecodeState(s: seq<Byte>, acc: nat, bits: int, pend: int)
    requires Holds(acc, bits, pend)
    ensures DecodeFrom(s, acc, bits) == Coming(bits, pend, Vals(s))
    decreases |s|
  {
    if s != [] && s[0] != PAD {
      if Val(s[0]) < 0 {
        DecodeState(s[1..], acc, bits, pend);
      } else {
        ValExact(s[0], 0);
        var acc' := Push(acc, Val(s[0]));
        var pend' := OneMore(acc, bits, pend, Val(s[0]), Vals(s[1..]));
        DecodeState(s[1..], acc', if bits == 0 then 6 else bits - 2, pend');
      }
    }
  }

  /** For every text, well-formed or not: the decoder's wrapping accumulator yields the bits
      of the alphabet's characters before the first padding, eight at a time. */
  lemma DecodeExact(s: seq<Byte>)
    ensures Decode(s) == Bytes(Vals(s))
  {
    DecodeState(s, 0, 0, 0);
  }

  // ---------------------------------------------------------------- round trip

  lemma SixBits(acc: nat, x: int)
    requires 0 <= acc < WORD && 0 <= x < 64
    ensures Push(acc, x) % 64 == x
  {
    PushKeeps(acc, x);
    var p := Push(acc, x);
    assert p == p / 0x1000 * 0x1000 + (acc % 64 * 64 + x);
    Div64(p / 0x1000 * 64 + acc % 64, x);
  }

  // Two symbols give a byte and leave the top four bits of the next.
  lemma FirstByte(acc: nat, p: Byte, q: Byte, a1: int, a0: int, b1: int, rest: seq<Byte>) returns (acc': nat)
    requires 0 <= acc < WORD && 0 <= a1 < 64 && 0 <= a0 < 4 && 0 <= b1 < 16
    requires Val(p) == a1 && p != PAD && Val(q) == a0 * 16 + b1 && q != PAD
    ensures 0 <= acc' < WORD && acc' % 16 == b1
    ensures DecodeFrom([p, q] + rest, acc, 0) == [a1 * 4 + a0] + DecodeFrom(rest, acc', 4)
  {
    var acc1 := Push(acc, a1);
    acc' := Push(acc1, a0 * 16 + b1);
    PushKeeps(acc, a1);
    SixBits(acc, a1);
    PushKeeps(acc1, a0 * 16 + b1);
    OctetAt4(acc', a1 * 4 + a0, b1);
    var s := [p, q] + rest;
    assert s[1..] == [q] + rest && ([q] + rest)[1..] == rest;
  }

  lemma SecondByte(acc: nat, p: Byte, b1: int, b0: int, c1: int, rest: seq<Byte>) returns (acc': nat)
    requires 0 <= acc < WORD && acc % 16 == b1 && 0 <= b0 < 16 && 0 <= c1 < 4 && Val(p) == b0 * 4 + c1 && p != PAD
    ensures 0 <= acc' < WORD && acc' % 4 == c1
    ensures DecodeFrom([p] + rest, acc, 4) == [b1 * 16 + b0] + DecodeFrom(rest, acc', 2)
  {
    acc' := Push(acc, b0 * 4 + c1);
    PushKeeps(acc, b0 * 4 + c1);
    OctetAt2(acc', b1 * 16 + b0, c1);
    assert ([p] + rest)[1..] == rest;
  }

  lemma ThirdByte(acc: nat, p: Byte, c1: int, c0: int, rest: seq<Byte>) returns (acc': nat)
    requires 0 <= acc < WORD && acc % 4 == c1 && 0 <= c0 < 64 && Val(p) == c0 && p != PAD
    ensures 0 <= acc' < WORD
    ensures DecodeFrom([p] + rest, acc, 2) == [c1 * 64 + c0] + DecodeFrom(rest, acc', 0)
  {
    acc' := Push(acc, c0);
    PushKeeps(acc, c0);
    assert Octet(acc', 0) == c1 * 64 + c0;
    assert ([p] + rest)[1..] == rest;
  }

  // A group taken apart: three bytes as six pieces, four symbols that carry them.
  datatype Pieces = Pieces(a1: int, a0: int, b1: int, b0: int, c1: int, c0: int, p: Byte, q: Byte, r: Byte, t: Byte)
  {
    predicate Fit() {
      && 0 <= a1 < 64 && 0 <= a0 < 4 && 0 <= b1 < 16 && 0 <= b0 < 16 && 0 <= c1 < 4 && 0 <= c0 < 64
      && Val(p) == a1 && Val(q) == a0 * 16 + b1 && Val(r) == b0 * 4 + c1 && Val(t) == c0
      && p != PAD && q != PAD && r != PAD && t != PAD
    }
  }

  lemma Apart(a: Byte, b: Byte, c: Byte) returns (d: Pieces)
    ensures d.Fit() && a == d.a1 * 4 + d.a0 && b == d.b1 * 16 + d.b0 && c == d.c1 * 64 + d.c0
    ensures Symbols(Group(a, b, c)) == [d.p, d.q, d.r, d.t]
  {
    Sextets(a, b, c);
    var w, x, y, z := a / 4, a % 4 * 16 + b / 16, b % 16 * 4 + c / 64, c % 64;
    SymVal(w);
    SymVal(x);
    SymVal(y);
    SymVal(z);
    d := Pieces(a / 4, a % 4, b / 16, b % 16, c / 64, c % 64, Sym(w), Sym(x), Sym(y), Sym(z));
  }

  lemma TwoSymbols(d: Pieces, acc: nat)
    requires d.Fit() && acc < WORD
    ensures DecodeFrom([d.p, d.q] + [PAD, PAD], acc, 0) == [d.a1 * 4 + d.a0]
  {
    var _ := FirstByte(acc, d.p, d.q, d.a1, d.a0, d.b1, [PAD, PAD]);
  }

  lemma ThreeSymbols(d: Pieces, acc: nat)
    requires d.Fit() && acc < WORD
    ensures DecodeFrom([d.p, d.q] + ([d.r] + [PAD]), acc, 0) == [d.a1 * 4 + d.a0, d.b1 * 16 + d.b0]
  {
    var acc1 := FirstByte(acc, d.p, d.q, d.a1, d.a0, d.b1, [d.r] + [PAD]);
    var _ := SecondByte(acc1, d.r, d.b1, d.b0, d.c1, [PAD]);
  }

  lemma FourSymbols(d: Pieces, acc: nat, rest: seq<Byte>) returns (acc': nat)
    requires d.Fit() && acc < WORD
    ensures acc' < WORD
    ensures DecodeFrom([d.p, d.q] + ([d.r] + ([d.t] + rest)), acc, 0)
         == [d.a1 * 4 + d.a0] + ([d.b1 * 16 + d.b0] + ([d.c1 * 64 + d.c0] + DecodeFrom(rest, acc', 0)))
  {
    var acc1 := FirstByte(acc, d.p, d.q, d.a1, d.a0, d.b1, [d.r] + ([d.t] + rest));
    var acc2 := SecondByte(acc1, d.r, d.b1, d.b0, d.c1, [d.t] + rest);
    acc' := ThirdByte(acc2, d.t, d.c1, d.c0, rest);
  }

  lemma Regroup(p: Byte, q: Byte, r: Byte, t: Byte, rest: seq<Byte>)
    ensures [p, q, r, t] + rest == [p, q] + ([r] + ([t] + rest))
    ensures [p, q, r, t][..2] == [p, q] && [p, q, r, t][..3] + [PAD] == [p, q] + ([r] + [PAD])
    ensures [p] + ([q] + ([r] + rest)) == [p, q, r] + rest
  {
  }

  // The same with the bytes put together; sym is what the encoder wrote for them.
  ghost predicate Carries(sym: seq<Byte>, d: Pieces, a: Byte, b: Byte, c: Byte) {
    && d.Fit() && sym == [d.p, d.q, d.r, d.t]
    && a == d.a1 * 4 + d.a0 && b == d.b1 * 16 + d.b0 && c == d.c1 * 64 + d.c0
  }

  lemma ThreeBytes(sym: seq<Byte>, d: Pieces, a: Byte, b: Byte, c: Byte, acc: nat, rest: seq<Byte>) returns (acc': nat)
    requires Carries(sym, d, a, b, c) && acc < WORD
    ensures acc' < WORD && DecodeFrom(sym + rest, acc, 0) == [a, b, c] + DecodeFrom(rest, acc', 0)
  {
    acc' := FourSymbols(d, acc, rest);
    Regroup(d.p, d.q, d.r, d.t, rest);
    Regroup(a, b, c, 0, DecodeFrom(rest, acc', 0));
  }

  // What Encode writes first.
  lemma EncodeIs(s: seq<Byte>, sym: seq<Byte>)
    requires s != [] && sym == Symbols(Group(s[0], if |s| > 1 then s[1] else 0, if |s| > 2 then s[2] else 0))
    ensures Encode(s) == if |s| == 1 then sym[..2] + [PAD, PAD] else if |s| == 2 then sym[..3] + [PAD] else sym + Encode(s[3..])
  {
  }

  lemma {:induction false} RoundTripFrom(s: seq<Byte>, acc: nat)
    requires acc < WORD
    ensures DecodeFrom(Encode(s), acc, 0) == s
    decreases |s|
  {
    if s != [] {
      var a, b, c := s[0], if |s| > 1 then s[1] else 0, if |s| > 2 then s[2] else 0;
      var d := Apart(a, b, c);
      var sym := [d.p, d.q, d.r, d.t];
      EncodeIs(s, sym);
      Regroup(d.p, d.q, d.r, d.t, []);
      if |s| == 1 {
        TwoSymbols(d, acc);
      } else if |s| == 2 {
        ThreeSymbols(d, acc);
      } else {
        var acc' := ThreeBytes(sym, d, a, b, c, acc, Encode(s[3..]));
        RoundTripFrom(s[3..], acc');
        assert [a, b, c] + s[3..] == s;
      }
    }
  }

  /** Decoding undoes encoding for every byte string, although the accumulator is never
      masked and wraps modulo 2^32. */
  lemma RoundTrip(s: seq<Byte>)
    ensures Decode(Encode(s)) == s
  {
    RoundTripFrom(s, 0);
  }

  // Nothing in the output needs escaping in a JSON string or ends a line, and all of it
  // is ASCII.
  lemma {:induction false} Plain(s: seq<Byte>)
    ensures forall i | 0 <= i < |Encode(s)| :: 32 < Encode(s)[i] < 128 && Encode(s)[i] != 34 && Encode(s)[i] != 92
    decreases |s|
  {
    if |s| > 2 { Plain(s[3..]); }
  }

  // ---------------------------------------------------------------- the loops

  method EncodeLoop(s: seq<Byte>) returns (out: seq<Byte>)
    ensures out == Encode(s)
  {
    out := [];
    var i := 0;
    while i + 3 <= |s|
      invariant i <= |s| && out + Encode(s[i..]) == Encode(s)
    {
      assert s[i..][3..] == s[i + 3..];
      ghost var four := Symbols(Group(s[i], s[i + 1], s[i + 2]));
      assert out + (four + Encode(s[i + 3..])) == (out + four) + Encode(s[i + 3..]);
      out := out + Symbols(Group(s[i], s[i + 1], s[i + 2]));
      i := i + 3;
    }
    if i + 1 == |s| {
      assert s[i..] == [s[i]];
      out := out + Symbols(Group(s[i], 0, 0))[..2] + [PAD, PAD];
    } else if i + 2 == |s| {
      assert s[i..] == [s[i], s[i + 1]];
      out := out + Symbols(Group(s[i], s[i + 1], 0))[..3] + [PAD];
    } else {
      assert s[i..] == [];
    }
  }

  method DecodeLoop(s: seq<Byte>) returns (out: seq<Byte>)
    ensures out == Decode(s)
  {
    out := [];
    var acc: nat, bits: int := 0, 0;
    for i := 0 to |s|
      invariant bits in {0, 2, 4, 6} && out + DecodeFrom(s[i..], acc, bits) == Decode(s)
    {
      assert s[i..][0] == s[i] && s[i..][1..] == s[i + 1..];
      if s[i] == PAD { return; }
      var v := Val(s[i]);
      if v < 0 { continue; }
      acc, bits := Push(acc, v), bits + 6;
      if bits >= 8 {
        bits := bits - 8;
        ghost var was := out;
        out := out + [Octet(acc, bits)];
        assert out + DecodeFrom(s[i + 1..], acc, bits) == was + ([Octet(acc, bits)] + DecodeFrom(s[i + 1..], acc, bits));
      }
    }
  }
}
