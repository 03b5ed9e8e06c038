/**
 RESP2 as a grammar, and that the parser accepts exactly what it derives: a relation
 between byte strings and replies that does not mention parsing.
 */
module RespGrammar {

  import opened Common
  import opened Decimal
  import opened Resp

  // ---------------------------------------------------------------- the grammar

  // An optional minus and digits, for a number that fits 64 bits.
  ghost predicate Number(arg: seq<Byte>, n: int) {
    && -0x8000_0000_0000_0000 <= n <= 0x7fff_ffff_ffff_ffff
    && ((|arg| > 0 && AllDigits(arg) && n == Value(arg))
        || (|arg| > 1 && arg[0] == '-' as int && AllDigits(arg[1..]) && n == -Value(arg[1..])))
  }

  // A first line and what comes after it.
  predicate Opens(s: seq<Byte>, tag: char, arg: seq<Byte>, tail: seq<Byte>)
    requires tag in "+-:$*"
  {
    s == [tag as int] + arg + [13, 10] + tail
  }

  // s is a spelling of r followed by rest.
  ghost predicate Spells(r: Reply, s: seq<Byte>, rest: seq<Byte>)
    decreases r, 0
  {
    match r
    case Simple(t) => OneLine(t) && Opens(s, '+', t, rest)
    case Err(t) => OneLine(t) && Opens(s, '-', t, rest)
    case Integer(n) => exists arg :: Number(arg, n) && Opens(s, ':', arg, rest)
    case Bulk(t) =>
      |t| <= 64 * 1024 * 1024 && exists arg, tail :: Number(arg, |t|) && Opens(s, '$', arg, tail) && Holds(tail, t, rest)
    case Nil => exists arg, n :: n < 0 && Number(arg, n) && (Opens(s, '$', arg, rest) || Opens(s, '*', arg, rest))
    case Array(items) =>
      |items| <= 1_000_000 && exists arg, tail :: Number(arg, |items|) && Opens(s, '*', arg, tail) && SpellsAll(items, tail, rest)
  }

  // The bytes of a bulk string, two more, and rest.
  predicate Holds(tail: seq<Byte>, t: seq<Byte>, rest: seq<Byte>) {
    |tail| == |t| + 2 + |rest| && tail[..|t|] == t && tail[|t| + 2..] == rest
  }

  ghost predicate SpellsAll(items: seq<Reply>, s: seq<Byte>, rest: seq<Byte>)
    decreases items, 1
  {
    if items == [] then s == rest
    else exists mid :: Spells(items[0], s, mid) && SpellsAll(items[1..], mid, rest)
  }

  // ---------------------------------------------------------------- lines and numbers

  lemma NumberExact(arg: seq<Byte>, n: int)
    ensures Number(arg, n) <==> ParseLL(arg) == Some(n)
    ensures Number(arg, n) ==> OneLine(arg)
  {
    if |arg| > 0 && arg[0] == MINUS { assert !IsDigit(arg[0]); }
    if Number(arg, n) {
      forall i | 0 <= i < |arg| ensures arg[i] != CR { assert i > 0 && arg[0] == MINUS ==> arg[i] == arg[1..][i - 1]; }
    }
  }

  lemma {:induction false} NoneBefore(s: seq<Byte>, i: nat, k: nat)
    requires i <= |s| && i <= k < FindCrlf(s, i)
    ensures !CrlfAt(s, k)
    decreases |s| - i
  {
    if i < k && i + 1 < |s| { NoneBefore(s, i + 1, k); }
  }

  lemma {:induction false} FoundAt(s: seq<Byte>, i: nat)
    requires i <= |s| && FindCrlf(s, i) + 2 <= |s|
    ensures CrlfAt(s, FindCrlf(s, i))
    decreases |s| - i
  {
    if i + 1 < |s| && !CrlfAt(s, i) { FoundAt(s, i + 1); }
  }

  lemma Rejoined(s: seq<Byte>, at: nat)
    requires 0 < at && CrlfAt(s, at)
    ensures s == [s[0]] + s[1..at] + [13, 10] + s[at + 2..]
  {
    var line, tail := s[..at], s[at + 2..];
    assert line == [s[0]] + s[1..at];
    assert s == line + [s[at], s[at + 1]] + tail;
  }

  // A first line of any kind, and what comes after it.
  predicate FirstLine(s: seq<Byte>, tag: Byte, arg: seq<Byte>, tail: seq<Byte>) {
    s == [tag] + arg + [13, 10] + tail && OneLine([tag] + arg)
  }

  lemma SplitLine(s: seq<Byte>, at: nat)
    requires 0 < at == FindCrlf(s, 0) && at + 2 <= |s|
    ensures FirstLine(s, s[0], s[1..at], s[at + 2..])
  {
    FoundAt(s, 0);
    Rejoined(s, at);
    var line := [s[0]] + s[1..at];
    assert line == s[..at];
    forall i | 0 <= i < at ensures !CrlfAt(line, i) { NoneBefore(s, 0, i); }
  }

  // ---------------------------------------------------------------- the parser reads the grammar

  lemma OpensLine(s: seq<Byte>, tag: char, arg: seq<Byte>, tail: seq<Byte>)
    requires tag in "+-:$*" && Opens(s, tag, arg, tail) && OneLine(arg)
    ensures ParseReply(s) == ParseBody(tag as int, arg, tail)
  {
    assert s == Line(tag as int, arg) + tail;
    ParseLine(tag as int, arg, tail);
  }

  // A line with a tag and a number.
  lemma NumberLine(s: seq<Byte>, tag: char, arg: seq<Byte>, n: int, tail: seq<Byte>)
    requires tag in "+-:$*" && Opens(s, tag, arg, tail) && Number(arg, n)
    ensures ParseReply(s) == ParseBody(tag as int, arg, tail) && ParseLL(arg) == Some(n)
  {
    NumberExact(arg, n);
    OpensLine(s, tag, arg, tail);
  }

  lemma CompleteBulk(t: seq<Byte>, s: seq<Byte>, arg: seq<Byte>, tail: seq<Byte>, rest: seq<Byte>)
    requires |t| <= 64 * 1024 * 1024 && Number(arg, |t|) && Opens(s, '$', arg, tail) && Holds(tail, t, rest)
    ensures ParseReply(s) == Done(Bulk(t), rest)
  {
    NumberLine(s, '$', arg, |t|, tail);
  }

  lemma CompleteNil(s: seq<Byte>, arg: seq<Byte>, n: int, rest: seq<Byte>)
    requires n < 0 && Number(arg, n) && (Opens(s, '$', arg, rest) || Opens(s, '*', arg, rest))
    ensures ParseReply(s) == Done(Nil, rest)
  {
    if Opens(s, '$', arg, rest) { NumberLine(s, '$', arg, n, rest); } else { NumberLine(s, '*', arg, n, rest); }
  }

  lemma CompleteArray(items: seq<Reply>, s: seq<Byte>, arg: seq<Byte>, tail: seq<Byte>, rest: seq<Byte>)
    requires |items| <= 1_000_000 && Number(arg, |items|) && Opens(s, '*', arg, tail) && ParseMany(|items|, tail) == Done(items, rest)
    ensures ParseReply(s) == Done(Array(items), rest)
  {
    NumberLine(s, '*', arg, |items|, tail);
    ArrayBody(arg, tail, items, rest);
  }

  lemma {:induction false} Complete(r: Reply, s: seq<Byte>, rest: seq<Byte>)
    requires Spells(r, s, rest)
    ensures ParseReply(s) == Done(r, rest)
    decreases r, 0
  {
    match r
    case Simple(t) => OpensLine(s, '+', t, rest);
    case Err(t) => OpensLine(s, '-', t, rest);
    case Integer(n) =>
      var arg :| Number(arg, n) && Opens(s, ':', arg, rest);
      NumberLine(s, ':', arg, n, rest);
    case Bulk(t) =>
      var arg, tail :| Number(arg, |t|) && Opens(s, '$', arg, tail) && Holds(tail, t, rest);
      CompleteBulk(t, s, arg, tail, rest);
    case Nil =>
      var arg, n :| n < 0 && Number(arg, n) && (Opens(s, '$', arg, rest) || Opens(s, '*', arg, rest));
      CompleteNil(s, arg, n, rest);
    case Array(items) =>
      var arg, tail :| Number(arg, |items|) && Opens(s, '*', arg, tail) && SpellsAll(items, tail, rest);
      CompleteAll(items, tail, rest);
      CompleteArray(items, s, arg, tail, rest);
  }

  lemma {:induction false} CompleteAll(items: seq<Reply>, s: seq<Byte>, rest: seq<Byte>)
    requires SpellsAll(items, s, rest)
    ensures ParseMany(|items|, s) == Done(items, rest)
    decreases items, 1
  {
    if items != [] {
      var mid :| Spells(items[0], s, mid) && SpellsAll(items[1..], mid, rest);
      Complete(items[0], s, mid);
      CompleteAll(items[1..], mid, rest);
      ManyStep(|items| - 1, s, items[0], mid, items[1..], rest);
      assert [items[0]] + items[1..] == items;
    }
  }

  lemma {:induction false} Sound(s: seq<Byte>, r: Reply, rest: seq<Byte>)
    requires ParseReply(s) == Done(r, rest)
    ensures Spells(r, s, rest)
    decreases |s|, 0
  {
    var at := FindCrlf(s, 0);
    SplitLine(s, at);
    SoundBody(s, s[0], s[1..at], s[at + 2..], r, rest);
  }

  lemma {:induction false} SoundBody(s: seq<Byte>, tag: Byte, arg: seq<Byte>, tail: seq<Byte>, r: Reply, rest: seq<Byte>)
    requires FirstLine(s, tag, arg, tail) && ParseBody(tag, arg, tail) == Done(r, rest)
    ensures Spells(r, s, rest)
    decreases |tail|, 2
  {
    forall i | 0 <= i < |arg| ensures !CrlfAt(arg, i) { assert !CrlfAt([tag] + arg, i + 1); }
    if tag == PLUS {
      assert Opens(s, '+', arg, tail);
    } else if tag == DASH {
      assert Opens(s, '-', arg, tail);
    } else {
      var n := ParseLL(arg).value;
      NumberExact(arg, n);
      if tag == COLON {
        assert Opens(s, ':', arg, tail);
      } else if n < 0 {
        assert tag == DOLLAR ==> Opens(s, '$', arg, tail);
        assert tag == STAR ==> Opens(s, '*', arg, tail);
      } else if tag == DOLLAR {
        assert Opens(s, '$', arg, tail) && Holds(tail, r.text, rest);
      } else {
        assert Opens(s, '*', arg, tail);
        SoundMany(n, tail, r.items, rest);
      }
    }
  }

  lemma {:induction false} SoundMany(n: nat, s: seq<Byte>, items: seq<Reply>, rest: seq<Byte>)
    requires ParseMany(n, s) == Done(items, rest)
    ensures SpellsAll(items, s, rest)
    decreases |s|, 1
  {
    if n > 0 {
      var p := ParseReply(s);
      Sound(s, p.value, p.rest);
      SoundMany(n - 1, p.rest, items[1..], rest);
    }
  }

  /** The parser returns a reply and what follows it exactly when the stream is a spelling
      of that reply and what follows. */
  lemma ParseExact(s: seq<Byte>, r: Reply, rest: seq<Byte>)
    ensures ParseReply(s) == Done(r, rest) <==> Spells(r, s, rest)
  {
    if ParseReply(s) == Done(r, rest) { Sound(s, r, rest); }
    if Spells(r, s, rest) { Complete(r, s, rest); }
  }

  // ---------------------------------------------------------------- what is refused

  ghost predicate Counts(arg: seq<Byte>) { exists n :: Number(arg, n) }

  ghost predicate CountsBeyond(arg: seq<Byte>, limit: int) { exists n :: Number(arg, n) && n > limit }

  // An unknown tag, or a count that is none or is beyond the limits.
  ghost predicate BrokenLine(tag: char, arg: seq<Byte>) {
    || tag !in "+-:$*"
    || (tag in ":$*" && !Counts(arg))
    || (tag == '$' && CountsBeyond(arg, 64 * 1024 * 1024))
    || (tag == '*' && CountsBeyond(arg, 1_000_000))
  }

  // The stream starts with an empty line, a broken one, or an array with a broken element.
  ghost predicate Broken(s: seq<Byte>)
    decreases |s|, 0
  {
    || [13, 10] <= s
    || exists tag: Byte, arg, tail ::
         FirstLine(s, tag, arg, tail) && (BrokenLine(tag as char, arg) || (tag as char == '*' && BrokenItem(arg, tail)))
  }

  // After some good elements, and before the count is reached.
  ghost predicate BrokenItem(arg: seq<Byte>, tail: seq<Byte>)
    decreases |tail|, 1
  {
    exists items, mid :: |mid| <= |tail| && SpellsAll(items, tail, mid) && CountsBeyond(arg, |items|) && Broken(mid)
  }

  lemma FirstLineParses(s: seq<Byte>, tag: Byte, arg: seq<Byte>, tail: seq<Byte>)
    requires FirstLine(s, tag, arg, tail)
    ensures ParseReply(s) == ParseBody(tag, arg, tail)
  {
    var line, p := [tag] + arg, |arg| + 1;
    assert s == line + [13, 10] + tail;
    forall k | 0 <= k < p ensures !CrlfAt(s, k) {
      assert s[k] == line[k] && (k < p - 1 ==> s[k + 1] == line[k + 1] && !CrlfAt(line, k));
    }
    FindFirst(s, 0, p);
    assert s[1..p] == arg && s[p + 2..] == tail;
  }

  lemma BadStep(n: nat, s: seq<Byte>, r: Reply, next: seq<Byte>)
    requires ParseReply(s) == Done(r, next) && ParseMany(n, next) == Bad
    ensures ParseMany(n + 1, s) == Bad
  {
  }

  lemma ManySplit(k: nat, s: seq<Byte>, mid: seq<Byte>)
    requires k > 0 && ParseMany(k, s).Done? && ParseMany(k, s).rest == mid
    ensures var p := ParseReply(s); p.Done? && ParseMany(k - 1, p.rest).Done? && ParseMany(k - 1, p.rest).rest == mid
  {
  }

  // k good elements, then a bad one before the n-th.
  lemma {:induction false} ManyThenBad(k: nat, n: nat, s: seq<Byte>, mid: seq<Byte>)
    requires k < n && ParseMany(k, s).Done? && ParseMany(k, s).rest == mid && ParseReply(mid) == Bad
    ensures ParseMany(n, s) == Bad
    decreases k
  {
    if k > 0 {
      ManySplit(k, s, mid);
      var p := ParseReply(s);
      ManyThenBad(k - 1, n - 1, p.rest, mid);
      BadStep(n - 1, s, p.value, p.rest);
    }
  }

  lemma {:induction false} BadAmong(n: nat, s: seq<Byte>) returns (items: seq<Reply>, mid: seq<Byte>)
    requires ParseMany(n, s) == Bad
    ensures |items| < n && |mid| <= |s| && SpellsAll(items, s, mid) && ParseReply(mid) == Bad
  {
    var p := ParseReply(s);
    if p == Bad { return [], s; }
    var rest;
    rest, mid := BadAmong(n - 1, p.rest);
    Sound(s, p.value, p.rest);
    items := [p.value] + rest;
    assert items[1..] == rest;
  }

  lemma BrokenLineIsBad(tag: Byte, arg: seq<Byte>, tail: seq<Byte>)
    requires BrokenLine(tag as char, arg)
    ensures ParseBody(tag, arg, tail) == Bad
  {
    var v := ParseLL(arg);
    if v.Some? { NumberExact(arg, v.value); }
    if n :| Number(arg, n) { NumberExact(arg, n); }
    if n :| Number(arg, n) && n > 1_000_000 { NumberExact(arg, n); }
    if n :| Number(arg, n) && n > 64 * 1024 * 1024 { NumberExact(arg, n); }
  }

  lemma BadIsBrokenLine(tag: Byte, arg: seq<Byte>, tail: seq<Byte>)
    requires ParseBody(tag, arg, tail) == Bad
    ensures BrokenLine(tag as char, arg) || (tag == STAR && ParseLL(arg).Some? && 0 <= ParseLL(arg).value && ParseMany(ParseLL(arg).value, tail) == Bad)
  {
    var v := ParseLL(arg);
    if v.Some? { NumberExact(arg, v.value); }
    if n :| Number(arg, n) { NumberExact(arg, n); }
  }

  lemma {:induction false} BrokenIsBad(s: seq<Byte>)
    requires Broken(s)
    ensures ParseReply(s) == Bad
    decreases |s|, 0
  {
    if [13, 10] <= s {
      assert CrlfAt(s, 0);
    } else {
      var tag: Byte, arg, tail :|
        FirstLine(s, tag, arg, tail) && (BrokenLine(tag as char, arg) || (tag as char == '*' && BrokenItem(arg, tail)));
      FirstLineParses(s, tag, arg, tail);
      if BrokenLine(tag as char, arg) { BrokenLineIsBad(tag, arg, tail); } else { BrokenItemIsBad(arg, tail); }
    }
  }

  lemma {:induction false} BrokenItemIsBad(arg: seq<Byte>, tail: seq<Byte>)
    requires BrokenItem(arg, tail)
    ensures ParseBody(STAR, arg, tail) == Bad
    decreases |tail|, 1
  {
    var items, mid :| |mid| <= |tail| && SpellsAll(items, tail, mid) && CountsBeyond(arg, |items|) && Broken(mid);
    var n :| Number(arg, n) && n > |items|;
    NumberExact(arg, n);
    BrokenIsBad(mid);
    CompleteAll(items, tail, mid);
    ManyThenBad(|items|, n, tail, mid);
  }

  lemma {:induction false} BadIsBroken(s: seq<Byte>)
    requires ParseReply(s) == Bad
    ensures Broken(s)
    decreases |s|, 0
  {
    var at := FindCrlf(s, 0);
    FoundAt(s, 0);
    if at > 0 {
      var tag, arg, tail := s[0], s[1..at], s[at + 2..];
      SplitLine(s, at);
      BadIsBrokenLine(tag, arg, tail);
      if !BrokenLine(tag as char, arg) { BadIsBrokenItem(arg, tail, ParseLL(arg).value); }
      assert FirstLine(s, tag, arg, tail);
    }
  }

  lemma {:induction false} BadIsBrokenItem(arg: seq<Byte>, tail: seq<Byte>, n: nat)
    requires ParseLL(arg) == Some(n) && ParseMany(n, tail) == Bad
    ensures BrokenItem(arg, tail)
    decreases |tail|, 1
  {
    var items, mid := BadAmong(n, tail);
    NumberExact(arg, n);
    assert CountsBeyond(arg, |items|);
    BadIsBroken(mid);
  }

  /** The parser reports a protocol error exactly on the broken streams. */
  lemma BadExact(s: seq<Byte>)
    ensures ParseReply(s) == Bad <==> Broken(s)
  {
    if ParseReply(s) == Bad { BadIsBroken(s); }
    if Broken(s) { BrokenIsBad(s); }
  }
}
