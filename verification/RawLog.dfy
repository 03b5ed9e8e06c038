/**
 The raw log files of src/storage.cpp: what a reader makes of a file cut off at any byte,
 and how the writer spreads lines over segments.
 */
module RawLog {

  import opened Common
  import opened Records
  import opened Writer

  type Text = seq<Byte>

  // ---------------------------------------------------------------- reading a file

  // Where the first newline at or after i is; |s| if there is none.
  function FindNewline(s: Text, i: nat): (p: nat)
    requires i <= |s|
    ensures i <= p <= |s| && (p < |s| ==> s[p] == NEWLINE)
    ensures forall k | i <= k < p :: s[k] != NEWLINE
    decreases |s| - i
  {
    if i == |s| || s[i] == NEWLINE then i else FindNewline(s, i + 1)
  }

  // What one call of RawLogReader::next makes of the rest of a file: a record, what is
  // left, and how many lines it gave up on. decode is the JSON library at work on a line.
  datatype Next<T> = Next(record: Option<T>, rest: Text, skipped: nat)

  function NextRecord<T>(decode: Text -> Option<T>, s: Text): (n: Next<T>)
    ensures n.record.Some? ==> |n.rest| < |s|
    decreases |s|
  {
    var at := FindNewline(s, 0);
    if at == |s| then Next(None, [], if s == [] then 0 else 1)
    else if at == 0 then NextRecord(decode, s[1..])
    else
      var r := decode(s[..at]);
      if r.Some? then Next(r, s[at + 1..], 0)
      else
        var n := NextRecord(decode, s[at + 1..]);
        n.(skipped := n.skipped + 1)
  }

  // All records of a file, and how many lines were given up on.
  datatype Contents<T> = Contents(records: seq<T>, skipped: nat)

  function ReadAll<T>(decode: Text -> Option<T>, s: Text): Contents<T>
    decreases |s|
  {
    var n := NextRecord(decode, s);
    if n.record.None? then Contents([], n.skipped)
    else
      var c := ReadAll(decode, n.rest);
      Contents([n.record.value] + c.records, n.skipped + c.skipped)
  }

  function File(lines: seq<Text>): Text { if lines == [] then [] else lines[0] + File(lines[1..]) }

  // How many lines lie wholly within the first p bytes of the file.
  function Survivors(lines: seq<Text>, p: nat): (k: nat)
    ensures k <= |lines|
  {
    if lines == [] || p < |lines[0]| then 0 else 1 + Survivors(lines[1..], p - |lines[0]|)
  }

  lemma {:induction false} SurvivorsExact(lines: seq<Text>, p: nat)
    ensures var k := Survivors(lines, p); |File(lines[..k])| <= p && (k < |lines| ==> |File(lines[..k + 1])| > p)
  {
    if lines != [] && p >= |lines[0]| {
      SurvivorsExact(lines[1..], p - |lines[0]|);
      var k := Survivors(lines[1..], p - |lines[0]|);
      assert lines[..k + 1][1..] == lines[1..][..k];
      if k + 1 < |lines| { assert lines[..k + 2][1..] == lines[1..][..k + 1]; }
    } else {
      assert lines[..0] == [];
      if lines != [] { assert lines[..1][1..] == []; }
    }
  }

  // A line that holds one newline, at its end; r is what the decoder makes of it.
  ghost predicate Holds<T>(decode: Text -> Option<T>, line: Text, r: Option<T>) {
    var n := |line| - 1;
    n > 0 && line[n] == NEWLINE && (forall k | 0 <= k < n :: line[k] != NEWLINE) && decode(line[..n]) == r
  }

  // Where the first newline is.
  lemma LineFramed<T>(decode: Text -> Option<T>, line: Text, r: Option<T>, rest: Text)
    requires Holds(decode, line, r)
    ensures var s, n := line + rest, |line| - 1; FindNewline(s, 0) == n && s[..n] == line[..n] && s[n + 1..] == rest
  {
    var s, n := line + rest, |line| - 1;
    assert s[n] == line[n] && forall k | 0 <= k < n :: s[k] == line[k];
    assert FindNewline(s, 0) == n;
  }

  // Part of a line, cut off before its newline, is given up on.
  lemma CutLineIsSkipped<T>(decode: Text -> Option<T>, line: Text, r: Option<T>, p: nat)
    requires Holds(decode, line, r) && p < |line|
    ensures NextRecord(decode, line[..p]) == Next(None, [], if p == 0 then 0 else 1)
  {
    assert FindNewline(line[..p], 0) == p;
  }

  // The records among the decoder's answers, and how many lines it refused.
  function Kept<T>(rs: seq<Option<T>>): seq<T> { if rs == [] then [] else if rs[0].Some? then [rs[0].value] + Kept(rs[1..]) else Kept(rs[1..]) }

  function Refused<T>(rs: seq<Option<T>>): nat { if rs == [] then 0 else (if rs[0].None? then 1 else 0) + Refused(rs[1..]) }

  // A whole line at the front is read as its record, or passed over and counted.
  lemma FirstLineRead<T>(decode: Text -> Option<T>, line: Text, r: Option<T>, tail: Text)
    requires Holds(decode, line, r)
    ensures var c := ReadAll(decode, tail);
      ReadAll(decode, line + tail)
        == if r.Some? then Contents([r.value] + c.records, c.skipped) else Contents(c.records, c.skipped + 1)
  {
    LineFramed(decode, line, r, tail);
    if r.None? {
      assert NextRecord(decode, line + tail) == NextRecord(decode, tail).(skipped := NextRecord(decode, tail).skipped + 1);
    }
  }

  // ---------------------------------------------------------------- any file

  predicate NoBreak(t: Text) { forall i | 0 <= i < |t| :: t[i] != NEWLINE }

  // The lines, each ended.
  function Ended(lines: seq<Text>): Text { if lines == [] then [] else (lines[0] + [NEWLINE]) + Ended(lines[1..]) }

  // What the decoder makes of the lines that are not blank.
  function Answered<T>(decode: Text -> Option<T>, lines: seq<Text>): seq<Option<T>> {
    if lines == [] then [] else (if lines[0] == [] then [] else [decode(lines[0])]) + Answered(decode, lines[1..])
  }

  lemma BlankRead<T>(decode: Text -> Option<T>, tail: Text)
    ensures ReadAll(decode, [NEWLINE] + tail) == ReadAll(decode, tail)
  {
    var s := [NEWLINE] + tail;
    assert s[1..] == tail && FindNewline(s, 0) == 0;
  }

  lemma NothingLeft<T>(decode: Text -> Option<T>, rest: Text)
    requires NoBreak(rest)
    ensures ReadAll(decode, rest) == Contents([], if rest == [] then 0 else 1)
  {
    assert FindNewline(rest, 0) == |rest|;
  }

  /** Whatever is in a file: its ended lines are read in order, those the decoder refuses
      counted as skipped, blank ones passed over uncounted, and an unended last line skipped
      and counted. */
  lemma {:induction false} AnyFileRead<T>(decode: Text -> Option<T>, lines: seq<Text>, rest: Text)
    requires (forall i | 0 <= i < |lines| :: NoBreak(lines[i])) && NoBreak(rest)
    ensures var answers := Answered(decode, lines);
      ReadAll(decode, Ended(lines) + rest) == Contents(Kept(answers), Refused(answers) + if rest == [] then 0 else 1)
  {
    if lines == [] {
      assert Ended(lines) + rest == rest;
      NothingLeft(decode, rest);
    } else {
      var line, tail := lines[0] + [NEWLINE], Ended(lines[1..]) + rest;
      AnyFileRead(decode, lines[1..], rest);
      Assoc(line, Ended(lines[1..]), rest);
      assert NoBreak(lines[0]);
      if lines[0] == [] {
        BlankRead(decode, tail);
        assert line == [NEWLINE] && Answered(decode, lines) == Answered(decode, lines[1..]);
      } else {
        assert line[..|line| - 1] == lines[0];
        FirstLineRead(decode, line, decode(lines[0]), tail);
        OneAnswer(decode(lines[0]), Answered(decode, lines[1..]));
      }
    }
  }

  lemma OneAnswer<T>(r: Option<T>, rs: seq<Option<T>>)
    ensures Kept([r] + rs) == (if r.Some? then [r.value] else []) + Kept(rs) && Refused([r] + rs) == (if r.None? then 1 else 0) + Refused(rs)
  {
    assert ([r] + rs)[1..] == rs;
  }

  // Every file is such lines and a remainder.
  lemma {:induction false} EveryFile(s: Text) returns (lines: seq<Text>, rest: Text)
    ensures s == Ended(lines) + rest && NoBreak(rest) && forall i | 0 <= i < |lines| :: NoBreak(lines[i])
    decreases |s|
  {
    var at := FindNewline(s, 0);
    if at == |s| {
      lines, rest := [], s;
      assert Ended(lines) + rest == s;
    } else {
      lines, rest := EveryFile(s[at + 1..]);
      var first := s[..at];
      assert s == (first + [NEWLINE]) + s[at + 1..];
      Assoc(first + [NEWLINE], Ended(lines), rest);
      assert ([first] + lines)[1..] == lines;
      lines := [first] + lines;
    }
  }

  lemma CutInside(line: Text, more: Text, p: nat)
    requires p <= |line + more|
    ensures (line + more)[..p] == if p < |line| then line[..p] else line + more[..p - |line|]
  {
  }

  // The outcome promised for a file of these lines cut at p.
  ghost predicate ReadsCut<T>(decode: Text -> Option<T>, lines: seq<Text>, rs: seq<Option<T>>, p: nat)
    requires |lines| == |rs| && p <= |File(lines)|
  {
    var k := Survivors(lines, p);
    ReadAll(decode, File(lines)[..p]) == Contents(Kept(rs[..k]), Refused(rs[..k]) + if |File(lines[..k])| == p then 0 else 1)
  }

  lemma CutFirst<T>(decode: Text -> Option<T>, lines: seq<Text>, rs: seq<Option<T>>, p: nat)
    requires |lines| == |rs| > 0 && p < |lines[0]| && p <= |File(lines)| && Holds(decode, lines[0], rs[0])
    ensures ReadsCut(decode, lines, rs, p)
  {
    CutInside(lines[0], File(lines[1..]), p);
    CutLineIsSkipped(decode, lines[0], rs[0], p);
    assert lines[..0] == [] && rs[..0] == [];
  }

  lemma CutLater<T>(decode: Text -> Option<T>, lines: seq<Text>, rs: seq<Option<T>>, p: nat)
    requires |lines| == |rs| > 0 && |lines[0]| <= p <= |File(lines)| && Holds(decode, lines[0], rs[0])
    requires p - |lines[0]| <= |File(lines[1..])| && ReadsCut(decode, lines[1..], rs[1..], p - |lines[0]|)
    ensures ReadsCut(decode, lines, rs, p)
  {
    var n := |lines[0]|;
    CutInside(lines[0], File(lines[1..]), p);
    FirstLineRead(decode, lines[0], rs[0], File(lines[1..])[..p - n]);
    var k := Survivors(lines[1..], p - n);
    OneMoreSurvivor(lines, rs, k);
  }

  lemma OneMoreSurvivor<T>(lines: seq<Text>, rs: seq<Option<T>>, k: nat)
    requires |lines| == |rs| > k
    ensures |File(lines[..k + 1])| == |lines[0]| + |File(lines[1..][..k])|
    ensures Kept(rs[..k + 1]) == if rs[0].Some? then [rs[0].value] + Kept(rs[1..][..k]) else Kept(rs[1..][..k])
    ensures Refused(rs[..k + 1]) == (if rs[0].None? then 1 else 0) + Refused(rs[1..][..k])
  {
    assert lines[..k + 1][0] == lines[0] && lines[..k + 1][1..] == lines[1..][..k];
    assert rs[..k + 1][0] == rs[0] && rs[..k + 1][1..] == rs[1..][..k];
  }

  lemma {:induction false} CutFile<T>(decode: Text -> Option<T>, lines: seq<Text>, rs: seq<Option<T>>, p: nat)
    requires |lines| == |rs| && p <= |File(lines)| && forall i | 0 <= i < |rs| :: Holds(decode, lines[i], rs[i])
    ensures ReadsCut(decode, lines, rs, p)
  {
    if lines == [] {
      assert File(lines)[..p] == [];
    } else if p < |lines[0]| {
      CutFirst(decode, lines, rs, p);
    } else {
      CutFile(decode, lines[1..], rs[1..], p - |lines[0]|);
      CutLater(decode, lines, rs, p);
    }
  }

  function Lines(rs: seq<Record>): seq<Text> { seq(|rs|, i requires 0 <= i < |rs| => Line(rs[i])) }

  // What the parser makes of each record's line.
  function Answers(rs: seq<Record>): seq<Option<Record>> {
    seq(|rs|, i requires 0 <= i < |rs| => if Readable(rs[i]) then Some(rs[i]) else None)
  }

  // The records the parser accepts, and the number it does not.
  function ReadableOf(rs: seq<Record>): seq<Record> {
    if rs == [] then [] else (if Readable(rs[0]) then [rs[0]] else []) + ReadableOf(rs[1..])
  }

  function UnreadableIn(rs: seq<Record>): nat {
    if rs == [] then 0 else (if Readable(rs[0]) then 0 else 1) + UnreadableIn(rs[1..])
  }

  lemma {:induction false} AnswersAre(rs: seq<Record>)
    ensures Kept(Answers(rs)) == ReadableOf(rs) && Refused(Answers(rs)) == UnreadableIn(rs)
  {
    if rs != [] {
      AnswersAre(rs[1..]);
      assert Answers(rs)[1..] == Answers(rs[1..]);
    }
  }

  ghost predicate AllHold<T>(decode: Text -> Option<T>, lines: seq<Text>, rs: seq<Option<T>>) {
    |lines| == |rs| && forall i | 0 <= i < |rs| :: Holds(decode, lines[i], rs[i])
  }

  // A parser that agrees with DecodeLine on whole lines, whatever it makes of others.
  ghost predicate ReadsLines(decode: Text -> Option<Record>) {
    forall r: Record | r.InRange() :: Holds(decode, Line(r), if Readable(r) then Some(r) else None)
  }

  lemma LinesHold(decode: Text -> Option<Record>, rs: seq<Record>)
    requires ReadsLines(decode) && forall i | 0 <= i < |rs| :: rs[i].InRange()
    ensures AllHold(decode, Lines(rs), Answers(rs))
  {
  }

  lemma AnswersCut(rs: seq<Record>, k: nat)
    requires k <= |rs|
    ensures Kept(Answers(rs)[..k]) == ReadableOf(rs[..k]) && Refused(Answers(rs)[..k]) == UnreadableIn(rs[..k])
    ensures Kept(Answers(rs)[k..]) == ReadableOf(rs[k..]) && Refused(Answers(rs)[k..]) == UnreadableIn(rs[k..])
  {
    assert Answers(rs)[..k] == Answers(rs[..k]) && Answers(rs)[k..] == Answers(rs[k..]);
    AnswersAre(rs[..k]);
    AnswersAre(rs[k..]);
  }

  lemma ReaderReads()
    ensures ReadsLines(DecodeLine)
  {
    forall r: Record | r.InRange() ensures Holds(DecodeLine, Line(r), if Readable(r) then Some(r) else None) { LineHolds(r); }
  }

  /** A crash at any point: reading any byte prefix of the file written for any records
      returns, in order, exactly those records whose newline survived and whose texts are
      well-formed UTF-8. It gives up on the others of them, and on the one line that was
      cut, and counts each. */
  lemma CrashTolerant(rs: seq<Record>, p: nat)
    requires p <= |File(Lines(rs))| && forall i | 0 <= i < |rs| :: rs[i].InRange()
    ensures var k := Survivors(Lines(rs), p);
      ReadAll(DecodeLine, File(Lines(rs))[..p])
        == Contents(ReadableOf(rs[..k]), UnreadableIn(rs[..k]) + if |File(Lines(rs)[..k])| == p then 0 else 1)
  {
    ReaderReads();
    LinesHold(DecodeLine, rs);
    CutFile(DecodeLine, Lines(rs), Answers(rs), p);
    AnswersCut(rs, Survivors(Lines(rs), p));
  }

  lemma LineHolds(r: Record)
    requires r.InRange()
    ensures Holds(DecodeLine, Line(r), if Readable(r) then Some(r) else None)
  {
    LineIsOneLine(r);
    LineRoundTrip(r);
    var s := Line(r);
    forall k | 0 <= k < |s| - 1 ensures s[k] != NEWLINE { assert s[k] == s[..|s| - 1][k]; }
  }

  /** A record with an overlong or surrogate payload, which the writer stores as text, is
      lost: its line is whole and is skipped. */
  lemma LaxPayloadLost(r: Record)
    requires r.InRange() && (r.raw == [0xC0, 0x80] || r.raw == [0xED, 0xA0, 0x80])
    ensures ReadAll(DecodeLine, Line(r)) == Contents([], 1)
  {
    LaxCheckPasses(r.raw);
    LineHolds(r);
    FirstLineRead(DecodeLine, Line(r), None, []);
    assert Line(r) + [] == Line(r);
  }

  // ---------------------------------------------------------------- reopening after a crash

  // What is left of the line that was cut.
  function Remnant(lines: seq<Text>, p: nat): Text
    requires p <= |File(lines)|
  {
    var at := |File(lines[..Survivors(lines, p)])|;
    if at <= p then File(lines)[at..p] else []
  }

  // The writer appends, so what it writes first joins the remnant on one line.
  function Merged(lines: seq<Text>, p: nat, more: seq<Text>): seq<Text>
    requires p <= |File(lines)| && more != []
  {
    lines[..Survivors(lines, p)] + [Remnant(lines, p) + more[0]] + more[1..]
  }

  lemma Tail<T>(a: seq<T>, b: seq<T>)
    requires a != []
    ensures (a + b)[0] == a[0] && (a + b)[1..] == a[1..] + b
  {
  }

  lemma Assoc<T>(a: seq<T>, b: seq<T>, c: seq<T>)
    ensures a + (b + c) == a + b + c
  {
  }

  lemma {:induction false} FileJoin(a: seq<Text>, b: seq<Text>)
    ensures File(a + b) == File(a) + File(b)
  {
    if a == [] {
      assert a + b == b;
    } else {
      FileJoin(a[1..], b);
      Tail(a, b);
      Assoc(a[0], File(a[1..]), File(b));
    }
  }

  lemma FileOf(lines: seq<Text>, a: seq<Text>, b: seq<Text>)
    requires lines == a + b
    ensures File(lines) == File(a) + File(b)
  {
    FileJoin(a, b);
  }

  lemma FileSplit(lines: seq<Text>, k: nat)
    requires k <= |lines|
    ensures File(lines) == File(lines[..k]) + File(lines[k..])
  {
    FileOf(lines, lines[..k], lines[k..]);
  }

  lemma Cut(s: Text, a: Text, b: Text, p: nat)
    requires s == a + b && |a| <= p <= |s|
    ensures s[..p] == a + s[|a|..p] && s[|a|..p] == b[..p - |a|]
  {
  }

  lemma Whole(lines: seq<Text>, p: nat)
    requires p <= |File(lines)|
    ensures File(lines)[..p] == File(lines[..Survivors(lines, p)]) + Remnant(lines, p)
  {
    var k := Survivors(lines, p);
    SurvivorsExact(lines, p);
    FileSplit(lines, k);
    Cut(File(lines), File(lines[..k]), File(lines[k..]), p);
  }

  lemma FileAt(lines: seq<Text>, k: nat)
    requires k < |lines|
    ensures File(lines[..k + 1]) == File(lines[..k]) + lines[k]
    ensures File(lines) == File(lines[..k]) + (lines[k] + File(lines[k + 1..]))
  {
    FileSplit(lines, k);
    FileHead(lines, k);
    LastOf(lines, k);
    FileMore(lines[..k], lines[k]);
  }

  lemma FileHead(lines: seq<Text>, k: nat)
    requires k < |lines|
    ensures File(lines[k..]) == lines[k] + File(lines[k + 1..])
  {
    assert lines[k..][0] == lines[k] && lines[k..][1..] == lines[k + 1..];
  }

  lemma LastOf(lines: seq<Text>, k: nat)
    requires k < |lines|
    ensures lines[..k + 1] == lines[..k] + [lines[k]]
  {
  }

  lemma Inside(file: Text, before: Text, line: Text, after: Text, p: nat)
    requires file == before + (line + after) && |before| <= p < |before| + |line|
    ensures file[|before|..p] == line[..p - |before|]
  {
  }

  // The remnant is the beginning of one line, short of its newline.
  lemma RemnantInside(lines: seq<Text>, p: nat)
    requires p <= |File(lines)|
    ensures var k, r := Survivors(lines, p), Remnant(lines, p);
      r == [] || (k < |lines| && |r| < |lines[k]| && r == lines[k][..|r|])
  {
    var k := Survivors(lines, p);
    SurvivorsExact(lines, p);
    if k < |lines| {
      FileAt(lines, k);
      Inside(File(lines), File(lines[..k]), lines[k], File(lines[k + 1..]), p);
    } else {
      assert lines[..k] == lines;
    }
  }

  // The file that results is the file of the merged lines.
  lemma MergedFile(lines: seq<Text>, p: nat, more: seq<Text>)
    requires p <= |File(lines)| && more != []
    ensures File(lines)[..p] + File(more) == File(Merged(lines, p, more))
  {
    var k, r := Survivors(lines, p), Remnant(lines, p);
    Whole(lines, p);
    FileJoin(lines[..k] + [r + more[0]], more[1..]);
    FileMore(lines[..k], r + more[0]);
    Regroup(File(lines[..k]), r, more[0], File(more[1..]));
  }

  lemma Regroup(a: Text, r: Text, m: Text, rest: Text)
    ensures (a + r) + (m + rest) == a + (r + m) + rest
  {
  }

  lemma JoinedHolds<T>(decode: Text -> Option<T>, cut: Text, r: Option<T>, n: nat, line: Text, r2: Option<T>)
    requires Holds(decode, cut, r) && n < |cut| && Holds(decode, line, r2)
    ensures var l := cut[..n] + line; Holds(decode, l, decode(l[..|l| - 1]))
  {
  }

  // What the parser makes of the merged line; nothing is known of it but that it is one.
  function Joined<T>(decode: Text -> Option<T>, lines: seq<Text>, p: nat, more: seq<Text>): Option<T>
    requires p <= |File(lines)| && more != []
  {
    var l := Remnant(lines, p) + more[0];
    if l == [] then None else decode(l[..|l| - 1])
  }

  lemma FirstHolds<T>(decode: Text -> Option<T>, lines: seq<Text>, rs: seq<Option<T>>, p: nat, more: seq<Text>, r2: Option<T>)
    requires AllHold(decode, lines, rs) && p <= |File(lines)| && more != [] && Holds(decode, more[0], r2)
    ensures Holds(decode, Remnant(lines, p) + more[0], Joined(decode, lines, p, more))
    ensures Remnant(lines, p) == [] ==> Joined(decode, lines, p, more) == r2
  {
    var k, r := Survivors(lines, p), Remnant(lines, p);
    RemnantInside(lines, p);
    if r == [] {
      assert r + more[0] == more[0];
    } else {
      JoinedHolds(decode, lines[k], rs[k], |r|, more[0], r2);
    }
  }

  lemma ThreeHold<T>(decode: Text -> Option<T>, lines: seq<Text>, rs: seq<Option<T>>, k: nat, l: Text, r: Option<T>, more: seq<Text>, rs2: seq<Option<T>>)
    requires AllHold(decode, lines, rs) && k <= |rs| && Holds(decode, l, r) && AllHold(decode, more, rs2) && rs2 != []
    ensures AllHold(decode, lines[..k] + [l] + more[1..], rs[..k] + [r] + rs2[1..])
  {
    var ls, ans := lines[..k] + [l] + more[1..], rs[..k] + [r] + rs2[1..];
    forall i | 0 <= i < |ans| ensures Holds(decode, ls[i], ans[i]) {
      if i > k { assert ls[i] == more[i - k] && ans[i] == rs2[i - k]; }
    }
  }

  lemma MergedHold<T>(decode: Text -> Option<T>, lines: seq<Text>, rs: seq<Option<T>>, p: nat, more: seq<Text>, rs2: seq<Option<T>>)
    requires AllHold(decode, lines, rs) && p <= |File(lines)| && AllHold(decode, more, rs2) && rs2 != []
    ensures AllHold(decode, Merged(lines, p, more), rs[..Survivors(lines, p)] + [Joined(decode, lines, p, more)] + rs2[1..])
  {
    FirstHolds(decode, lines, rs, p, more, rs2[0]);
    ThreeHold(decode, lines, rs, Survivors(lines, p), Remnant(lines, p) + more[0], Joined(decode, lines, p, more), more, rs2);
  }

  /** A reader of a reopened file, itself cut anywhere by a second crash, sees the lines
      that survived both; the merged line counts as one, and stands for whatever the parser
      makes of it. */
  lemma ReopenedCut<T>(decode: Text -> Option<T>, lines: seq<Text>, rs: seq<Option<T>>, p: nat,
                       more: seq<Text>, rs2: seq<Option<T>>, q: nat)
    requires AllHold(decode, lines, rs) && p <= |File(lines)| && AllHold(decode, more, rs2) && rs2 != []
    requires q <= |File(lines)[..p] + File(more)|
    ensures var ls, ans := Merged(lines, p, more), rs[..Survivors(lines, p)] + [Joined(decode, lines, p, more)] + rs2[1..];
      File(ls) == File(lines)[..p] + File(more) && |ls| == |ans| && ReadsCut(decode, ls, ans, q)
  {
    MergedHold(decode, lines, rs, p, more, rs2);
    MergedFile(lines, p, more);
    CutFile(decode, Merged(lines, p, more), rs[..Survivors(lines, p)] + [Joined(decode, lines, p, more)] + rs2[1..], q);
  }

  lemma {:induction false} AllSurvive(lines: seq<Text>)
    ensures Survivors(lines, |File(lines)|) == |lines|
  {
    if lines != [] { AllSurvive(lines[1..]); }
  }

  lemma ReadWhole<T>(decode: Text -> Option<T>, lines: seq<Text>, rs: seq<Option<T>>)
    requires |lines| == |rs| && ReadsCut(decode, lines, rs, |File(lines)|)
    ensures ReadAll(decode, File(lines)) == Contents(Kept(rs), Refused(rs))
  {
    AllSurvive(lines);
    assert File(lines)[..|File(lines)|] == File(lines) && lines[..|lines|] == lines && rs[..|rs|] == rs;
  }

  lemma {:induction false} KeptJoin<T>(a: seq<Option<T>>, b: seq<Option<T>>)
    ensures Kept(a + b) == Kept(a) + Kept(b) && Refused(a + b) == Refused(a) + Refused(b)
  {
    if a == [] {
      assert a + b == b;
    } else {
      KeptJoin(a[1..], b);
      Tail(a, b);
      if a[0].Some? { Assoc([a[0].value], Kept(a[1..]), Kept(b)); }
    }
  }

  lemma KeptThree<T>(a: seq<Option<T>>, m: Option<T>, b: seq<Option<T>>)
    ensures Kept(a + [m] + b) == Kept(a) + (if m.Some? then [m.value] else []) + Kept(b)
    ensures Refused(a + [m] + b) == Refused(a) + (if m.Some? then 0 else 1) + Refused(b)
  {
    KeptJoin(a + [m], b);
    KeptJoin(a, [m]);
    assert [m][1..] == [];
  }

  lemma ReopenedRead<T>(decode: Text -> Option<T>, lines: seq<Text>, rs: seq<Option<T>>, p: nat, more: seq<Text>, rs2: seq<Option<T>>)
    requires AllHold(decode, lines, rs) && p <= |File(lines)| && AllHold(decode, more, rs2) && rs2 != []
    ensures var k, m := Survivors(lines, p), Joined(decode, lines, p, more);
      && ReadAll(decode, File(lines)[..p] + File(more))
         == Contents(Kept(rs[..k]) + (if m.Some? then [m.value] else []) + Kept(rs2[1..]),
                     Refused(rs[..k]) + (if m.Some? then 0 else 1) + Refused(rs2[1..]))
      && (Remnant(lines, p) == [] ==> m == rs2[0])
  {
    var k, m := Survivors(lines, p), Joined(decode, lines, p, more);
    ReopenedCut(decode, lines, rs, p, more, rs2, |File(lines)[..p] + File(more)|);
    ReadWhole(decode, Merged(lines, p, more), rs[..k] + [m] + rs2[1..]);
    KeptThree(rs[..k], m, rs2[1..]);
    FirstHolds(decode, lines, rs, p, more, rs2[0]);
  }

  /** A log reopened after a crash. The survivors and the new records are read back as
      before, except that a cut line takes the line of the first new record with it: it is
      joined to the remnant, and what is read in its place is whatever the parser makes of
      the two together. With nothing left of a cut line, every new record is read. */
  lemma ReopenedLog(decode: Text -> Option<Record>, rs: seq<Record>, p: nat, more: seq<Record>)
    requires ReadsLines(decode) && more != [] && p <= |File(Lines(rs))|
    requires (forall i | 0 <= i < |rs| :: rs[i].InRange()) && forall i | 0 <= i < |more| :: more[i].InRange()
    ensures var kept, m := rs[..Survivors(Lines(rs), p)], Joined(decode, Lines(rs), p, Lines(more));
      && ReadAll(decode, File(Lines(rs))[..p] + File(Lines(more)))
         == Contents(ReadableOf(kept) + (if m.Some? then [m.value] else []) + ReadableOf(more[1..]),
                     UnreadableIn(kept) + (if m.Some? then 0 else 1) + UnreadableIn(more[1..]))
      && (Remnant(Lines(rs), p) == [] ==> m == if Readable(more[0]) then Some(more[0]) else None)
  {
    LinesHold(decode, rs);
    LinesHold(decode, more);
    ReopenedRead(decode, Lines(rs), Answers(rs), p, Lines(more), Answers(more));
    AnswersCut(rs, Survivors(Lines(rs), p));
    AnswersCut(more, 1);
  }

  /** The reader that insists on well-formed JSON refuses the merged line: exactly the first
      new record is lost, and only if part of a cut line was left. */
  lemma FirstNewRecordLost(rs: seq<Record>, p: nat, more: seq<Record>)
    requires more != [] && p <= |File(Lines(rs))| && Remnant(Lines(rs), p) != []
    requires (forall i | 0 <= i < |rs| :: rs[i].InRange()) && forall i | 0 <= i < |more| :: more[i].InRange()
    ensures var kept := rs[..Survivors(Lines(rs), p)];
      ReadAll(DecodeLine, File(Lines(rs))[..p] + File(Lines(more)))
        == Contents(ReadableOf(kept) + ReadableOf(more[1..]), UnreadableIn(kept) + 1 + UnreadableIn(more[1..]))
  {
    ReaderReads();
    ReopenedLog(DecodeLine, rs, p, more);
    JoinedSpoiled(Lines(rs), p, Lines(more), more[0], Remnant(Lines(rs), p) + Line(more[0]));
    assert ReadableOf(rs[..Survivors(Lines(rs), p)]) + [] == ReadableOf(rs[..Survivors(Lines(rs), p)]);
  }

  lemma JoinedNone<T>(decode: Text -> Option<T>, lines: seq<Text>, p: nat, more: seq<Text>, l: Text)
    requires p <= |File(lines)| && more != [] && l == Remnant(lines, p) + more[0] != [] && decode(l[..|l| - 1]) == None
    ensures Joined(decode, lines, p, more) == None
  {
  }

  lemma JoinedSpoiled(lines: seq<Text>, p: nat, more: seq<Text>, r: Record, l: Text)
    requires p <= |File(lines)| && more != [] && more[0] == Line(r) && Remnant(lines, p) != [] && l == Remnant(lines, p) + Line(r)
    ensures Joined(DecodeLine, lines, p, more) == None
  {
    SpoiledLine(Remnant(lines, p), r, l);
    JoinedNone(DecodeLine, lines, p, more, l);
  }

  class RawLogReader {
    const file: Text
    var pos: nat
    var skipped: nat

    ghost predicate Valid()
      reads this
    {
      pos <= |file|
    }

    constructor (file: Text)
      ensures Valid() && this.file == file && pos == 0 && skipped == 0
    {
      this.file, pos, skipped := file, 0, 0;
    }

    // Collect bytes up to a newline or the end of the file.
    method Collect() returns (buf: Text, ended: bool)
      requires Valid()
      modifies this
      ensures Valid() && skipped == old(skipped)
      ensures var s := file[old(pos)..]; var at := FindNewline(s, 0);
        buf == s[..at] && (ended <==> at == |s|) && pos == old(pos) + at + (if ended then 0 else 1)
    {
      buf, ended := [], true;
      var start := pos;
      while pos < |file|
        invariant start <= pos <= |file| && buf == file[start..pos] && ended && skipped == old(skipped)
        invariant forall k | start <= k < pos :: file[k] != NEWLINE
      {
        var c := file[pos];
        pos := pos + 1;
        if c == NEWLINE {
          ended := false;
          break;
        }
        buf := buf + [c];
      }
      ghost var s := file[start..];
      assert forall k | 0 <= k < |buf| :: s[k] == buf[k] && s[k] != NEWLINE;
      assert FindNewline(s, 0) == |buf|;
    }

    method ReadNext<T>(decode: Text -> Option<T>) returns (r: Option<T>)
      requires Valid()
      modifies this
      ensures Valid()
      ensures var n := NextRecord(decode, file[old(pos)..]); r == n.record && file[pos..] == n.rest && skipped == old(skipped) + n.skipped
    {
      while true
        invariant Valid() && skipped >= old(skipped)
        invariant var n, m := NextRecord(decode, file[old(pos)..]), NextRecord(decode, file[pos..]);
          n == m.(skipped := m.skipped + skipped - old(skipped))
        decreases |file| - pos
      {
        ghost var s := file[pos..];
        var buf, ended := Collect();
        if buf == [] {
          if ended { return None; }
          assert file[pos..] == s[1..];
          continue;
        }
        if ended {
          skipped := skipped + 1;
          return None;
        }
        assert file[pos..] == s[|buf| + 1..];
        r := decode(buf);
        if r.Some? { return; }
        skipped := skipped + 1;
      }
    }
  }

  // ---------------------------------------------------------------- rotation

  // The lines of each segment file; the last one is being written.
  datatype Log = Log(max: nat, segs: seq<seq<Text>>)

  function Append(log: Log, line: Text): Log
    requires log.segs != []
  {
    var k := |log.segs| - 1;
    var size := |File(log.segs[k])|;
    if size > 0 && size + |line| > log.max then log.(segs := log.segs + [[line]])
    else log.(segs := log.segs[k := log.segs[k] + [line]])
  }

  function Written(max: nat, lines: seq<Text>): (log: Log)
    ensures log.segs != [] && log.max == max
    decreases |lines|
  {
    if lines == [] then Log(max, [[]]) else Append(Written(max, lines[..|lines| - 1]), lines[|lines| - 1])
  }

  function All(segs: seq<seq<Text>>): seq<Text>
    decreases |segs|
  {
    if segs == [] then [] else All(segs[..|segs| - 1]) + segs[|segs| - 1]
  }

  lemma {:induction false} FileMore(lines: seq<Text>, line: Text)
    ensures File(lines + [line]) == File(lines) + line
  {
    if lines == [] {
      assert lines + [line] == [line] && [line][1..] == [];
    } else {
      FileMore(lines[1..], line);
      assert (lines + [line])[1..] == lines[1..] + [line];
    }
  }

  ghost predicate Solid(lines: seq<Text>) { forall i | 0 <= i < |lines| :: lines[i] != [] }

  ghost predicate Fits(seg: seq<Text>, max: nat) { Solid(seg) && (|File(seg)| <= max || |seg| == 1) }

  // The first line of the next segment would not have fitted in this one.
  ghost predicate FullUp(seg: seq<Text>, next: seq<Text>, max: nat) {
    seg != [] && next != [] && |File(seg)| + |next[0]| > max
  }

  // Every segment fits or is a single line, and a new one was begun only when needed.
  ghost predicate Balanced(log: Log) {
    && (forall i | 0 <= i < |log.segs| :: Fits(log.segs[i], log.max))
    && (forall i, j | 0 <= i && j == i + 1 < |log.segs| :: FullUp(log.segs[i], log.segs[j], log.max))
  }

  lemma SegmentGrows(seg: seq<Text>, line: Text, max: nat)
    requires Fits(seg, max) && line != [] && (|File(seg)| == 0 || |File(seg)| + |line| <= max)
    ensures Fits(seg + [line], max)
  {
    FileMore(seg, line);
    if seg != [] { assert seg[0] != []; }
  }

  lemma LineAlone(line: Text, max: nat)
    requires line != []
    ensures Fits([line], max) && |File([line])| == |line|
  {
    assert [line][1..] == [];
  }

  lemma AppendBalanced(log: Log, line: Text)
    requires log.segs != [] && Balanced(log) && line != []
    ensures Balanced(Append(log, line))
  {
    var k, log' := |log.segs| - 1, Append(log, line);
    var cur := log.segs[k];
    assert Fits(cur, log.max);
    if |log'.segs| == |log.segs| {
      SegmentGrows(cur, line, log.max);
      if k > 0 { assert FullUp(log.segs[k - 1], cur, log.max); }
    } else {
      LineAlone(line, log.max);
    }
  }

  lemma AppendKeepsAll(log: Log, line: Text)
    requires log.segs != []
    ensures All(Append(log, line).segs) == All(log.segs) + [line]
  {
    var k, log' := |log.segs| - 1, Append(log, line);
    if |log'.segs| == |log.segs| {
      assert log'.segs[..k] == log.segs[..k];
    } else {
      assert log'.segs[..k + 1] == log.segs;
    }
  }

  /** Whatever is written, the segments in order hold exactly the lines written; a
      segment exceeds the limit only if it holds a single line; and rotation happens only
      when the next line would have exceeded it. */
  lemma {:induction false} RotationExact(max: nat, lines: seq<Text>)
    requires Solid(lines)
    ensures var log := Written(max, lines); All(log.segs) == lines && Balanced(log)
    decreases |lines|
  {
    if lines == [] {
      var segs: seq<seq<Text>> := [[]];
      assert segs[..0] == [] && All(segs) == [];
    } else {
      var k := |lines| - 1;
      RotationExact(max, lines[..k]);
      AppendBalanced(Written(max, lines[..k]), lines[k]);
      AppendKeepsAll(Written(max, lines[..k]), lines[k]);
      assert lines[..k] + [lines[k]] == lines;
    }
  }

  class RawLogWriter {
    const max: nat
    var segs: seq<seq<Text>>
    var bytes: nat
    var rotations: nat

    ghost predicate Valid()
      reads this
    {
      segs != [] && bytes == |File(segs[|segs| - 1])| && rotations == |segs| - 1
    }

    constructor (max: nat)
      ensures Valid() && this.max == max && Log(max, segs) == Written(max, [])
    {
      this.max, segs, bytes, rotations := max, [[]], 0, 0;
    }

    method Write(r: Record)
      requires Valid()
      modifies this
      ensures Valid() && Log(max, segs) == Append(Log(max, old(segs)), Line(r))
    {
      var line := BuildLine(r);
      WriteLine(line);
    }

    method WriteLine(line: Text)
      requires Valid()
      modifies this
      ensures Valid() && Log(max, segs) == Append(Log(max, old(segs)), line)
    {
      if bytes > 0 && bytes + |line| > max {
        segs, bytes, rotations := segs + [[]], 0, rotations + 1;
      }
      var k := |segs| - 1;
      FileMore(segs[k], line);
      segs := segs[k := segs[k] + [line]];
      bytes := bytes + |line|;
      assert [] + [line] == [line];
    }
  }
}
