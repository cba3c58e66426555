/** `canonicalize_meeting_content`, with Unicode NFC normalisation taken as the identity. */
module MeetingText {
  import opened PyText

  // ---- The steps ---------------------------------------------------------------------

  function UnifyLineEnds(s: string): string {
    Replace(Replace(s, "\r\n", "\n"), "\r", "\n")
  }

  /** `text.split("\n")` */
  function Lines(s: string): (r: seq<string>)
    ensures r != []
  {
    if s == "" then [""]
    else if s[0] == '\n' then [""] + Lines(s[1..])
    else [[s[0]] + Lines(s[1..])[0]] + Lines(s[1..])[1..]
  }

  /** `"\n".join(lines)` */
  function JoinLines(lines: seq<string>): string {
    if lines == [] then ""
    else if |lines| == 1 then lines[0]
    else lines[0] + ("\n" + JoinLines(lines[1..]))
  }

  function RStripEach(lines: seq<string>): seq<string> {
    seq(|lines|, i requires 0 <= i < |lines| => RStrip(lines[i]))
  }

  function NewlineRun(s: string): (n: nat)
    ensures n <= |s| && (forall i | 0 <= i < n :: s[i] == '\n') && (n < |s| ==> s[n] != '\n')
  {
    if s != "" && s[0] == '\n' then 1 + NewlineRun(s[1..]) else 0
  }

  /** `re.sub(r"\n{3,}", "\n\n", s)`: a run of newlines is matched as a whole. */
  function Collapse(s: string): string {
    if s == "" then ""
    else if s[0] == '\n' then
      var n := NewlineRun(s);
      (if n >= 3 then "\n\n" else s[..n]) + Collapse(s[n..])
    else [s[0]] + Collapse(s[1..])
  }

  /** `re.sub(r"^\n+", "", s)` */
  function TrimStart(s: string): string {
    if s != "" && s[0] == '\n' then TrimStart(s[1..]) else s
  }

  /** `re.sub(r"\n+$", "", s)` */
  function TrimEnd(s: string): string {
    if s != "" && s[|s| - 1] == '\n' then TrimEnd(s[..|s| - 1]) else s
  }

  function Canonicalize(text: string): string {
    var unified := UnifyLineEnds(text);
    var stripped := JoinLines(RStripEach(Lines(unified)));
    TrimEnd(TrimStart(Collapse(stripped)))
  }

  // ---- What comes out ----------------------------------------------------------------

  ghost predicate NoTriple(s: string) {
    forall i | 0 <= i < |s| - 2 :: !(s[i] == s[i + 1] == s[i + 2] == '\n')
  }

  /** No line ends in whitespace, said of characters. */
  ghost predicate Tidy(s: string) {
    forall i | 0 <= i < |s| && IsSpace(s[i]) && s[i] != '\n' :: i + 1 < |s| && s[i + 1] != '\n'
  }

  /** The shape of the output: no carriage return, no line with trailing whitespace, never
      three newlines in a row, and no newline at either end. */
  ghost predicate Clean(s: string) {
    && '\r' !in s
    && (forall l | l in Lines(s) :: RStrip(l) == l)
    && NoTriple(s)
    && (s != "" ==> s[0] != '\n' && s[|s| - 1] != '\n')
  }

  lemma {:induction false} LinesArePlain(s: string)
    ensures forall l | l in Lines(s) :: '\n' !in l
    ensures '\r' !in s ==> forall l | l in Lines(s) :: '\r' !in l
  {
    if s != "" { LinesArePlain(s[1..]); }
  }

  lemma {:induction false} JoinOfLines(s: string)
    ensures JoinLines(Lines(s)) == s
  {
    if s != "" {
      JoinOfLines(s[1..]);
      var r := Lines(s[1..]);
      assert s == [s[0]] + s[1..];
      if s[0] == '\n' {
        assert Lines(s)[1..] == r;
      } else {
        assert Lines(s)[1..] == r[1..];
        if |r| > 1 {
          assert ([s[0]] + r[0]) + ("\n" + JoinLines(r[1..])) == [s[0]] + (r[0] + ("\n" + JoinLines(r[1..])));
        }
      }
    }
  }

  lemma RStripKeepsOut(l: string, c: char)
    requires c !in l
    ensures c !in RStrip(l)
  {
    RStripSplits(l);
    assert forall x | x in RStrip(l) :: x in l;
  }

  lemma {:induction false} JoinKeepsOut(lines: seq<string>, c: char)
    requires c != '\n' && forall l | l in lines :: c !in l
    ensures c !in JoinLines(lines)
  {
    if |lines| > 1 { JoinKeepsOut(lines[1..], c); }
  }

  lemma LastNotSpace(l: string)
    requires RStrip(l) == l && l != ""
    ensures !IsSpace(l[|l| - 1])
  {
    RStripSplits(l);
  }

  lemma TidyConcat(l: string, tail: string)
    requires '\n' !in l && RStrip(l) == l && Tidy(tail)
    ensures Tidy(l) && Tidy(l + tail)
  {
    if l != "" { LastNotSpace(l); }
    forall i | 0 <= i < |l| ensures l[i] != '\n' { assert l[i] in l; }
    var s := l + tail;
    forall i | 0 <= i < |s| && IsSpace(s[i]) && s[i] != '\n' ensures i + 1 < |s| && s[i + 1] != '\n' {
      if i >= |l| { assert s[i] == tail[i - |l|]; }
    }
  }

  lemma {:induction false} JoinIsTidy(lines: seq<string>)
    requires forall l | l in lines :: '\n' !in l && RStrip(l) == l
    ensures Tidy(JoinLines(lines))
  {
    if |lines| == 1 {
      TidyConcat(lines[0], "");
    } else if |lines| > 1 {
      JoinIsTidy(lines[1..]);
      var more := JoinLines(lines[1..]);
      assert Tidy("\n" + more) by {
        forall i | 0 <= i < |"\n" + more| && IsSpace(("\n" + more)[i]) && ("\n" + more)[i] != '\n'
          ensures i + 1 < |"\n" + more| && ("\n" + more)[i + 1] != '\n'
        {
          assert ("\n" + more)[i] == more[i - 1];
        }
      }
      TidyConcat(lines[0], "\n" + more);
    }
  }

  lemma {:induction false} CollapseShape(s: string)
    ensures Collapse(s) == "" <==> s == ""
    ensures s != "" ==> Collapse(s)[0] == s[0]
    ensures forall c | c in Collapse(s) :: c in s
  {
    if s != "" {
      var n := NewlineRun(s);
      if s[0] == '\n' {
        CollapseShape(s[n..]);
        assert '\n' in s;
        assert forall c | c in s[n..] :: c in s;
        assert forall c | c in s[..n] :: c in s;
      } else {
        CollapseShape(s[1..]);
      }
    }
  }

  /** One run of newlines in front of something else. */
  lemma RunThenRest(run: string, rest: string)
    requires run in {"\n", "\n\n"} && (rest != "" ==> rest[0] != '\n') && NoTriple(rest) && Tidy(rest)
    ensures NoTriple(run + rest) && Tidy(run + rest)
  {
    var s := run + rest;
    forall i | 0 <= i < |s| - 2 ensures !(s[i] == s[i + 1] == s[i + 2] == '\n') {
      if i >= |run| { assert s[i] == rest[i - |run|] && s[i + 1] == rest[i + 1 - |run|]; }
    }
    forall i | 0 <= i < |s| && IsSpace(s[i]) && s[i] != '\n' ensures i + 1 < |s| && s[i + 1] != '\n' {
      assert s[i] == rest[i - |run|];
    }
  }

  lemma CharThenRest(c: char, rest: string)
    requires c != '\n' && NoTriple(rest) && Tidy(rest) && (IsSpace(c) ==> rest != "" && rest[0] != '\n')
    ensures NoTriple([c] + rest) && Tidy([c] + rest)
  {
    var s := [c] + rest;
    forall i | 0 <= i < |s| - 2 ensures !(s[i] == s[i + 1] == s[i + 2] == '\n') {
      if i > 0 { assert s[i] == rest[i - 1] && s[i + 1] == rest[i]; }
    }
    forall i | 0 <= i < |s| && IsSpace(s[i]) && s[i] != '\n' ensures i + 1 < |s| && s[i + 1] != '\n' {
      if i > 0 { assert s[i] == rest[i - 1]; }
    }
  }

  lemma TidySuffix(s: string, n: nat)
    requires Tidy(s) && n <= |s|
    ensures Tidy(s[n..])
  {
    forall i | 0 <= i < |s[n..]| && IsSpace(s[n..][i]) && s[n..][i] != '\n'
      ensures i + 1 < |s[n..]| && s[n..][i + 1] != '\n'
    {
      assert s[n + i] == s[n..][i];
    }
  }

  lemma {:induction false} CollapseTidies(s: string)
    requires Tidy(s)
    ensures NoTriple(Collapse(s)) && Tidy(Collapse(s))
  {
    if s != "" {
      if s[0] == '\n' {
        var n := NewlineRun(s);
        TidySuffix(s, n);
        CollapseTidies(s[n..]);
        CollapseShape(s[n..]);
        assert n == 1 ==> s[..n] == "\n";
        assert n == 2 ==> s[..n] == "\n\n";
        RunThenRest(if n >= 3 then "\n\n" else s[..n], Collapse(s[n..]));
      } else {
        TidySuffix(s, 1);
        CollapseTidies(s[1..]);
        CollapseShape(s[1..]);
        CharThenRest(s[0], Collapse(s[1..]));
      }
    }
  }

  lemma {:induction false} TrimStartCuts(s: string)
    ensures |TrimStart(s)| <= |s| && TrimStart(s) == s[|s| - |TrimStart(s)|..]
    ensures TrimStart(s) != "" ==> TrimStart(s)[0] != '\n'
  {
    if s != "" && s[0] == '\n' { TrimStartCuts(s[1..]); }
  }

  lemma {:induction false} TrimEndCuts(s: string)
    ensures TrimEnd(s) <= s && forall i | |TrimEnd(s)| <= i < |s| :: s[i] == '\n'
    ensures TrimEnd(s) != "" ==> TrimEnd(s)[|TrimEnd(s)| - 1] != '\n'
  {
    if s != "" && s[|s| - 1] == '\n' { TrimEndCuts(s[..|s| - 1]); }
  }

  lemma SliceKeeps(s: string, lo: nat, hi: nat)
    requires lo <= hi <= |s| && NoTriple(s) && '\r' !in s
    ensures NoTriple(s[lo..hi]) && '\r' !in s[lo..hi]
  {
    var t := s[lo..hi];
    forall i | 0 <= i < |t| - 2 ensures !(t[i] == t[i + 1] == t[i + 2] == '\n') {
      assert t[i] == s[lo + i] && t[i + 1] == s[lo + i + 1] && t[i + 2] == s[lo + i + 2];
    }
    assert forall c | c in t :: c in s;
  }

  lemma TidyCut(s: string, n: nat)
    requires Tidy(s) && n <= |s| && (n < |s| ==> s[n] == '\n')
    ensures Tidy(s[..n])
  {
  }

  lemma TrimStartKeeps(s: string)
    requires Tidy(s) && NoTriple(s) && '\r' !in s
    ensures Tidy(TrimStart(s)) && NoTriple(TrimStart(s)) && '\r' !in TrimStart(s)
    ensures TrimStart(s) != "" ==> TrimStart(s)[0] != '\n'
  {
    TrimStartCuts(s);
    var k := |s| - |TrimStart(s)|;
    SliceKeeps(s, k, |s|);
    TidySuffix(s, k);
    assert s[k..|s|] == s[k..];
  }

  lemma TrimEndKeeps(s: string)
    requires Tidy(s) && NoTriple(s) && '\r' !in s && (s != "" ==> s[0] != '\n')
    ensures Tidy(TrimEnd(s)) && NoTriple(TrimEnd(s)) && '\r' !in TrimEnd(s)
    ensures TrimEnd(s) != "" ==> TrimEnd(s)[0] != '\n' && TrimEnd(s)[|TrimEnd(s)| - 1] != '\n'
  {
    TrimEndCuts(s);
    var n := |TrimEnd(s)|;
    SliceKeeps(s, 0, n);
    TidyCut(s, n);
    assert s[0..n] == s[..n] == TrimEnd(s);
  }

  /** Tidy in terms of lines. */
  lemma {:induction false} TidyLines(s: string)
    requires Tidy(s)
    ensures forall l | l in Lines(s) :: RStrip(l) == l
    ensures s != "" && s[0] != '\n' ==> Lines(s)[0] != ""
  {
    if s != "" {
      TidySuffix(s, 1);
      TidyLines(s[1..]);
      if s[0] != '\n' {
        var first := Lines(s[1..])[0];
        if first != "" { LastNotSpace(first); }
        assert Lines(s)[0] == [s[0]] + first;
        assert !IsSpace(Lines(s)[0][|Lines(s)[0]| - 1]);
      }
    }
  }

  lemma {:induction false} ReplaceCarriageReturns(s: string)
    ensures '\r' !in Replace(s, "\r", "\n")
  {
    if s != "" {
      ReplaceCarriageReturns(s[1..]);
    }
  }

  /** Whatever goes in, a clean text comes out. */
  lemma OutputIsClean(text: string)
    ensures Clean(Canonicalize(text))
  {
    var unified := UnifyLineEnds(text);
    ReplaceCarriageReturns(Replace(text, "\r\n", "\n"));
    var lines := RStripEach(Lines(unified));
    LinesArePlain(unified);
    forall l | l in lines ensures '\n' !in l && '\r' !in l && RStrip(l) == l {
      var i :| 0 <= i < |lines| && lines[i] == l;
      var raw := Lines(unified)[i];
      assert raw in Lines(unified);
      RStripKeepsOut(raw, '\n');
      RStripKeepsOut(raw, '\r');
      StripIdempotent(raw);
    }
    var stripped := JoinLines(lines);
    JoinKeepsOut(lines, '\r');
    JoinIsTidy(lines);
    CollapseTidies(stripped);
    CollapseShape(stripped);
    TrimStartKeeps(Collapse(stripped));
    TrimEndKeeps(TrimStart(Collapse(stripped)));
    TidyLines(Canonicalize(text));
  }

  // ---- Once is enough ----------------------------------------------------------------

  lemma SharedFirst(pat: string, s: string)
    requires pat != "" && pat <= s
    ensures pat[0] in s
  {
    assert s[0] == pat[0];
  }

  lemma {:induction false} ReplaceAbsent(s: string, pat: string, rep: string)
    requires pat != "" && pat[0] !in s
    ensures Replace(s, pat, rep) == s
  {
    if s != "" {
      if pat <= s { SharedFirst(pat, s); }
      ReplaceAbsent(s[1..], pat, rep);
      assert s == [s[0]] + s[1..];
    }
  }

  lemma LongRun(s: string)
    requires NewlineRun(s) >= 3
    ensures !NoTriple(s)
  {
    assert s[0] == s[0 + 1] == s[0 + 2] == '\n';
  }

  lemma NoTripleSuffix(s: string, n: nat)
    requires NoTriple(s) && n <= |s|
    ensures NoTriple(s[n..])
  {
    forall i | 0 <= i < |s[n..]| - 2 ensures !(s[n..][i] == s[n..][i + 1] == s[n..][i + 2] == '\n') {
      assert s[n..][i] == s[n + i] && s[n..][i + 1] == s[n + i + 1] && s[n..][i + 2] == s[n + i + 2];
    }
  }

  /** How much of s `Collapse` takes at once. */
  function Bite(s: string): (n: nat)
    requires s != ""
    ensures 0 < n <= |s|
  {
    if s[0] == '\n' then NewlineRun(s) else 1
  }

  lemma BiteKept(s: string)
    requires s != "" && Bite(s) < 3
    ensures Collapse(s) == s[..Bite(s)] + Collapse(s[Bite(s)..])
  {
  }

  lemma {:induction false} CollapseNothing(s: string)
    requires NoTriple(s)
    ensures Collapse(s) == s
  {
    if s != "" {
      var n := Bite(s);
      if n >= 3 { LongRun(s); }
      NoTripleSuffix(s, n);
      CollapseNothing(s[n..]);
      BiteKept(s);
    }
  }

  lemma NothingToUnify(s: string)
    requires '\r' !in s
    ensures UnifyLineEnds(s) == s
  {
    ReplaceAbsent(s, "\r\n", "\n");
    ReplaceAbsent(s, "\r", "\n");
  }

  lemma NothingToStrip(s: string)
    requires forall l | l in Lines(s) :: RStrip(l) == l
    ensures JoinLines(RStripEach(Lines(s))) == s
  {
    assert RStripEach(Lines(s)) == Lines(s);
    JoinOfLines(s);
  }

  lemma NothingToTrim(s: string)
    requires s != "" ==> s[0] != '\n' && s[|s| - 1] != '\n'
    ensures TrimEnd(TrimStart(s)) == s
  {
  }

  lemma CleanIsFixed(s: string)
    requires Clean(s)
    ensures Canonicalize(s) == s
  {
    NothingToUnify(s);
    NothingToStrip(s);
    CollapseNothing(s);
    NothingToTrim(s);
  }

  /** A second pass changes nothing. */
  lemma CanonicalizeIdempotent(text: string)
    ensures Canonicalize(Canonicalize(text)) == Canonicalize(text)
  {
    OutputIsClean(text);
    CleanIsFixed(Canonicalize(text));
  }

  // ---- Only the lines matter ---------------------------------------------------------

  /** The lines of a text that may use any of the three line ends, read in one pass. */
  function AnyLines(s: string): (r: seq<string>)
    ensures r != []
    decreases |s|
  {
    if s == "" then [""]
    else if s[0] == '\n' then [""] + AnyLines(s[1..])
    else if s[0] == '\r' then [""] + AnyLines(if |s| > 1 && s[1] == '\n' then s[2..] else s[1..])
    else [[s[0]] + AnyLines(s[1..])[0]] + AnyLines(s[1..])[1..]
  }

  lemma UnifyStep(s: string)
    requires s != ""
    ensures if s[0] == '\r' then
              UnifyLineEnds(s) == "\n" + UnifyLineEnds(if |s| > 1 && s[1] == '\n' then s[2..] else s[1..])
            else
              UnifyLineEnds(s) == [s[0]] + UnifyLineEnds(s[1..])
  {
    assert "\r\n" <= s <==> |s| > 1 && s[0] == '\r' && s[1] == '\n';
    var r := Replace(s, "\r\n", "\n");
    var rest := Replace(if "\r\n" <= s then s[2..] else s[1..], "\r\n", "\n");
    assert r == (if "\r\n" <= s then "\n" else [s[0]]) + rest;
    assert r[1..] == rest;
    assert "\r" <= r <==> r[0] == '\r';
  }

  lemma {:induction false} UnifiedLines(s: string)
    ensures Lines(UnifyLineEnds(s)) == AnyLines(s)
    decreases |s|
  {
    if s != "" {
      UnifyStep(s);
      var rest := if s[0] == '\r' && |s| > 1 && s[1] == '\n' then s[2..] else s[1..];
      UnifiedLines(rest);
      assert UnifyLineEnds(s)[1..] == UnifyLineEnds(rest);
    }
  }

  /** Two texts whose lines agree up to trailing whitespace come out the same, whichever
      line ends each uses. */
  lemma SameLinesSameResult(a: string, b: string)
    requires RStripEach(AnyLines(a)) == RStripEach(AnyLines(b))
    ensures Canonicalize(a) == Canonicalize(b)
  {
    UnifiedLines(a);
    UnifiedLines(b);
  }

  datatype LineEnd = LF | CRLF | CR

  function EndText(e: LineEnd): string {
    match e
    case LF => "\n"
    case CRLF => "\r\n"
    case CR => "\r"
  }

  /** Lines written out, each but the last with its own line end. */
  function Written(lines: seq<string>, ends: seq<LineEnd>): string
    requires |lines| == |ends| + 1
  {
    if ends == [] then lines[0]
    else lines[0] + (EndText(ends[0]) + Written(lines[1..], ends[1..]))
  }

  ghost predicate IsLine(l: string) {
    '\n' !in l && '\r' !in l
  }

  /** An empty line ended by LF right after a CR would read as one CRLF. */
  predicate MergesAt(lines: seq<string>, ends: seq<LineEnd>, i: nat)
    requires |lines| == |ends| + 1
  {
    i + 1 < |ends| && ends[i] == CR && lines[i + 1] == "" && ends[i + 1] == LF
  }

  lemma {:induction false} AnyLinesAfter(l: string, s: string)
    requires IsLine(l)
    ensures AnyLines(l + s) == [l + AnyLines(s)[0]] + AnyLines(s)[1..]
  {
    if l == "" {
      assert l + s == s && l + AnyLines(s)[0] == AnyLines(s)[0];
    } else {
      assert (l + s)[1..] == l[1..] + s;
      AnyLinesAfter(l[1..], s);
      assert l[0] in l && l == [l[0]] + l[1..];
      assert [l[0]] + (l[1..] + AnyLines(s)[0]) == l + AnyLines(s)[0];
    }
  }

  lemma AnyLinesOfEnd(e: LineEnd, s: string)
    requires e == CR ==> s == "" || s[0] != '\n'
    ensures AnyLines(EndText(e) + s) == [""] + AnyLines(s)
  {
    var t := EndText(e) + s;
    assert e == CRLF ==> t[2..] == s;
    assert e != CRLF ==> t[1..] == s;
  }

  lemma FirstOfWritten(lines: seq<string>, ends: seq<LineEnd>)
    requires |lines| == |ends| + 1 && forall l | l in lines :: IsLine(l)
    ensures var w := Written(lines, ends);
            w != "" && w[0] == '\n' <==> ends != [] && lines[0] == "" && ends[0] == LF
  {
    assert lines[0] in lines;
    if lines[0] != "" {
      assert lines[0][0] in lines[0] && Written(lines, ends)[0] == lines[0][0];
    } else if ends != [] {
      var more := Written(lines[1..], ends[1..]);
      assert Written(lines, ends) == EndText(ends[0]) + more;
    }
  }

  lemma LinePastEnd(l: string, e: LineEnd, s: string)
    requires IsLine(l) && (e == CR ==> s == "" || s[0] != '\n')
    ensures AnyLines(l + (EndText(e) + s)) == [l] + AnyLines(s)
  {
    AnyLinesOfEnd(e, s);
    AnyLinesAfter(l, EndText(e) + s);
    assert l + "" == l;
  }

  /** Written lines read back as they were if and only if no line end merges with the
      next. */
  lemma {:induction false} WrittenLinesReadBack(lines: seq<string>, ends: seq<LineEnd>)
    requires |lines| == |ends| + 1 && forall l | l in lines :: IsLine(l)
    ensures AnyLines(Written(lines, ends)) == lines <==> forall i: nat :: !MergesAt(lines, ends, i)
    ensures |AnyLines(Written(lines, ends))| <= |lines|
    decreases |lines|
  {
    if ends == [] {
      AnyLinesAfter(lines[0], "");
      assert lines[0] + "" == lines[0];
    } else {
      var rest, more := lines[1..], ends[1..];
      FirstOfWritten(rest, more);
      MergesShift(lines, ends);
      WrittenLinesReadBack(rest, more);
      if MergesAt(lines, ends, 0) {
        WrittenMerged(lines, ends);
        WrittenLinesReadBack(lines[2..], ends[2..]);
      } else {
        LinePastEnd(lines[0], ends[0], Written(rest, more));
        assert lines == [lines[0]] + rest;
      }
    }
  }

  lemma MergesShift(lines: seq<string>, ends: seq<LineEnd>)
    requires |lines| == |ends| + 1 && ends != []
    ensures (exists i: nat :: MergesAt(lines, ends, i)) <==>
            MergesAt(lines, ends, 0) || exists i: nat :: MergesAt(lines[1..], ends[1..], i)
  {
    if i: nat :| MergesAt(lines, ends, i) {
      if i > 0 { assert MergesAt(lines[1..], ends[1..], i - 1); }
    }
    if i: nat :| MergesAt(lines[1..], ends[1..], i) {
      assert MergesAt(lines, ends, i + 1);
    }
  }

  /** At a merge one line is lost. */
  lemma WrittenMerged(lines: seq<string>, ends: seq<LineEnd>)
    requires |lines| == |ends| + 1 && (forall l | l in lines :: IsLine(l)) && MergesAt(lines, ends, 0)
    ensures AnyLines(Written(lines, ends)) == [lines[0]] + AnyLines(Written(lines[2..], ends[2..]))
  {
    var s := Written(lines[2..], ends[2..]);
    assert lines[1..][1..] == lines[2..] && ends[1..][1..] == ends[2..];
    assert Written(lines[1..], ends[1..]) == "\n" + s;
    assert "\r" + ("\n" + s) == "\r\n" + s;
    LinePastEnd(lines[0], CRLF, s);
  }

  /** The same lines with any line ends and any trailing whitespace give one result. */
  lemma LineEndsDoNotMatter(a: seq<string>, aEnds: seq<LineEnd>, b: seq<string>, bEnds: seq<LineEnd>)
    requires |a| == |aEnds| + 1 && |b| == |bEnds| + 1 && RStripEach(a) == RStripEach(b)
    requires (forall l | l in a :: IsLine(l)) && (forall l | l in b :: IsLine(l))
    requires (forall i: nat :: !MergesAt(a, aEnds, i)) && (forall i: nat :: !MergesAt(b, bEnds, i))
    ensures Canonicalize(Written(a, aEnds)) == Canonicalize(Written(b, bEnds))
  {
    WrittenLinesReadBack(a, aEnds);
    WrittenLinesReadBack(b, bEnds);
    SameLinesSameResult(Written(a, aEnds), Written(b, bEnds));
  }

  // ---- Line by line --------------------------------------------------------------------

  /** The lines without the blank ones they start with. */
  function DropBlank(lines: seq<string>): (r: seq<string>)
    ensures |r| <= |lines| && (r != [] ==> r[0] != "")
  {
    if lines != [] && lines[0] == "" then DropBlank(lines[1..]) else lines
  }

  /** Each run of blank lines becomes one, the last run none. */
  function Squeeze(lines: seq<string>): seq<string>
    decreases |lines|
  {
    if lines == [] then []
    else if lines[0] != "" then [lines[0]] + Squeeze(lines[1..])
    else
      var rest := DropBlank(lines);
      if rest == [] then [] else [""] + Squeeze(rest)
  }

  /** What the whole function amounts to: right-strip the lines, whatever ends them, drop
      blank lines at both ends and squeeze the runs of blank lines in between. */
  function ByLines(text: string): string {
    JoinLines(Squeeze(DropBlank(RStripEach(AnyLines(text)))))
  }

  /** Lines each with a newline in front. */
  function Tail(lines: seq<string>): string {
    if lines == [] then "" else "\n" + JoinLines(lines)
  }

  ghost predicate AllLines(lines: seq<string>) {
    forall l | l in lines :: '\n' !in l
  }

  ghost predicate OnlyNewlines(run: string) {
    forall i | 0 <= i < |run| :: run[i] == '\n'
  }

  lemma TailStep(lines: seq<string>)
    requires lines != []
    ensures Tail(lines) == "\n" + (lines[0] + Tail(lines[1..])) && JoinLines(lines) == lines[0] + Tail(lines[1..])
  {
    assert lines[0] + "" == lines[0];
  }

  lemma {:induction false} NewlineRunOf(run: string, rest: string)
    requires OnlyNewlines(run) && (rest != "" ==> rest[0] != '\n')
    ensures NewlineRun(run + rest) == |run|
  {
    if run == "" {
      assert run + rest == rest;
    } else {
      assert (run + rest)[1..] == run[1..] + rest;
      NewlineRunOf(run[1..], rest);
    }
  }

  /** A run of newlines in front of something else. */
  lemma CollapseRun(run: string, rest: string)
    requires run != "" && OnlyNewlines(run) && (rest != "" ==> rest[0] != '\n')
    ensures Collapse(run + rest) == (if |run| >= 3 then "\n\n" else run) + Collapse(rest)
  {
    NewlineRunOf(run, rest);
    var s := run + rest;
    assert s[0] == run[0];
    assert s[..|run|] == run && s[|run|..] == rest;
  }

  /** A line in front of something else. */
  lemma {:induction false} CollapseLine(l: string, rest: string)
    requires '\n' !in l
    ensures Collapse(l + rest) == l + Collapse(rest)
  {
    if l == "" {
      assert l + rest == rest && l + Collapse(rest) == Collapse(rest);
    } else {
      assert l[0] in l && (l + rest)[1..] == l[1..] + rest;
      CollapseLine(l[1..], rest);
      assert [l[0]] + (l[1..] + Collapse(rest)) == l + Collapse(rest);
    }
  }

  lemma {:induction false} TrimEndAfter(p: string, x: string)
    requires p != "" && p[|p| - 1] != '\n'
    ensures TrimEnd(p + x) == p + TrimEnd(x)
  {
    if x == "" {
      assert p + x == p;
    } else {
      assert (p + x)[..|p + x| - 1] == p + x[..|x| - 1];
      if x[|x| - 1] == '\n' { TrimEndAfter(p, x[..|x| - 1]); }
    }
  }

  /** A newline in front stays unless nothing else does. */
  lemma {:induction false} TrimEndNewline(x: string)
    ensures TrimEnd("\n" + x) == if TrimEnd(x) == "" then "" else "\n" + TrimEnd(x)
  {
    if x == "" {
      assert "\n" + x == "\n" && "\n"[..0] == "";
    } else {
      assert ("\n" + x)[..|"\n" + x| - 1] == "\n" + x[..|x| - 1];
      if x[|x| - 1] == '\n' { TrimEndNewline(x[..|x| - 1]); }
    }
  }

  lemma MoveNewline(run: string, rest: string)
    ensures "\n" + ("" + (run + rest)) == ("\n" + run) + rest
  {
  }

  /** Blank lines in front are newlines in front. */
  lemma {:induction false} BlankTail(lines: seq<string>) returns (run: string)
    ensures Tail(lines) == run + Tail(DropBlank(lines)) && |run| == |lines| - |DropBlank(lines)|
    ensures OnlyNewlines(run)
  {
    if lines != [] && lines[0] == "" {
      var more := BlankTail(lines[1..]);
      run := "\n" + more;
      TailStep(lines);
      MoveNewline(more, Tail(DropBlank(lines)));
    } else {
      run := "";
      assert run + Tail(lines) == Tail(lines);
    }
  }

  lemma AllNewlines(run: string)
    requires OnlyNewlines(run)
    ensures TrimEnd(Collapse(run)) == ""
  {
    if run != "" {
      assert run + "" == run;
      CollapseRun(run, "");
      var c := if |run| >= 3 then "\n\n" else run;
      assert c + Collapse("") == c;
      TrimEndCuts(c);
      assert OnlyNewlines(c);
    }
  }

  lemma ShortRun(run: string)
    requires OnlyNewlines(run) && |run| == 2
    ensures run == "\n\n"
  {
  }

  /** A run of two newlines or more collapses to two. */
  lemma LongRunCollapses(run: string, j: string)
    requires OnlyNewlines(run) && |run| >= 2 && j != "" && j[0] != '\n'
    ensures Collapse(run + j) == "\n" + ("\n" + Collapse(j))
  {
    CollapseRun(run, j);
    if |run| == 2 { ShortRun(run); }
    Regroup("\n", "\n", Collapse(j));
    assert "\n" + "\n" == "\n\n";
  }

  lemma NewlineBeforeText(x: string)
    requires x != "" && x[0] != '\n'
    ensures TrimEnd("\n" + x) == "\n" + TrimEnd(x)
    ensures TrimEnd("\n" + ("\n" + x)) == "\n" + TrimEnd("\n" + x)
  {
    FirstStays(x);
    TrimEndNewline(x);
    TrimEndNewline("\n" + x);
  }

  /** A run of newlines and then a line that is not blank. */
  lemma RunBeforeLine(run: string, lines: seq<string>)
    requires run != "" && OnlyNewlines(run) && AllLines(lines) && lines != [] && lines[0] != ""
    ensures TrimEnd(Collapse(run + Tail(lines))) == "\n" + TrimEnd(Collapse(Tail(lines)))
  {
    var j := JoinLines(lines);
    TailStep(lines);
    assert lines[0] in lines && lines[0][0] in lines[0] && j[0] == lines[0][0];
    Regroup(run, "\n", j);
    LongRunCollapses(run + "\n", j);
    CollapseRun("\n", j);
    CollapseShape(j);
    NewlineBeforeText(Collapse(j));
  }

  lemma {:induction false} FirstStays(x: string)
    requires x != "" && x[0] != '\n'
    ensures TrimEnd(x) != ""
  {
    if x[|x| - 1] == '\n' { FirstStays(x[..|x| - 1]); }
  }

  lemma {:induction false} DropBlankKeeps(lines: seq<string>)
    requires AllLines(lines)
    ensures AllLines(DropBlank(lines))
  {
    if lines != [] && lines[0] == "" {
      assert AllLines(lines[1..]);
      DropBlankKeeps(lines[1..]);
    }
  }

  /** A line that is not blank, and what follows it. */
  lemma LineThenTail(l: string, lines: seq<string>)
    requires l != "" && '\n' !in l && TrimEnd(Collapse(Tail(lines))) == Tail(Squeeze(lines))
    ensures TrimEnd(Collapse(l + Tail(lines))) == l + Tail(Squeeze(lines))
    ensures TrimEnd(Collapse("\n" + (l + Tail(lines)))) == "\n" + (l + Tail(Squeeze(lines)))
  {
    CollapseLine(l, Tail(lines));
    assert l[|l| - 1] in l && l[0] in l;
    TrimEndAfter(l, Collapse(Tail(lines)));
    CollapseRun("\n", l + Tail(lines));
    TrimEndNewline(l + Collapse(Tail(lines)));
  }

  /** After a first line: the remaining lines, collapsed and trimmed. */
  lemma {:induction false} TailSqueezed(lines: seq<string>)
    requires AllLines(lines)
    ensures TrimEnd(Collapse(Tail(lines))) == Tail(Squeeze(lines))
    decreases |lines|
  {
    if lines != [] {
      if lines[0] != "" {
        assert AllLines(lines[1..]);
        TailSqueezed(lines[1..]);
        TailStep(lines);
        LineThenTail(lines[0], lines[1..]);
        SqueezeLine(lines);
      } else {
        var run := BlankTail(lines);
        var rest := DropBlank(lines);
        if rest == [] {
          assert run + Tail(rest) == run;
          AllNewlines(run);
        } else {
          DropBlankKeeps(lines);
          TailSqueezed(rest);
          RunBeforeLine(run, rest);
          SqueezeBlank(lines);
        }
      }
    }
  }

  lemma SqueezeLine(lines: seq<string>)
    requires lines != [] && lines[0] != ""
    ensures Tail(Squeeze(lines)) == "\n" + (lines[0] + Tail(Squeeze(lines[1..])))
  {
    TailStep(Squeeze(lines));
    assert Squeeze(lines)[1..] == Squeeze(lines[1..]);
  }

  lemma SqueezeBlank(lines: seq<string>)
    requires lines != [] && lines[0] == "" && DropBlank(lines) != []
    ensures Tail(Squeeze(lines)) == "\n" + Tail(Squeeze(DropBlank(lines)))
  {
    TailStep(Squeeze(lines));
    assert Squeeze(lines)[1..] == Squeeze(DropBlank(lines));
    assert "" + Tail(Squeeze(DropBlank(lines))) == Tail(Squeeze(DropBlank(lines)));
  }

  lemma {:induction false} TrimStartRun(run: string, rest: string)
    requires OnlyNewlines(run) && (rest != "" ==> rest[0] != '\n')
    ensures TrimStart(run + rest) == rest
  {
    if run == "" {
      assert run + rest == rest;
    } else {
      assert (run + rest)[1..] == run[1..] + rest;
      TrimStartRun(run[1..], rest);
    }
  }

  /** Newlines in front are gone after collapsing and trimming. */
  lemma LeadingRunGoes(run: string, rest: string)
    requires OnlyNewlines(run) && (rest != "" ==> rest[0] != '\n')
    ensures TrimStart(Collapse(run + rest)) == Collapse(rest)
  {
    CollapseShape(rest);
    if run == "" {
      assert run + rest == rest;
      TrimStartRun("", Collapse(rest));
      assert "" + Collapse(rest) == Collapse(rest);
    } else {
      CollapseRun(run, rest);
      TrimStartRun(if |run| >= 3 then "\n\n" else run, Collapse(rest));
    }
  }

  /** Blank lines in front of a joined text. */
  lemma {:induction false} BlankJoin(lines: seq<string>) returns (run: string)
    ensures JoinLines(lines) == run + JoinLines(DropBlank(lines)) && OnlyNewlines(run)
  {
    if lines != [] && lines[0] == "" {
      var more := BlankJoin(lines[1..]);
      run := if |lines| == 1 then "" else "\n" + more;
      if |lines| > 1 { MoveNewline(more, JoinLines(DropBlank(lines))); }
    } else {
      run := "";
      assert run + JoinLines(lines) == JoinLines(lines);
    }
  }

  /** The steps of the code on lines already stripped. */
  lemma JoinedSqueezed(lines: seq<string>)
    requires lines != [] && AllLines(lines)
    ensures TrimEnd(TrimStart(Collapse(JoinLines(lines)))) == JoinLines(Squeeze(DropBlank(lines)))
  {
    var run := BlankJoin(lines);
    var rest := DropBlank(lines);
    DropBlankKeeps(lines);
    if rest == [] {
      LeadingRunGoes(run, "");
      assert run + "" == run;
    } else {
      assert rest[0] in rest && rest[0][0] in rest[0] && AllLines(rest[1..]);
      TailStep(rest);
      LeadingRunGoes(run, JoinLines(rest));
      TailSqueezed(rest[1..]);
      LineThenTail(rest[0], rest[1..]);
      TailStep(Squeeze(rest));
      assert Squeeze(rest)[1..] == Squeeze(rest[1..]);
    }
  }

  /** For every text, the string operations of the code do what `ByLines` says. */
  lemma CanonicalizeIsByLines(text: string)
    ensures Canonicalize(text) == ByLines(text)
  {
    UnifiedLines(text);
    var lines := RStripEach(AnyLines(text));
    LinesArePlain(UnifyLineEnds(text));
    forall l | l in lines ensures '\n' !in l {
      var i :| 0 <= i < |lines| && lines[i] == l;
      assert AnyLines(text)[i] in Lines(UnifyLineEnds(text));
      RStripKeepsOut(AnyLines(text)[i], '\n');
    }
    JoinedSqueezed(lines);
  }
}
