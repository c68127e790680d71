/** A one-pass scanner that knows dollar quoting, and exactly the texts on which the splitter agrees with it. */
module SqlScanner {
  import opened SqlText
  import opened SqlMask
  import opened SqlSegments
  import opened SqlSplitter

  /** One pass: `$$` toggles quoting, a semicolon outside quotes ends a piece. */
  function Scan(t: string, inside: bool, current: string): seq<string>
    decreases |t|
  {
    if t == "" then [current]
    else if StartsWith(t, "$$") then Scan(t[2..], !inside, current + "$$")
    else if t[0] == ';' && !inside then [current] + Scan(t[1..], inside, "")
    else Scan(t[1..], inside, current + [t[0]])
  }

  /** The statements among the scanned pieces: trimmed, empty ones dropped. */
  function ScannedStatements(sql: string): seq<string> { Trimmed(Scan(sql, false, "")) }

  // ---- Where the splitter and the scanner agree ----

  /** The text as it should be after masking: every body hidden, every gap as it was. */
  function HiddenText(sql: string): string { JoinDollars(Hidden(Segments(sql), false)) }

  ghost predicate NoSemicolons(ms: seq<string>) { forall k :: 0 <= k < |ms| ==> ';' !in ms[k] }

  /** Text in which every `$$` stands alone, and which does not use the mark. */
  ghost predicate Quoted(sql: string) { '#' !in sql && Isolated(Segments(sql)) }

  /** Gaps apart from bodies, nothing to hide in an unclosed quote, and no `DO $$ ... END $$` stretch that spans
      an unquoted semicolon. */
  ghost predicate WellQuoted(sql: string) {
    && Quoted(sql) && GapsApart(Segments(sql)) && OpenEndPlain(Segments(sql))
    && NoSemicolons(Matches(HiddenText(sql), "DO $$", "END $$"))
  }

  /** Every `DO $$` opens a block whose body ends in `END `. */
  ghost predicate DoBlocksEnd(segs: seq<string>) {
    forall k :: DoBlockEnds(segs, k)
  }

  ghost predicate DoBlockEnds(segs: seq<string>, k: int) {
    0 <= k < |segs| - 1 && EndsWith(segs[k], "DO ") ==> k % 2 == 0 && EndsWith(segs[k + 1], "END ")
  }

  // ---- What the second loop matches ----

  lemma {:induction false} StartsAt(t: string, k: nat, p: string)
    requires k <= |t| && StartsWith(t[k..], p + "$$")
    ensures k + |p| + 2 <= |t| && forall i :: 0 <= i < |p| ==> t[k + i] == p[i]
  {
    forall i | 0 <= i < |p| ensures t[k + i] == p[i] { assert t[k..][..|p| + 2][i] == p[i]; }
  }

  lemma {:induction false} EndsAt(s: string, v: string, p: string, k: nat)
    requires k + |p| == |s| && StartsWith((s + v)[k..], p + "$$")
    ensures EndsWith(s, p)
  {
    StartsAt(s + v, k, p);
    assert s[k..] == p;
  }

  /** Past the start of `s` that far, one of the dollar signs would fall inside `p`. */
  lemma {:induction false} DollarInside(s: string, v: string, p: string, k: nat)
    requires |s| < k + |p| && k < |s| + 2 && p != "" && StartsWith((s + ("$$" + v))[k..], p + "$$")
    ensures '$' in p
  {
    var t := s + ("$$" + v);
    StartsAt(t, k, p);
    assert t[|s|] == '$' && t[|s| + 1] == '$';
    assert t[k + if k <= |s| then |s| - k else 0] == '$';
  }

  /** A pattern that ends in `$$` begins in `s` before a `$$` only when `s` ends in the rest of it. */
  lemma {:induction false} NoPatternIn(s: string, v: string, p: string, k: nat)
    requires Plain(s) && !EndsWith(s, p) && p != "" && '$' !in p && k < |s| + 2
    ensures !StartsWith((s + ("$$" + v))[k..], p + "$$")
  {
    if k + |p| < |s| {
      NotBefore(s, "$$" + v, p, k);
    } else if StartsWith((s + ("$$" + v))[k..], p + "$$") {
      if k + |p| == |s| { EndsAt(s, "$$" + v, p, k); } else { DollarInside(s, v, p, k); }
    }
  }

  lemma {:induction false} SkipSegmentForDo(s: string, v: string)
    requires Plain(s) && !EndsWith(s, "DO ")
    ensures Matches(s + ("$$" + v), "DO $$", "END $$") == Matches(v, "DO $$", "END $$")
  {
    assert s + ("$$" + v) == (s + "$$") + v;
    assert "DO " + "$$" == "DO $$";
    forall k | 0 <= k < |s + "$$"| ensures !StartsWith(((s + "$$") + v)[k..], "DO $$") {
      NoPatternIn(s, v, "DO ", k);
    }
    MatchesSkip(s + "$$", v, "DO $$", "END $$");
  }

  lemma {:induction false} NoDoInLast(s: string)
    requires PlainLast(s)
    ensures Matches(s, "DO $$", "END $$") == []
  {
    NoPatternInLast(s, "DO ");
    assert "DO " + "$$" == "DO $$";
  }

  lemma {:induction false} NotBefore(s: string, v: string, p: string, k: nat)
    requires Plain(s) && k + |p| < |s|
    ensures !StartsWith((s + v)[k..], p + "$$")
  {
    var t := s + v;
    PlainHasNo(s, v, k + |p|);
    TwoDollars(t, k + |p|);
    var n := |p|;
    assert n + 2 <= |t[k..]| ==> t[k..][..n + 2][n] == t[k + n] && t[k..][..n + 2][n + 1] == t[k + n + 1];
    assert (p + "$$")[n] == '$' && (p + "$$")[n + 1] == '$';
  }

  /** A pattern ending in `$$` first occurs where the plain segment before it ends. */
  lemma {:induction false} FoundAtEnd(w: string, p: string, v: string)
    requires Plain(w + p)
    ensures Find((w + p) + ("$$" + v), p + "$$") == |w|
  {
    var rest := (p + "$$") + v;
    assert (w + p) + ("$$" + v) == w + rest;
    forall k | 0 <= k < |w| ensures !StartsWith((w + rest)[k..], p + "$$") {
      NotBefore(w + p, "$$" + v, p, k);
    }
    FindSkip(w, rest, p + "$$");
    assert rest[..|p| + 2] == p + "$$";
  }

  lemma {:induction false} EndCut(s: string, pat: string)
    requires EndsWith(s, pat)
    ensures s == s[..|s| - |pat|] + pat
  {}

  /** The first match opens at the first `DO $$`. */
  lemma {:induction false} DoOpens(g: string, rest: string)
    requires Plain(g) && EndsWith(g, "DO ")
    ensures Matches(g + ("$$" + rest), "DO $$", "END $$") == MatchesOpened(rest, "DO $$", "END $$")
  {
    EndCut(g, "DO ");
    assert "DO " + "$$" == "DO $$";
    FoundAtEnd(g[..|g| - 3], "DO ", rest);
    AfterPrefix(g, "$$" + rest, 2);
    assert ("$$" + rest)[2..] == rest;
  }

  /** A `DO` block whose body ends in `END ` is matched whole, and the search goes on after it. */
  lemma {:induction false} DoBlockMatch(g: string, b: string, v: string)
    requires Plain(g) && Plain(b) && EndsWith(g, "DO ") && EndsWith(b, "END ")
    ensures Matches(g + ("$$" + (b + ("$$" + v))), "DO $$", "END $$")
         == ["DO $$" + (b + "$$")] + Matches(v, "DO $$", "END $$")
  {
    DoOpens(g, b + ("$$" + v));
    EndCut(b, "END ");
    assert "END " + "$$" == "END $$";
    FoundAtEnd(b[..|b| - 4], "END ", v);
    AfterPrefix(b, "$$" + v, 2);
    assert ("$$" + v)[2..] == v && ("$$" + v)[..2] == "$$";
  }

  lemma {:induction false} DoBlocksTail(hs: seq<string>)
    requires DoBlocksEnd(hs) && |hs| > 2
    ensures DoBlocksEnd(hs[2..])
  {
    var tail := hs[2..];
    forall j ensures DoBlockEnds(tail, j) {
      assert DoBlockEnds(hs, j + 2);
      if 0 <= j < |tail| - 1 { assert tail[j] == hs[j + 2] && tail[j + 1] == hs[j + 3]; }
    }
  }

  /** Every quoted segment has its semicolons hidden. */
  ghost predicate QuotedHidden(hs: seq<string>) {
    forall j :: 0 <= j < |hs| && j % 2 == 1 ==> ';' !in hs[j]
  }

  lemma {:induction false} QuotedHiddenTail(hs: seq<string>)
    requires QuotedHidden(hs) && |hs| > 2
    ensures QuotedHidden(hs[2..]) && ';' !in hs[1]
  {
    forall j | 0 <= j < |hs[2..]| && j % 2 == 1 ensures ';' !in hs[2..][j] { assert hs[2..][j] == hs[j + 2]; }
  }

  lemma {:induction false} NoSemicolonsCons(b: string, ms: seq<string>)
    requires ';' !in b && NoSemicolons(ms)
    ensures NoSemicolons(["DO $$" + (b + "$$")] + ms)
  {}

  lemma {:induction false} NoPatternInLast(s: string, p: string)
    requires PlainLast(s)
    ensures Find(s, p + "$$") == -1
  {
    forall k | 0 <= k < |s| ensures !StartsWith((s + "")[k..], p + "$$") {
      if k + |p| < |s| {
        PlainHasNo(s, "", k + |p|);
        var t := (s + "")[k..];
        assert t[|p|..] == (s + "")[k + |p|..];
        assert |t| >= |p| + 2 ==> t[..|p| + 2][|p|..] == t[|p|..][..2];
        assert (p + "$$")[|p|..] == "$$";
      }
    }
    assert s + "" == s;
    FindSkip(s, "", p + "$$");
    assert Find("", p + "$$") == -1;
  }

  lemma {:induction false} NoUnclosedDo(g: string, b: string)
    requires Plain(g) && PlainLast(b)
    ensures Matches(g + ("$$" + b), "DO $$", "END $$") == []
  {
    if EndsWith(g, "DO ") {
      DoOpens(g, b);
      NoPatternInLast(b, "END ");
      assert "END " + "$$" == "END $$";
    } else {
      SkipSegmentForDo(g, b);
      NoDoInLast(b);
    }
  }

  /** Nothing the second loop matches still holds a semicolon. */
  lemma {:induction false} DoMatchesHidden(hs: seq<string>)
    requires SegsOk(hs) && hs != [] && DoBlocksEnd(hs) && QuotedHidden(hs)
    ensures NoSemicolons(Matches(JoinDollars(hs), "DO $$", "END $$"))
    decreases |hs|
  {
    assert SegOk(hs, 0) && SegOk(hs, 1) && DoBlockEnds(hs, 0) && DoBlockEnds(hs, 1);
    if |hs| == 1 {
      NoDoInLast(hs[0]);
    } else if |hs| == 2 {
      NoUnclosedDo(hs[0], hs[1]);
    } else {
      var v := JoinDollars(hs[2..]);
      JoinFront(hs);
      SegsTail(hs, 2);
      DoBlocksTail(hs);
      QuotedHiddenTail(hs);
      DoMatchesHidden(hs[2..]);
      if EndsWith(hs[0], "DO ") {
        DoBlockMatch(hs[0], hs[1], v);
        NoSemicolonsCons(hs[1], Matches(v, "DO $$", "END $$"));
      } else {
        SkipSegmentForDo(hs[0], hs[1] + ("$$" + v));
        SkipSegmentForDo(hs[1], v);
      }
    }
  }

  lemma {:induction false} MaskNothing(t: string, ms: seq<string>)
    requires NonEmpty(ms) && NoSemicolons(ms)
    ensures MaskEach(t, ms) == t
  {
    if ms != [] {
      var n := |ms| - 1;
      MaskNothing(t, ms[..n]);
      MaskHides(ms[n]);
      ReplaceSame(t, ms[n]);
    }
  }

  /** Masking does not create or destroy an ending without '#' and ';'. */
  lemma {:induction false} MaskKeepsEnding(s: string, pat: string)
    requires '#' !in pat && ';' !in pat
    ensures EndsWith(Mask(s), pat) <==> EndsWith(s, pat)
  {
    if pat != "" && s != "" {
      var n, m := |s| - 1, |pat| - 1;
      var front, c := s[..n], s[n];
      assert s == front + [c];
      MaskConcat(front, [c]);
      assert [c] == [c] + "";
      MaskCons(c, "");
      MaskKeepsEnding(front, pat[..m]);
      assert pat == pat[..m] + [pat[m]] && pat[m] in pat;
      EndSnoc(front, c, pat[..m], pat[m]);
      if c == ';' {
        assert Mask(s)[|Mask(s)| - 1] == '#';
        assert |pat| <= |Mask(s)| ==> Mask(s)[|Mask(s)| - |pat|..][m] == '#';
      } else {
        assert Mask(s) == Mask(front) + [c];
        EndSnoc(Mask(front), c, pat[..m], pat[m]);
      }
    }
  }

  lemma {:induction false} EndSnoc(s: string, c: char, pat: string, d: char)
    ensures EndsWith(s + [c], pat + [d]) <==> EndsWith(s, pat) && c == d
  {
    if |pat| <= |s| {
      var a := s[|s| - |pat|..];
      assert (s + [c])[|s| - |pat|..] == a + [c];
      assert (a + [c])[..|pat|] == a && (pat + [d])[..|pat|] == pat;
      assert (a + [c])[|pat|] == c && (pat + [d])[|pat|] == d;
    }
  }

  /** After the second loop. */
  lemma {:induction false} HiddenDoBlocks(segs: seq<string>)
    requires DoBlocksEnd(segs)
    ensures DoBlocksEnd(Hidden(segs, false))
  {
    var hs := Hidden(segs, false);
    forall k ensures DoBlockEnds(hs, k) {
      assert DoBlockEnds(segs, k);
      if 0 <= k < |hs| - 1 {
        MaskKeepsEnding(segs[k], "DO ");
        MaskKeepsEnding(segs[k + 1], "END ");
      }
    }
  }

  /** If every `DO $$` opens a block whose body ends in `END `, the second loop finds nothing to mask. */
  lemma {:induction false} DoBlocksMatchWhole(segs: seq<string>)
    requires SegsOk(segs) && segs != [] && DoBlocksEnd(segs)
    ensures NoSemicolons(Matches(JoinDollars(Hidden(segs, false)), "DO $$", "END $$"))
  {
    var hs := Hidden(segs, false);
    forall j | 0 <= j < |hs| && j % 2 == 1 ensures ';' !in hs[j] { MaskHides(segs[j]); }
    HiddenOk(segs);
    HiddenDoBlocks(segs);
    DoMatchesHidden(hs);
  }

  // ---- The second loop, exactly ----

  lemma {:induction false} MaskLonger(m: string)
    ensures |Mask(m)| >= |m| && (';' in m ==> |Mask(m)| > |m|)
  {
    if m != "" {
      assert m == [m[0]] + m[1..];
      MaskCons(m[0], m[1..]);
      MaskLonger(m[1..]);
    }
  }

  /** Masking a stretch never shortens the text, and leaves its length only by leaving the text. */
  lemma {:induction false} ReplaceGrows(t: string, m: string)
    requires m != ""
    ensures var r := Replace(t, m, Mask(m)); |r| >= |t| && (|r| == |t| ==> r == t)
    decreases |t|
  {
    MaskLonger(m);
    MaskHides(m);
    if t == "" {
    } else if StartsWith(t, m) {
      ReplaceGrows(t[|m|..], m);
      assert t == m + t[|m|..];
    } else {
      ReplaceGrows(t[1..], m);
      assert t == [t[0]] + t[1..];
    }
  }

  /** A stretch with a semicolon, where it occurs, makes the text longer. */
  lemma {:induction false} ReplaceHits(u: string, m: string, v: string)
    requires ';' in m
    ensures |Replace(u + (m + v), m, Mask(m))| > |u + (m + v)|
  {
    var t := u + (m + v);
    MaskLonger(m);
    assert u == "" ==> StartsWith(t, m) by { assert (m + v)[..|m|] == m; }
    if StartsWith(t, m) {
      ReplaceGrows(t[|m|..], m);
    } else {
      assert t[1..] == u[1..] + (m + v);
      ReplaceHits(u[1..], m, v);
    }
  }

  lemma {:induction false} MaskEachGrows(t: string, ms: seq<string>)
    requires NonEmpty(ms)
    ensures |MaskEach(t, ms)| >= |t| && (|MaskEach(t, ms)| == |t| ==> MaskEach(t, ms) == t)
  {
    if ms != [] {
      var n := |ms| - 1;
      MaskEachGrows(t, ms[..n]);
      ReplaceGrows(MaskEach(t, ms[..n]), ms[n]);
    }
  }

  ghost predicate AllStretches(t: string, open: string, close: string, ms: seq<string>) {
    forall k :: 0 <= k < |ms| ==> Stretch(t, open, close, ms[k])
  }

  lemma {:induction false} UntouchedMatch(t: string, open: string, close: string, m: string)
    requires m != "" && Stretch(t, open, close, m) && Replace(t, m, Mask(m)) == t
    ensures ';' !in m
  {
    var u, body, v :| t == u + (m + v) && m == open + (body + close);
    if ';' in m { ReplaceHits(u, m, v); assert false; }
  }

  lemma {:induction false} UntouchedStep(t: string, ms: seq<string>)
    requires NonEmpty(ms) && ms != [] && MaskEach(t, ms) == t
    ensures MaskEach(t, ms[..|ms| - 1]) == t && Replace(t, ms[|ms| - 1], Mask(ms[|ms| - 1])) == t
  {
    var n := |ms| - 1;
    MaskEachGrows(t, ms[..n]);
    ReplaceGrows(MaskEach(t, ms[..n]), ms[n]);
  }

  lemma {:induction false} UntouchedMeansNone(t: string, open: string, close: string, ms: seq<string>)
    requires NonEmpty(ms) && AllStretches(t, open, close, ms) && MaskEach(t, ms) == t
    ensures NoSemicolons(ms)
  {
    if ms != [] {
      var n := |ms| - 1;
      UntouchedStep(t, ms);
      AllButLast(t, open, close, ms);
      UntouchedMeansNone(t, open, close, ms[..n]);
      UntouchedMatch(t, open, close, ms[n]);
      NoSemicolonsSnoc(ms);
    }
  }

  lemma {:induction false} AllButLast(t: string, open: string, close: string, ms: seq<string>)
    requires AllStretches(t, open, close, ms) && NonEmpty(ms) && ms != []
    ensures var front := ms[..|ms| - 1]; AllStretches(t, open, close, front) && NonEmpty(front)
    ensures Stretch(t, open, close, ms[|ms| - 1])
  {}

  lemma {:induction false} NoSemicolonsSnoc(ms: seq<string>)
    requires ms != [] && NoSemicolons(ms[..|ms| - 1]) && ';' !in ms[|ms| - 1]
    ensures NoSemicolons(ms)
  {
    var front := ms[..|ms| - 1];
    forall k | 0 <= k < |ms| ensures ';' !in ms[k] { if k < |front| { assert ms[k] == front[k]; } }
  }

  /** A masking loop leaves its text alone exactly when no match holds a semicolon. */
  lemma {:induction false} SecondLoopExactly(t: string)
    ensures MaskMatches(t, "DO $$", "END $$") == t <==> NoSemicolons(Matches(t, "DO $$", "END $$"))
  {
    var blocks := Matches(t, "DO $$", "END $$");
    NonEmptyMatches(t, "DO $$", "END $$");
    if NoSemicolons(blocks) {
      MaskNothing(t, blocks);
    }
    if MaskEach(t, blocks) == t {
      forall k | 0 <= k < |blocks| ensures Stretch(t, "DO $$", "END $$", blocks[k]) {
        MatchesAreStretches(t, "DO $$", "END $$", k);
      }
      UntouchedMeansNone(t, "DO $$", "END $$", blocks);
    }
  }

  // ---- The scanner in terms of hidden semicolons ----

  /** The text with exactly the quoted semicolons hidden. */
  function ScanMask(t: string, inside: bool): seq<Sym>
    decreases |t|
  {
    if t == "" then []
    else if StartsWith(t, "$$") then [Char('$'), Char('$')] + ScanMask(t[2..], !inside)
    else [if t[0] == ';' && inside then Mark else Char(t[0])] + ScanMask(t[1..], inside)
  }

  lemma {:induction false} ScanMaskClean(t: string, inside: bool)
    requires '#' !in t
    ensures Clean(ScanMask(t, inside))
    decreases |t|
  {
    if t == "" {
    } else if StartsWith(t, "$$") {
      ScanMaskClean(t[2..], !inside);
    } else {
      ScanMaskClean(t[1..], inside);
      assert t[0] in t;
    }
  }

  lemma {:induction false} EncCons(s: Sym, x: seq<Sym>)
    ensures Enc([s] + x) == Code(s) + Enc(x)
  {
    assert ([s] + x)[1..] == x;
  }

  lemma {:induction false} ScanMaskSegment(s: string, v: string, inside: bool)
    requires Plain(s) || (PlainLast(s) && v == "")
    ensures Enc(ScanMask(s + v, inside)) == (if inside then Mask(s) else s) + Enc(ScanMask(v, inside))
  {
    if s == "" {
      assert s + v == v;
    } else {
      var c, t := s[0], s[1..];
      assert s == [c] + t;
      PlainCons(c, t);
      PlainHasNo(s, v, 0);
      assert (s + v)[0..] == s + v && (s + v)[1..] == t + v;
      ScanMaskSegment(t, v, inside);
      MaskCons(c, t);
      EncCons(if c == ';' && inside then Mark else Char(c), ScanMask(t + v, inside));
      AppendThree(if c == ';' && inside then MARK else [c], if inside then Mask(t) else t, Enc(ScanMask(v, inside)));
    }
  }

  lemma {:induction false} ScanMaskDollars(v: string, inside: bool)
    ensures Enc(ScanMask("$$" + v, inside)) == "$$" + Enc(ScanMask(v, !inside))
  {
    assert ("$$" + v)[..2] == "$$" && ("$$" + v)[2..] == v;
    var x := ScanMask(v, !inside);
    assert [Char('$'), Char('$')] + x == [Char('$')] + ([Char('$')] + x);
    EncCons(Char('$'), [Char('$')] + x);
    EncCons(Char('$'), x);
    assert "$" + ("$" + Enc(x)) == "$$" + Enc(x);
  }

  /** On a paired and isolated text, hiding what the scanner calls quoted is masking every body. */
  lemma {:induction false} ScanMaskSegs(segs: seq<string>, inside: bool)
    requires SegsOk(segs) && segs != []
    ensures Enc(ScanMask(JoinDollars(segs), inside)) == JoinDollars(Hidden(segs, inside))
    decreases |segs|
  {
    var h := if inside then Mask(segs[0]) else segs[0];
    assert SegOk(segs, 0);
    if |segs| == 1 {
      assert segs[0] + "" == segs[0];
      ScanMaskSegment(segs[0], "", inside);
      assert h + "" == h;
    } else {
      var rest := segs[1..];
      ScanMaskSegment(segs[0], "$$" + JoinDollars(rest), inside);
      ScanMaskDollars(JoinDollars(rest), inside);
      SegsTail(segs, 1);
      ScanMaskSegs(rest, !inside);
      HiddenCons(segs, inside);
      JoinOne(h, Hidden(rest, !inside));
    }
  }

  lemma {:induction false} HiddenTail(segs: seq<string>, inside: bool, j: nat)
    requires 0 < j < |segs|
    ensures Hidden(segs, inside)[j] == Hidden(segs[1..], !inside)[j - 1]
  {
    assert segs[1..][j - 1] == segs[j];
    assert (j - 1) % 2 == 1 <==> j % 2 == 0;
  }

  lemma {:induction false} HiddenCons(segs: seq<string>, inside: bool)
    requires segs != []
    ensures Hidden(segs, inside) == [if inside then Mask(segs[0]) else segs[0]] + Hidden(segs[1..], !inside)
  {
    var h := if inside then Mask(segs[0]) else segs[0];
    assert Hidden(segs, inside)[0] == h;
    forall j | 0 < j < |segs| ensures Hidden(segs, inside)[j] == ([h] + Hidden(segs[1..], !inside))[j] {
      HiddenTail(segs, inside, j);
    }
  }

  lemma {:induction false} DecSplitDollars(x: seq<Sym>)
    ensures var p := DecAll(SymSplit(x));
            DecAll(SymSplit([Char('$'), Char('$')] + x)) == ["$$" + p[0]] + p[1..]
  {
    assert [Char('$'), Char('$')] + x == [Char('$')] + ([Char('$')] + x);
    DecSplitCons(Char('$'), x);
    DecSplitCons(Char('$'), [Char('$')] + x);
    var p := DecAll(SymSplit(x));
    assert "$" + ("$" + p[0]) == "$$" + p[0];
  }

  /** The scanner's pieces are the pieces of the text with the quoted semicolons hidden. */
  lemma {:induction false} ScanSplits(t: string, inside: bool, current: string)
    ensures var p := DecAll(SymSplit(ScanMask(t, inside)));
            Scan(t, inside, current) == [current + p[0]] + p[1..]
    decreases |t|
  {
    if t == "" {
      var e: seq<seq<Sym>> := [[]];
      assert e[1..] == [];
      assert current + "" == current;
    } else if StartsWith(t, "$$") {
      var x := ScanMask(t[2..], !inside);
      ScanSplits(t[2..], !inside, current + "$$");
      DecSplitDollars(x);
      AppendThree(current, "$$", DecAll(SymSplit(x))[0]);
    } else if t[0] == ';' && !inside {
      ScanSplits(t[1..], inside, "");
      var x := ScanMask(t[1..], inside);
      DecSplitSemicolon(x);
      var p := DecAll(SymSplit(x));
      assert "" + p[0] == p[0] && p == [p[0]] + p[1..];
      assert ([""] + p)[1..] == p && current + "" == current;
    } else {
      var s := if t[0] == ';' && inside then Mark else Char(t[0]);
      ScanSplits(t[1..], inside, current + [t[0]]);
      DecSplitCons(s, ScanMask(t[1..], inside));
      AppendThree(current, [t[0]], DecAll(SymSplit(ScanMask(t[1..], inside)))[0]);
    }
  }

  // ---- The statements tell where the text was split ----

  /** A finished piece, as a statement. */
  function Emit(current: string): seq<string> { if Strip(current) == "" then [] else [Strip(current)] }

  /** The statements of a masked text, read from the front; `current` is the piece so far. */
  function Collect(current: string, x: seq<Sym>): seq<string>
    decreases |x|
  {
    if x == [] then Emit(current)
    else if x[0] == Char(';') then Emit(current) + Collect("", x[1..])
    else Collect(current + [if x[0].Mark? then ';' else x[0].c], x[1..])
  }

  lemma {:induction false} AppendPieces(a: seq<string>, b: seq<string>, c: seq<string>)
    ensures a + (b + c) == (a + b) + c
  {}

  lemma {:induction false} TrimmedSnoc(ps: seq<string>, p: string)
    ensures Trimmed(ps + [p]) == Trimmed(ps) + Emit(p)
  {
    assert (ps + [p])[..|ps|] == ps;
  }

  lemma {:induction false} TrimmedCons(p: string, ps: seq<string>)
    ensures Trimmed([p] + ps) == Emit(p) + Trimmed(ps)
  {
    if ps == [] {
      TrimmedSnoc([], p);
      assert [p] + ps == [] + [p];
    } else {
      var front, last := ps[..|ps| - 1], ps[|ps| - 1];
      assert ps == front + [last];
      TrimmedCons(p, front);
      TrimmedSnoc(front, last);
      TrimmedSnoc([p] + front, last);
      AppendPieces([p], front, [last]);
      AppendPieces(Emit(p), Trimmed(front), Emit(last));
    }
  }

  lemma {:induction false} CollectSplits(current: string, x: seq<Sym>)
    ensures var p := DecAll(SymSplit(x)); Collect(current, x) == Trimmed([current + p[0]] + p[1..])
    decreases |x|
  {
    if x == [] {
      var e: seq<seq<Sym>> := [[]];
      assert e[1..] == [] && current + "" == current;
      TrimmedCons(current, []);
    } else {
      var rest := x[1..];
      var p := DecAll(SymSplit(rest));
      assert x == [x[0]] + rest && p == [p[0]] + p[1..];
      if x[0] == Char(';') {
        CollectSplits("", rest);
        DecSplitSemicolon(rest);
        assert "" + p[0] == p[0] && current + "" == current && ([""] + p)[1..] == p;
        TrimmedCons(current, p);
      } else {
        var c := [if x[0].Mark? then ';' else x[0].c];
        CollectSplits(current + c, rest);
        DecSplitCons(x[0], rest);
        AppendThree(current, c, p[0]);
      }
    }
  }

  lemma {:induction false} CollectIsTrimmed(x: seq<Sym>)
    ensures Collect("", x) == Trimmed(DecAll(SymSplit(x)))
  {
    var p := DecAll(SymSplit(x));
    CollectSplits("", x);
    assert "" + p[0] == p[0] && p == [p[0]] + p[1..];
  }

  lemma {:induction false} StripLeftAppend(s: string, t: string)
    ensures StripLeft(s) != "" ==> StripLeft(s + t) == StripLeft(s) + t
    ensures StripLeft(s) == "" ==> StripLeft(s + t) == StripLeft(t)
  {
    if s == "" {
      assert s + t == t;
    } else if IsSpace(s[0]) {
      assert (s + t)[1..] == s[1..] + t;
      StripLeftAppend(s[1..], t);
    }
  }

  lemma {:induction false} StripLeftHead(s: string)
    ensures StripLeft(s) != "" ==> !IsSpace(StripLeft(s)[0])
  {
    if s != "" && IsSpace(s[0]) { StripLeftHead(s[1..]); }
  }

  /** Trimming on the right keeps everything up to a character that is no space. */
  lemma {:induction false} StripRightKeeps(s: string, c: char, t: string)
    requires !IsSpace(c)
    ensures StartsWith(StripRight(s + [c] + t), s + [c])
  {
    var u := s + [c] + t;
    if t == "" {
      assert u == s + [c];
    } else if IsSpace(t[|t| - 1]) {
      assert u[..|u| - 1] == s + [c] + t[..|t| - 1];
      StripRightKeeps(s, c, t[..|t| - 1]);
    }
  }

  lemma {:induction false} StripRightShort(s: string)
    ensures |StripRight(s)| <= |s| && StripRight(s) == s[..|StripRight(s)|]
    ensures s != "" && !IsSpace(s[0]) ==> StripRight(s) != ""
  {
    if s != "" && IsSpace(s[|s| - 1]) {
      StripRightShort(s[..|s| - 1]);
      var n := |StripRight(s)|;
      assert s[..|s| - 1][..n] == s[..n];
    }
  }

  /** The next statement keeps the piece so far, once that ends in a character that is no space. */
  lemma {:induction false} CollectKeeps(piece: string, c: char, more: string, x: seq<Sym>)
    requires !IsSpace(c)
    ensures var r := Collect(piece + [c] + more, x); r != [] && StartsWith(r[0], StripLeft(piece) + [c])
    decreases |x|
  {
    var current := piece + [c] + more;
    if x == [] || x[0] == Char(';') {
      assert current == piece + ([c] + more);
      StripLeftAppend(piece, [c] + more);
      assert StripLeft([c] + more) == [c] + more;
      var l := StripLeft(piece);
      assert StripLeft(current) == l + [c] + more by {
        assert l + ([c] + more) == l + [c] + more;
        assert l == "" ==> l + ([c] + more) == [c] + more;
      }
      StripRightKeeps(l, c, more);
    } else {
      var d := [if x[0].Mark? then ';' else x[0].c];
      assert current + d == piece + [c] + (more + d);
      CollectKeeps(piece, c, more + d, x[1..]);
    }
  }

  lemma {:induction false} CollectKeepsNow(piece: string, c: char, x: seq<Sym>)
    requires !IsSpace(c)
    ensures var r := Collect(piece + [c], x); r != [] && |r[0]| > |StripLeft(piece)|
    ensures StripLeft(piece) == "" ==> Collect(piece + [c], x)[0][0] == c
  {
    assert piece + [c] + "" == piece + [c];
    CollectKeeps(piece, c, "", x);
    var r := Collect(piece + [c], x);
    assert StripLeft(piece) == "" ==> StripLeft(piece) + [c] == [c];
    assert r[0][..1][0] == r[0][0];
  }

  /** Outside quotes or with something before it: the piece cannot begin with a semicolon. */
  ghost predicate NoLeadingSemicolon(current: string, inside: bool) {
    (inside ==> StripLeft(current) != "") && (StripLeft(current) != "" ==> StripLeft(current)[0] != ';')
  }

  lemma {:induction false} LeadKept(current: string, c: char, inside: bool, inside': bool)
    requires NoLeadingSemicolon(current, inside) && (c == ';' ==> inside) && (inside' ==> inside || !IsSpace(c))
    ensures NoLeadingSemicolon(current + [c], inside')
  {
    StripLeftAppend(current, [c]);
    assert !IsSpace(c) ==> StripLeft([c]) == [c];
    assert IsSpace(c) ==> StripLeft([c]) == "" by { assert [c][1..] == ""; }
  }

  lemma {:induction false} EmitLeads(current: string)
    requires NoLeadingSemicolon(current, false)
    ensures Emit(current) != [] ==> Emit(current)[0] != "" && Emit(current)[0][0] != ';'
    ensures Emit(current) == [] <==> StripLeft(current) == ""
  {
    var l := StripLeft(current);
    StripLeftHead(current);
    StripRightShort(l);
    assert Strip(current) != "" ==> Strip(current)[0] == l[0];
  }

  lemma {:induction false} CollectCons(current: string, s: Sym, x: seq<Sym>)
    ensures Collect(current, [s] + x) ==
            if s == Char(';') then Emit(current) + Collect("", x)
            else Collect(current + [if s.Mark? then ';' else s.c], x)
  {
    assert ([s] + x)[1..] == x;
  }

  lemma {:induction false} CollectDollars(current: string, x: seq<Sym>)
    ensures Collect(current, [Char('$'), Char('$')] + x) == Collect(current + "$$", x)
  {
    assert [Char('$'), Char('$')] + x == [Char('$')] + ([Char('$')] + x);
    CollectCons(current, Char('$'), [Char('$')] + x);
    CollectCons(current + "$", Char('$'), x);
    assert current + "$" + "$" == current + "$$";
  }

  /** No statement of the scanner begins with a semicolon. */
  lemma {:induction false} ScannedNeverLeads(current: string, t: string, inside: bool)
    requires NoLeadingSemicolon(current, inside)
    ensures var r := Collect(current, ScanMask(t, inside)); r != [] ==> r[0] != "" && r[0][0] != ';'
    decreases |t|
  {
    if t == "" {
      EmitLeads(current);
    } else if StartsWith(t, "$$") {
      CollectDollars(current, ScanMask(t[2..], !inside));
      LeadKept(current, '$', inside, inside);
      LeadKept(current + "$", '$', inside, true);
      assert current + "$" + "$" == current + "$$";
      ScannedNeverLeads(current + "$$", t[2..], !inside);
    } else if t[0] == ';' && !inside {
      CollectCons(current, Char(';'), ScanMask(t[1..], inside));
      EmitLeads(current);
      ScannedNeverLeads("", t[1..], inside);
    } else {
      CollectCons(current, if t[0] == ';' && inside then Mark else Char(t[0]), ScanMask(t[1..], inside));
      LeadKept(current, t[0], inside, inside);
      ScannedNeverLeads(current + [t[0]], t[1..], inside);
    }
  }

  /** Splitting at a semicolon and keeping it give different statements, whatever follows;
      `x` must not lead with a semicolon when the piece before it is blank. */
  lemma {:induction false} SplitOrKept(current: string, x: seq<Sym>, y: seq<Sym>)
    requires StripLeft(current) != "" ||
             (var r := Collect("", x); r != [] ==> r[0] != "" && r[0][0] != ';')
    ensures Collect(current, [Char(';')] + x) != Collect(current, [Mark] + y)
  {
    CollectCons(current, Char(';'), x);
    CollectCons(current, Mark, y);
    CollectKeepsNow(current, ';', y);
    var l := StripLeft(current);
    StripLeftHead(current);
    StripRightShort(l);
    if l != "" { assert Collect(current, [Char(';')] + x)[0] == Strip(current); }
  }

  lemma {:induction false} DecHead(x: seq<Sym>, c: char, t: string)
    requires Dec(x) == [c] + t
    ensures x != [] && Dec(x[1..]) == t && x == [x[0]] + x[1..]
    ensures x[0] == Char(c) || (c == ';' && x[0] == Mark)
  {
    assert Dec(x)[0] == c && Dec(x)[1..] == t;
    assert ([c] + t)[0] == c && ([c] + t)[1..] == t;
  }

  /** Two maskings of one text, one of them the scanner's, that give the same statements are the same. */
  lemma {:induction false} StatementsTell(current: string, x: seq<Sym>, t: string, inside: bool)
    requires Dec(x) == t && (inside ==> StripLeft(current) != "")
    requires Collect(current, x) == Collect(current, ScanMask(t, inside))
    ensures x == ScanMask(t, inside)
    decreases |t|
  {
    var y := ScanMask(t, inside);
    if t == "" {
    } else if StartsWith(t, "$$") {
      assert t == ['$'] + (['$'] + t[2..]);
      DecHead(x, '$', ['$'] + t[2..]);
      DecHead(x[1..], '$', t[2..]);
      var x' := x[1..][1..];
      assert x == [Char('$'), Char('$')] + x';
      CollectDollars(current, x');
      CollectDollars(current, ScanMask(t[2..], !inside));
      StripLeftAppend(current, "$$");
      StatementsTell(current + "$$", x', t[2..], !inside);
    } else {
      assert t == [t[0]] + t[1..];
      DecHead(x, t[0], t[1..]);
      StatementsTellOne(current, x, t, inside);
      CollectCons(current, x[0], x[1..]);
      CollectCons(current, x[0], y[1..]);
      StripLeftAppend(current, [t[0]]);
      if x[0] == Char(';') {
        assert |Emit(current)| <= 1;
        assert Collect("", x[1..]) == Collect(current, x)[|Emit(current)|..];
        assert Collect("", y[1..]) == Collect(current, y)[|Emit(current)|..];
        StatementsTell("", x[1..], t[1..], inside);
      } else {
        StatementsTell(current + [t[0]], x[1..], t[1..], inside);
      }
    }
  }

  /** Both maskings treat the first character alike. */
  lemma {:induction false} StatementsTellOne(current: string, x: seq<Sym>, t: string, inside: bool)
    requires t != "" && !StartsWith(t, "$$") && Dec(x) == t && (inside ==> StripLeft(current) != "")
    requires Collect(current, x) == Collect(current, ScanMask(t, inside))
    ensures x != [] && x[0] == ScanMask(t, inside)[0]
  {
    assert t == [t[0]] + t[1..];
    DecHead(x, t[0], t[1..]);
    var rest := ScanMask(t[1..], inside);
    if t[0] == ';' {
      if !inside && x[0] == Mark {
        ScannedNeverLeads("", t[1..], inside);
        SplitOrKept(current, rest, x[1..]);
        assert false;
      } else if inside && x[0] == Char(';') {
        SplitOrKept(current, x[1..], rest);
        assert false;
      }
    }
  }

  // ---- Main results ----

  lemma {:induction false} QuotedSegments(sql: string)
    requires Quoted(sql)
    ensures var segs := Segments(sql);
            JoinDollars(segs) == sql && SegsOk(segs) && NoHashes(segs)
  {
    var segs := Segments(sql);
    SegmentsJoin(sql);
    forall k ensures SegOk(segs, k) { SegmentsPlain(sql, k); }
    JoinHashes(segs);
  }

  lemma {:induction false} JoinHashes(segs: seq<string>)
    requires segs != [] && '#' !in JoinDollars(segs)
    ensures NoHashes(segs)
  {
    if |segs| > 1 {
      assert JoinDollars(segs) == segs[0] + ("$$" + JoinDollars(segs[1..]));
      JoinHashes(segs[1..]);
      forall k | 0 <= k < |segs| ensures '#' !in segs[k] { if k > 0 { assert segs[k] == segs[1..][k - 1]; } }
    }
  }

  /** The text after the first loop. */
  ghost function AfterFirst(sql: string): string {
    JoinDollars(Looped(Segments(sql), (|Segments(sql)| - 1) / 2))
  }

  lemma {:induction false} FirstPass(sql: string)
    requires Quoted(sql)
    ensures MaskMatches(sql, "$$", "$$") == AfterFirst(sql)
  {
    QuotedSegments(sql);
    FirstLoopSegments(Segments(sql));
  }

  lemma {:induction false} AfterFirstLoop(sql: string)
    requires Quoted(sql)
    ensures MaskMatches(sql, "$$", "$$") == AfterFirst(sql)
    ensures MaskedSql(sql) == MaskMatches(AfterFirst(sql), "DO $$", "END $$")
    ensures Enc(ScanMask(sql, false)) == HiddenText(sql)
  {
    FirstPass(sql);
    ScannedText(sql);
  }

  lemma {:induction false} ScannedText(sql: string)
    requires Quoted(sql)
    ensures Enc(ScanMask(sql, false)) == HiddenText(sql)
  {
    QuotedSegments(sql);
    ScanMaskSegs(Segments(sql), false);
  }

  /** Text that hides at least a gap is not the text that hides the bodies alone. */
  lemma {:induction false} GapNotShown(segs: seq<string>, before: seq<bool>, j: nat, w: string)
    requires NoHashes(segs) && |before| == |segs| && IsGap(segs, j) && before[j]
    requires Hides(w, SymJoin(segs, before))
    ensures w != JoinDollars(Hidden(segs, false))
  {
    var after := seq(|segs|, k requires 0 <= k < |segs| => k % 2 == 1);
    assert Hidden(segs, false) == Shown(segs, after);
    var x, y := SymJoin(segs, before), SymJoin(segs, after);
    SymJoinText(segs, after);
    if w == Enc(y) {
      var z :| Clean(z) && Enc(z) == w && Covers(z, x);
      EncInjective(y, z);
      assert MarksIn(x, y);
      HidesSegment(segs, after, before, j);
      assert false;
    }
  }

  /** The second loop hides no less than the first. */
  lemma {:induction false} MaskedHides(sql: string, x: seq<Sym>)
    requires Quoted(sql) && Clean(x) && Enc(x) == AfterFirst(sql)
    ensures Hides(MaskedSql(sql), x)
  {
    AfterFirstLoop(sql);
    LoopKeeps(x, "DO $$", "END $$");
  }

  lemma {:induction false} WhichMasked(segs: seq<string>, n: nat) returns (masked: seq<bool>)
    requires 2 * n <= |segs|
    ensures |masked| == |segs| && Shown(segs, masked) == Looped(segs, n)
    ensures forall k :: 0 <= k < |segs| ==> (masked[k] <==> Looped(segs, n)[k] != segs[k])
  {
    var ts := Looped(segs, n);
    masked := seq(|segs|, k requires 0 <= k < |segs| => ts[k] != segs[k]);
    forall k | 0 <= k < |segs| ensures ts[k] == Shown(segs, masked)[k] { LoopedAt(segs, n, k); }
  }

  /** The text after `n` iterations, as symbols. */
  lemma {:induction false} LoopedSymbols(segs: seq<string>, n: nat) returns (masked: seq<bool>)
    requires NoHashes(segs) && segs != [] && 2 * n <= |segs|
    ensures |masked| == |segs| && Clean(SymJoin(segs, masked))
    ensures Enc(SymJoin(segs, masked)) == JoinDollars(Looped(segs, n))
    ensures forall k :: 0 <= k < |segs| ==> (masked[k] <==> Looped(segs, n)[k] != segs[k])
  {
    masked := WhichMasked(segs, n);
    SymJoinText(segs, masked);
  }

  lemma {:induction false} HiddenGapDiffers(sql: string, masked: seq<bool>, j: nat)
    requires Quoted(sql) && |masked| == |Segments(sql)| && IsGap(Segments(sql), j) && masked[j]
    requires Clean(SymJoin(Segments(sql), masked)) && Enc(SymJoin(Segments(sql), masked)) == AfterFirst(sql)
    ensures MaskedSql(sql) != HiddenText(sql)
  {
    QuotedSegments(sql);
    MaskedHides(sql, SymJoin(Segments(sql), masked));
    GapNotShown(Segments(sql), masked, j, MaskedSql(sql));
  }

  /** A gap the first loop hides is still hidden at the end, where the scanner shows it. */
  lemma {:induction false} HiddenGapStays(sql: string)
    requires Quoted(sql) && GapHidden(Segments(sql), Looped(Segments(sql), (|Segments(sql)| - 1) / 2))
    ensures MaskedSql(sql) != HiddenText(sql)
  {
    var segs, n := Segments(sql), (|Segments(sql)| - 1) / 2;
    QuotedSegments(sql);
    var j :| GapHiddenAt(segs, Looped(segs, n), j);
    var masked := LoopedSymbols(segs, n);
    assert masked[j] by { MaskHides(segs[j]); }
    HiddenGapDiffers(sql, masked, j);
  }

  // ---- Neither loop reaches an unclosed quote ----

  /** A match that ends in `$$` ends before a last segment that has none. */
  lemma {:induction false} EndsBefore(w: string, last: string, m: string)
    requires PlainLast(last) && !StartsWith(last, "$") && EndsWith(m, "$$") && StartsWith(w + last, m)
    ensures |m| <= |w|
  {
    var t, n := w + last, |m| - 2;
    assert m == m[..n] + "$$";
    assert t[n] == t[..|m|][n] == m[n] == '$' && t[n + 1] == t[..|m|][n + 1] == m[n + 1] == '$';
    assert last != "" ==> last[..1] == [last[0]];
    if n >= |w| {
      PlainHasNo(last, "", n - |w|);
      TwoDollars(last + "", n - |w|);
      assert false;
    }
  }

  lemma {:induction false} ReplaceKeepsEnd(w: string, last: string, m: string, r: string) returns (w': string)
    requires PlainLast(last) && !StartsWith(last, "$") && EndsWith(m, "$$")
    ensures Replace(w + last, m, r) == w' + last
  {
    var t := w + last;
    if StartsWith(t, m) {
      EndsBefore(w, last, m);
      var rest := ReplaceKeepsEnd(w[|m|..], last, m, r);
      assert t[|m|..] == w[|m|..] + last;
      w' := r + rest;
      AppendThree(r, rest, last);
    } else if w == "" {
      w' := "";
      forall k | 0 <= k < |last| ensures !StartsWith((last + "")[k..], m) { NotInLast(last, m, k); }
      ReplaceSkip(last, "", m, r);
      assert last + "" == last && t == last && last + Replace("", m, r) == "" + last;
    } else {
      var rest := ReplaceKeepsEnd(w[1..], last, m, r);
      assert t[1..] == w[1..] + last;
      w' := [t[0]] + rest;
      AppendThree([t[0]], rest, last);
    }
  }

  lemma {:induction false} NotInLast(last: string, m: string, k: nat)
    requires PlainLast(last) && EndsWith(m, "$$") && k < |last|
    ensures !StartsWith((last + "")[k..], m)
  {
    var n := |m| - 2;
    assert m == m[..n] + "$$";
    NoPatternInLast(last, m[..n]);
    assert last + "" == last;
    if StartsWith(last[k..], m) {
      FindsFirst(last, m, k);
      assert false;
    }
  }

  lemma {:induction false} FindsFirst(t: string, pat: string, k: nat)
    requires k <= |t| && StartsWith(t[k..], pat)
    ensures Find(t, pat) != -1
  {
    if k == 0 {
      assert t[0..] == t;
    } else {
      assert t[1..][k - 1..] == t[k..];
      FindsFirst(t[1..], pat, k - 1);
    }
  }

  ghost predicate AllEndInDollars(ms: seq<string>) { forall k :: 0 <= k < |ms| ==> EndsWith(ms[k], "$$") }

  lemma {:induction false} MaskEachKeepsEnd(w: string, last: string, ms: seq<string>) returns (w': string)
    requires PlainLast(last) && !StartsWith(last, "$") && NonEmpty(ms) && AllEndInDollars(ms)
    ensures MaskEach(w + last, ms) == w' + last
  {
    if ms == [] {
      w' := w;
    } else {
      var n := |ms| - 1;
      var u := MaskEachKeepsEnd(w, last, ms[..n]);
      w' := ReplaceKeepsEnd(u, last, ms[n], Mask(ms[n]));
    }
  }

  lemma {:induction false} SecondLoopKeepsEnd(w: string, last: string) returns (w': string)
    requires PlainLast(last) && !StartsWith(last, "$")
    ensures MaskMatches(w + last, "DO $$", "END $$") == w' + last
  {
    var t := w + last;
    var ms := Matches(t, "DO $$", "END $$");
    NonEmptyMatches(t, "DO $$", "END $$");
    forall k | 0 <= k < |ms| ensures EndsWith(ms[k], "$$") {
      MatchesAreStretches(t, "DO $$", "END $$", k);
      var u, body, v :| t == u + (ms[k] + v) && ms[k] == "DO $$" + (body + "END $$");
      assert ms[k][|ms[k]| - 2..] == "$$";
    }
    w' := MaskEachKeepsEnd(w, last, ms);
  }

  lemma {:induction false} JoinEnd(a: string, b: string, c: string)
    ensures a + ("$$" + (b + c)) == (a + ("$$" + b)) + c
  {
    AppendThree("$$", b, c);
    AppendThree(a, "$$" + b, c);
  }

  lemma {:induction false} JoinLast(ts: seq<string>) returns (w: string)
    requires ts != []
    ensures JoinDollars(ts) == w + ts[|ts| - 1]
  {
    if |ts| == 1 {
      w := "";
      assert "" + ts[0] == ts[0];
    } else {
      var rest := JoinLast(ts[1..]);
      w := ts[0] + ("$$" + rest);
      assert ts[1..][|ts| - 2] == ts[|ts| - 1];
      JoinEnd(ts[0], rest, ts[|ts| - 1]);
    }
  }

  lemma {:induction false} SameFromEnd(w: string, s: string, w': string, s': string, k: nat)
    requires w + s == w' + s' && k < |s| && k < |s'|
    ensures s[|s| - 1 - k] == s'[|s'| - 1 - k]
  {
    var n := |w + s| - 1 - k;
    assert (w + s)[n] == s[|s| - 1 - k] && (w' + s')[n] == s'[|s'| - 1 - k];
  }

  /** A text that ends with a segment as it is does not end with the segment masked. */
  lemma {:induction false} MaskedEndDiffers(w: string, w': string, last: string)
    requires ';' in last
    ensures w + last != w' + Mask(last)
  {
    MaskLonger(last);
    MaskHides(last);
    var i :| 0 <= i < |last| && last[i] == ';';
    if w + last == w' + Mask(last) {
      SameFromEnd(w, last, w', Mask(last), |last| - 1 - i);
      assert false;
    }
  }

  lemma {:induction false} SecondLoopEnd(ts: seq<string>) returns (u: string)
    requires ts != [] && PlainLast(ts[|ts| - 1]) && !StartsWith(ts[|ts| - 1], "$")
    ensures MaskMatches(JoinDollars(ts), "DO $$", "END $$") == u + ts[|ts| - 1]
  {
    var w := JoinLast(ts);
    u := SecondLoopKeepsEnd(w, ts[|ts| - 1]);
  }

  lemma {:induction false} HiddenLast(segs: seq<string>)
    requires segs != [] && !OpenEndPlain(segs)
    ensures Hidden(segs, false)[|segs| - 1] == Mask(segs[|segs| - 1]) && ';' in segs[|segs| - 1]
  {
    assert (|segs| - 1) % 2 == 1;
  }

  lemma {:induction false} UnclosedTexts(segs: seq<string>, ts: seq<string>)
    requires segs != [] && |ts| == |segs| && !OpenEndPlain(segs)
    requires var last := segs[|segs| - 1]; PlainLast(last) && !StartsWith(last, "$") && ts[|segs| - 1] == last
    ensures MaskMatches(JoinDollars(ts), "DO $$", "END $$") != JoinDollars(Hidden(segs, false))
  {
    HiddenLast(segs);
    var u := SecondLoopEnd(ts);
    var v := JoinLast(Hidden(segs, false));
    MaskedEndDiffers(u, v, segs[|segs| - 1]);
  }

  /** The scanner hides the semicolons of an unclosed quote; the splitter shows them. */
  lemma {:induction false} UnclosedShown(sql: string)
    requires Quoted(sql) && !OpenEndPlain(Segments(sql))
    ensures MaskedSql(sql) != HiddenText(sql)
  {
    var segs := Segments(sql);
    var n := (|segs| - 1) / 2;
    QuotedSegments(sql);
    assert SegOk(segs, |segs| - 1);
    AfterFirstLoop(sql);
    LastStays(segs, n);
    UnclosedTexts(segs, Looped(segs, n));
  }

  // ---- The condition is exact ----

  /** Where the first loop does not hide exactly the quoted semicolons, the second does not repair it. */
  lemma {:induction false} NotRepaired(sql: string)
    requires Quoted(sql) && !(OpenEndPlain(Segments(sql)) && GapsApart(Segments(sql)))
    ensures MaskedSql(sql) != HiddenText(sql)
  {
    var segs := Segments(sql);
    if !OpenEndPlain(segs) {
      UnclosedShown(sql);
    } else {
      var j, k :| !GapApart(segs, j, k);
      RepeatedGapHidden(segs, j, k);
      HiddenGapStays(sql);
    }
  }

  /** The two loops hide exactly the quoted semicolons if and only if the text is well quoted. */
  lemma {:induction false} MaskedIsScannedExactly(sql: string)
    requires Quoted(sql)
    ensures MaskedSql(sql) == Enc(ScanMask(sql, false)) <==> WellQuoted(sql)
  {
    var segs := Segments(sql);
    QuotedSegments(sql);
    AfterFirstLoop(sql);
    if OpenEndPlain(segs) && GapsApart(segs) {
      FirstLoopExactly(segs);
      SecondLoopExactly(HiddenText(sql));
    } else {
      NotRepaired(sql);
    }
  }

  /** For every text without '#', the statements are the scanner's exactly when the masked texts agree:
      hiding a wrong set of semicolons always shows in the statements. */
  lemma {:induction false} StatementsTellMask(sql: string)
    requires '#' !in sql
    ensures Statements(Split(MaskedSql(sql))) == ScannedStatements(sql)
       <==> MaskedSql(sql) == Enc(ScanMask(sql, false))
  {
    var y := ScanMask(sql, false);
    MaskedSqlMasks(sql);
    var x :| Clean(x) && Enc(x) == MaskedSql(sql) && Dec(x) == sql;
    StatementsOf(x);
    CollectIsTrimmed(x);
    CollectIsTrimmed(y);
    ScanMaskClean(sql, false);
    ScannedAreTrimmed(sql);
    if Collect("", x) == Collect("", y) { StatementsTell("", x, sql, false); }
    if Enc(x) == Enc(y) { EncInjective(x, y); }
  }

  lemma {:induction false} ScannedAreTrimmed(sql: string)
    ensures ScannedStatements(sql) == Trimmed(DecAll(SymSplit(ScanMask(sql, false))))
  {
    var p := DecAll(SymSplit(ScanMask(sql, false)));
    ScanSplits(sql, false, "");
    assert "" + p[0] == p[0] && p == [p[0]] + p[1..];
  }

  /** The splitter is the one-pass scanner if and only if the text is well quoted:
      for all texts without '#' in which every `$$` stands alone. */
  lemma {:induction false} SplitterRefinesScannerExactly(sql: string)
    requires Quoted(sql)
    ensures Statements(Split(MaskedSql(sql))) == ScannedStatements(sql) <==> WellQuoted(sql)
  {
    MaskedIsScannedExactly(sql);
    StatementsTellMask(sql);
  }

  /** In particular where every `DO $$` opens a block whose body ends in `END `. */
  lemma {:induction false} SplitterRefinesScanner(sql: string)
    requires Quoted(sql) && OpenEndPlain(Segments(sql)) && GapsApart(Segments(sql)) && DoBlocksEnd(Segments(sql))
    ensures Statements(Split(MaskedSql(sql))) == ScannedStatements(sql)
  {
    QuotedSegments(sql);
    DoBlocksMatchWhole(Segments(sql));
    SplitterRefinesScannerExactly(sql);
  }

  /** Whatever stands around them: a gap that repeats a body other than the one right before it
      makes the splitter return other statements. */
  lemma {:induction false} RepeatedGapBreaksSplitter(sql: string, j: nat, k: nat)
    requires Quoted(sql) && IsGap(Segments(sql), j)
    requires k < |Segments(sql)| - 1 && k % 2 == 1 && k != j - 1 && Segments(sql)[k] == Segments(sql)[j]
    ensures Statements(Split(MaskedSql(sql))) != ScannedStatements(sql)
  {
    assert !GapApart(Segments(sql), j, k);
    SplitterRefinesScannerExactly(sql);
  }

  /** The shortest such text: the gap is hidden and the second body is not. */
  lemma {:induction false} RepeatedGapExample()
    ensures var sql := "$$a$$;$$;$$"; Statements(Split(MaskedSql(sql))) != ScannedStatements(sql)
  {
    var segs := ["", "a", ";", ";", ""];
    var sql := JoinDollars(segs);
    assert sql == "$$a$$;$$;$$" by {
      assert segs[1..] == ["a", ";", ";", ""] && segs[1..][1..] == [";", ";", ""];
      assert segs[1..][1..][1..] == [";", ""] && segs[1..][1..][1..][1..] == [""];
    }
    forall k ensures SegOk(segs, k) {}
    SegmentsOfJoin(segs);
    RepeatedGapBreaksSplitter(sql, 2, 3);
  }

  /** A quote that is opened and never closed, with a semicolon in it, is split at it. */
  lemma {:induction false} UnclosedBreaksSplitter(sql: string)
    requires Quoted(sql) && |Segments(sql)| % 2 == 0 && ';' in Segments(sql)[|Segments(sql)| - 1]
    ensures Statements(Split(MaskedSql(sql))) != ScannedStatements(sql)
  {
    SplitterRefinesScannerExactly(sql);
  }

  lemma {:induction false} SkipForEnd(s: string, v: string)
    requires Plain(s) && !EndsWith(s, "END ") && Find(v, "END $$") != -1
    ensures Find(s + ("$$" + v), "END $$") == |s| + 2 + Find(v, "END $$")
  {
    assert s + ("$$" + v) == (s + "$$") + v;
    assert "END " + "$$" == "END $$";
    forall k | 0 <= k < |s + "$$"| ensures !StartsWith(((s + "$$") + v)[k..], "END $$") {
      NoPatternIn(s, v, "END ", k);
    }
    FindSkip(s + "$$", v, "END $$");
  }

  lemma {:induction false} SpanEnds(b: string, c: string, d: string, v: string)
    requires Plain(b) && Plain(c) && Plain(d)
    requires !EndsWith(b, "END ") && !EndsWith(c, "END ") && EndsWith(d, "END ")
    ensures Find(b + ("$$" + (c + ("$$" + (d + ("$$" + v))))), "END $$") == |b| + 2 + |c| + 2 + |d| - 4
  {
    var w := d + ("$$" + v);
    EndCut(d, "END ");
    assert "END " + "$$" == "END $$";
    FoundAtEnd(d[..|d| - 4], "END ", v);
    SkipForEnd(c, w);
    SkipForEnd(b, c + ("$$" + w));
  }

  /** A `DO` block that does not end in `END `, a gap, and a later body that does are matched as one. */
  lemma {:induction false} SpanMatched(g: string, b: string, c: string, d: string, v: string)
    requires Plain(g) && Plain(b) && Plain(c) && Plain(d) && EndsWith(g, "DO ")
    requires !EndsWith(b, "END ") && !EndsWith(c, "END ") && EndsWith(d, "END ") && ';' in c
    ensures !NoSemicolons(
              Matches(g + ("$$" + (b + ("$$" + (c + ("$$" + (d + ("$$" + v))))))), "DO $$", "END $$"))
  {
    var rest := b + ("$$" + (c + ("$$" + (d + ("$$" + v)))));
    DoOpens(g, rest);
    SpanEnds(b, c, d, v);
    var n := Find(rest, "END $$") + 6;
    SpanHolds(b, c, "$$" + (d + ("$$" + v)), n);
    OpenedFirst(rest, "DO $$" + rest[..n]);
  }

  lemma {:induction false} SpanHolds(b: string, c: string, v: string, n: nat)
    requires ';' in c && |b| + 2 + |c| <= n <= |b| + 2 + |c| + |v|
    ensures ';' in (b + ("$$" + (c + v)))[..n]
  {
    var i :| 0 <= i < |c| && c[i] == ';';
    assert (b + ("$$" + (c + v)))[..n][|b| + 2 + i] == c[i];
  }

  lemma {:induction false} OpenedFirst(rest: string, m: string)
    requires Find(rest, "END $$") != -1 && m == "DO $$" + rest[..Find(rest, "END $$") + 6]
    requires ';' in rest[..Find(rest, "END $$") + 6]
    ensures !NoSemicolons(MatchesOpened(rest, "DO $$", "END $$"))
  {
    var n := Find(rest, "END $$") + 6;
    var i :| 0 <= i < n && rest[..n][i] == ';';
    assert m[5 + i] == ';';
    assert MatchesOpened(rest, "DO $$", "END $$")[0] == m;
  }

  /** So wherever such a gap holds a semicolon, whatever follows, the splitter returns other statements. */
  lemma {:induction false} OpenDoBreaksSplitter(segs: seq<string>)
    requires SegsOk(segs) && |segs| > 4 && '#' !in JoinDollars(segs)
    requires EndsWith(segs[0], "DO ") && !EndsWith(segs[1], "END ")
    requires ';' in segs[2] && !EndsWith(segs[2], "END ") && EndsWith(segs[3], "END ")
    ensures var sql := JoinDollars(segs); Statements(Split(MaskedSql(sql))) != ScannedStatements(sql)
  {
    var hs, sql := Hidden(segs, false), JoinDollars(segs);
    SegmentsOfJoin(segs);
    forall k | 0 < k < |segs| ensures !StartsWith(segs[k], "$") { assert SegOk(segs, k); }
    HiddenOk(segs);
    assert SegOk(hs, 0) && SegOk(hs, 1) && SegOk(hs, 2) && SegOk(hs, 3);
    MaskKeepsEnding(segs[1], "END ");
    MaskKeepsEnding(segs[3], "END ");
    JoinFront(hs);
    JoinFront(hs[2..]);
    assert hs[2..][2..] == hs[4..];
    SpanMatched(hs[0], hs[1], hs[2], hs[3], JoinDollars(hs[4..]));
    assert !WellQuoted(sql);
    SplitterRefinesScannerExactly(sql);
  }
}
