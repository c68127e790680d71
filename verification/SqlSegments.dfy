/** The pieces of a text between its `$$`, and what the first masking loop does to them. */
module SqlSegments {
  import opened SqlText
  import opened SqlMask

  /** `t.split("$$")`: even positions lie outside quotes, odd positions are quoted bodies. */
  function Segments(t: string): (segs: seq<string>)
    ensures segs != []
    decreases |t|
  {
    if t == "" then [""]
    else if StartsWith(t, "$$") then [""] + Segments(t[2..])
    else var r := Segments(t[1..]); [[t[0]] + r[0]] + r[1..]
  }

  function JoinDollars(segs: seq<string>): string
    requires segs != []
  {
    if |segs| == 1 then segs[0] else segs[0] + ("$$" + JoinDollars(segs[1..]))
  }

  predicate EndsWith(t: string, pat: string) { |pat| <= |t| && t[|t| - |pat|..] == pat }

  /** No `$$` touches a further dollar sign. */
  ghost predicate Isolated(segs: seq<string>) {
    forall k :: 0 < k < |segs| ==> !StartsWith(segs[k], "$")
  }

  /** A quote that is opened last and never closed holds no semicolon. */
  predicate OpenEndPlain(segs: seq<string>) {
    |segs| > 0 && |segs| % 2 == 0 ==> ';' !in segs[|segs| - 1]
  }

  // ---- First `$$` of a joined text ----

  /** No `$$` inside, none formed with a `$$` that follows. */
  predicate Plain(s: string) {
    s == "" || (!(s[0] == '$' && (|s| == 1 || s[1] == '$')) && Plain(s[1..]))
  }

  /** No `$$` inside a last segment. */
  predicate PlainLast(s: string) {
    s == "" || (!(s[0] == '$' && |s| > 1 && s[1] == '$') && PlainLast(s[1..]))
  }

  /** What the segments of a paired and isolated text satisfy, masked or not. */
  ghost predicate SegsOk(ts: seq<string>) {
    forall k :: SegOk(ts, k)
  }

  ghost predicate SegOk(ts: seq<string>, k: int) {
    PlainAt(ts, k) && (0 < k < |ts| ==> !StartsWith(ts[k], "$"))
  }

  ghost predicate PlainAt(ts: seq<string>, k: int) {
    0 <= k < |ts| ==> if k < |ts| - 1 then Plain(ts[k]) else PlainLast(ts[k])
  }

  lemma {:induction false} TwoDollars(t: string, k: nat)
    requires k <= |t|
    ensures StartsWith(t[k..], "$$") <==> k + 1 < |t| && t[k] == '$' && t[k + 1] == '$'
  {
    if k + 1 < |t| { assert t[k..][..2] == [t[k], t[k + 1]]; }
  }

  lemma {:induction false} PlainHasNo(s: string, v: string, k: nat)
    requires k < |s|
    requires Plain(s) || (PlainLast(s) && v == "")
    ensures !StartsWith((s + v)[k..], "$$")
  {
    if k == 0 {
      TwoDollars(s + v, 0);
    } else {
      PlainHasNo(s[1..], v, k - 1);
      assert (s[1..] + v)[k - 1..] == (s + v)[k..];
    }
  }

  lemma {:induction false} PlainCons(c: char, s: string)
    ensures PlainLast([c] + s) <==> PlainLast(s) && !(c == '$' && s != "" && s[0] == '$')
    ensures Plain([c] + s) <==> Plain(s) && !(c == '$' && (s == "" || s[0] == '$'))
  {
    assert ([c] + s)[1..] == s;
  }

  lemma {:induction false} JoinPrefixed(c: string, r: seq<string>)
    requires r != []
    ensures JoinDollars([c + r[0]] + r[1..]) == c + JoinDollars(r)
  {
    if |r| == 1 {
      assert [c + r[0]] + r[1..] == [c + r[0]];
    } else {
      JoinOne(c + r[0], r[1..]);
      AppendThree(c, r[0], "$$" + JoinDollars(r[1..]));
    }
  }

  lemma {:induction false} SegmentsJoin(t: string)
    ensures JoinDollars(Segments(t)) == t
    decreases |t|
  {
    if t == "" {
    } else if StartsWith(t, "$$") {
      SegmentsJoin(t[2..]);
      JoinOne("", Segments(t[2..]));
      assert t == "$$" + t[2..] && "" + ("$$" + t[2..]) == "$$" + t[2..];
    } else {
      SegmentsJoin(t[1..]);
      JoinPrefixed([t[0]], Segments(t[1..]));
      assert t == [t[0]] + t[1..];
    }
  }

  lemma {:induction false} SegmentsPlain(t: string, k: int)
    ensures PlainAt(Segments(t), k)
    decreases |t|
  {
    if t == "" {
    } else if StartsWith(t, "$$") {
      SegmentsPlain(t[2..], k - 1);
      var r := Segments(t[2..]);
      if 0 < k <= |r| { assert ([""] + r)[k] == r[k - 1]; }
    } else {
      var r := Segments(t[1..]);
      SegmentsPlain(t[1..], k);
      var segs := [[t[0]] + r[0]] + r[1..];
      if 0 < k < |segs| {
        assert segs[k] == r[k];
      } else if k == 0 {
        SegmentsJoin(t[1..]);
        if |r| > 1 {
          PrependPlain(t, r[0], JoinDollars(r[1..]));
        } else {
          PlainCons(t[0], r[0]);
          TwoDollars(t, 0);
          assert t[0..] == t && t[1..] == r[0];
        }
      }
    }
  }

  lemma {:induction false} PrependPlain(t: string, s: string, v: string)
    requires t != "" && t[1..] == s + ("$$" + v) && !StartsWith(t, "$$") && Plain(s)
    ensures Plain([t[0]] + s)
  {
    TwoDollars(t, 0);
    assert t[0..] == t;
    assert t[1] == t[1..][0];
    PlainCons(t[0], s);
  }

  lemma {:induction false} SegmentsAfter(s: string, v: string)
    requires Plain(s)
    ensures Segments(s + ("$$" + v)) == [s] + Segments(v)
  {
    var t := s + ("$$" + v);
    if s == "" {
      assert t == "$$" + v && t[..2] == "$$" && t[2..] == v;
    } else {
      PlainHasNo(s, "$$" + v, 0);
      assert t[0..] == t && t[1..] == s[1..] + ("$$" + v);
      SegmentsAfter(s[1..], v);
      assert [s[0]] + s[1..] == s;
    }
  }

  lemma {:induction false} SegmentsLast(s: string)
    requires PlainLast(s)
    ensures Segments(s) == [s]
  {
    if s != "" {
      PlainHasNo(s, "", 0);
      assert (s + "")[0..] == s;
      SegmentsLast(s[1..]);
      assert [s[0]] + s[1..] == s;
    }
  }

  /** Joining and cutting again gives the segments back. */
  lemma {:induction false} SegmentsOfJoin(segs: seq<string>)
    requires SegsOk(segs) && segs != []
    ensures Segments(JoinDollars(segs)) == segs
  {
    assert SegOk(segs, 0);
    if |segs| == 1 {
      SegmentsLast(segs[0]);
    } else {
      SegsTail(segs, 1);
      SegmentsOfJoin(segs[1..]);
      SegmentsAfter(segs[0], JoinDollars(segs[1..]));
    }
  }

  // ---- The first loop on a paired and isolated text ----

  function Blocks(ts: seq<string>): (r: seq<string>)
    ensures NonEmpty(r)
  {
    if |ts| < 3 then [] else ["$$" + (ts[1] + "$$")] + Blocks(ts[2..])
  }

  lemma {:induction false} FirstDollars(s: string, v: string)
    requires Plain(s)
    ensures Find(s + ("$$" + v), "$$") == |s|
  {
    forall k | 0 <= k < |s| ensures !StartsWith((s + ("$$" + v))[k..], "$$") { PlainHasNo(s, "$$" + v, k); }
    FindSkip(s, "$$" + v, "$$");
    assert ("$$" + v)[..2] == "$$";
  }

  lemma {:induction false} NoDollars(s: string)
    requires PlainLast(s)
    ensures Find(s, "$$") == -1
  {
    assert s + "" == s;
    forall k | 0 <= k < |s| ensures !StartsWith((s + "")[k..], "$$") { PlainHasNo(s, "", k); }
    FindSkip(s, "", "$$");
  }

  lemma {:induction false} SegsTail(ts: seq<string>, n: nat)
    requires SegsOk(ts) && n < |ts|
    ensures SegsOk(ts[n..])
  {
    forall k ensures SegOk(ts[n..], k) {
      assert SegOk(ts, k + n);
      if 0 <= k < |ts[n..]| { assert ts[n..][k] == ts[k + n]; }
    }
  }

  lemma {:induction false} AfterPrefix(s: string, v: string, n: nat)
    requires n <= |v|
    ensures (s + v)[|s| + n..] == v[n..] && (s + v)[..|s| + n] == s + v[..n]
  {}

  lemma {:induction false} OpenedBlockMatch(b: string, v: string)
    requires Plain(b)
    ensures MatchesOpened(b + ("$$" + v), "$$", "$$") == ["$$" + (b + "$$")] + Matches(v, "$$", "$$")
  {
    FirstDollars(b, v);
    AfterPrefix(b, "$$" + v, 2);
    assert ("$$" + v)[2..] == v && ("$$" + v)[..2] == "$$";
  }

  lemma {:induction false} OneBlockMatch(g: string, b: string, v: string)
    requires Plain(g) && Plain(b)
    ensures Matches(g + ("$$" + (b + ("$$" + v))), "$$", "$$") == ["$$" + (b + "$$")] + Matches(v, "$$", "$$")
  {
    var rest := b + ("$$" + v);
    FirstDollars(g, rest);
    AfterPrefix(g, "$$" + rest, 2);
    assert ("$$" + rest)[2..] == rest;
    OpenedBlockMatch(b, v);
  }

  lemma {:induction false} JoinFront(ts: seq<string>)
    requires |ts| > 2
    ensures JoinDollars(ts) == ts[0] + ("$$" + (ts[1] + ("$$" + JoinDollars(ts[2..]))))
  {
    assert ts[1..][1..] == ts[2..];
  }

  lemma {:induction false} UnclosedMatch(g: string, b: string)
    requires Plain(g) && PlainLast(b)
    ensures Matches(g + ("$$" + b), "$$", "$$") == []
  {
    FirstDollars(g, b);
    AfterPrefix(g, "$$" + b, 2);
    assert ("$$" + b)[2..] == b;
    NoDollars(b);
  }

  lemma {:induction false} BlockMatches(ts: seq<string>)
    requires SegsOk(ts) && ts != []
    ensures Matches(JoinDollars(ts), "$$", "$$") == Blocks(ts)
  {
    assert SegOk(ts, 0) && SegOk(ts, 1);
    if |ts| == 1 {
      NoDollars(ts[0]);
    } else if |ts| == 2 {
      UnclosedMatch(ts[0], ts[1]);
    } else {
      SegsTail(ts, 2);
      BlockMatches(ts[2..]);
      JoinFront(ts);
      OneBlockMatch(ts[0], ts[1], JoinDollars(ts[2..]));
    }
  }

  /** What replacing one block's text does to the segments. */
  function SegReplace(ts: seq<string>, b: string, m: string): (r: seq<string>)
    ensures |r| == |ts|
  {
    if |ts| < 3 then ts
    else if ts[1] == b then [ts[0], m] + SegReplace(ts[2..], b, m)
    else [ts[0]] + SegReplace(ts[1..], b, m)
  }

  /** Which `$$` a block's text can begin at. */
  lemma {:induction false} BlockStartsAt(s: string, v: string, b: string)
    requires Plain(b) && Plain(s)
    ensures StartsWith("$$" + (s + ("$$" + v)), "$$" + (b + "$$")) <==> s == b
  {
    var t, q := "$$" + (s + ("$$" + v)), "$$" + (b + "$$");
    if s == b {
      assert t[..|q|] == q;
    }
    if StartsWith(t, q) {
      var w := t[|q|..];
      assert t == q + w;
      assert q + w == "$$" + (b + ("$$" + w));
      Cancel("$$", s + ("$$" + v), b + ("$$" + w));
      FirstDollars(s, v);
      FirstDollars(b, w);
      assert s == (s + ("$$" + v))[..|s|] && b == (b + ("$$" + w))[..|b|];
    }
  }

  lemma {:induction false} BlockNotAtEnd(s: string, b: string)
    requires PlainLast(s) && Plain(b)
    ensures !StartsWith("$$" + s, "$$" + (b + "$$"))
  {
    var t, q := "$$" + s, "$$" + (b + "$$");
    if StartsWith(t, q) {
      var w := t[|q|..];
      assert t == q + w;
      assert q + w == "$$" + (b + ("$$" + w));
      Cancel("$$", s, b + ("$$" + w));
      FirstDollars(b, w);
      NoDollars(s);
    }
  }

  /** A block's text cannot begin at the second dollar sign of a `$$`. */
  lemma {:induction false} BlockNotShifted(s: string, v: string, b: string)
    requires b != "" && b[0] != '$' && !StartsWith(s, "$") && (v == "" || StartsWith(v, "$$"))
    ensures !StartsWith("$" + (s + v), "$$" + (b + "$$"))
  {
    assert s != "" ==> s[..1] == [s[0]];
    assert s == "" ==> s + v == v;
    assert v != "" ==> v[..2] == [v[0], v[1]];
    var t, q := "$" + (s + v), "$$" + (b + "$$");
    assert |q| <= |t| ==> t[..|q|][1] == t[1] && t[..|q|][2] == t[2];
    assert |s + v| >= 2 ==> t[1] == (s + v)[0] && t[2] == (s + v)[1];
    assert q[1] == '$' && q[2] == b[0];
  }

  /** Replacing a block's text in the joined text is replacing it among the segments. */
  lemma {:induction false} ReplaceSegs(ts: seq<string>, b: string, m: string)
    requires SegsOk(ts) && ts != [] && Plain(b) && b != "" && b[0] != '$'
    ensures Replace(JoinDollars(ts), "$$" + (b + "$$"), "$$" + (m + "$$")) == JoinDollars(SegReplace(ts, b, m))
    decreases |ts|
  {
    var q, r := "$$" + (b + "$$"), "$$" + (m + "$$");
    var rest := if |ts| == 1 then "" else "$$" + JoinDollars(ts[1..]);
    assert SegOk(ts, 0) && SegOk(ts, 1);
    SkipSegment(ts[0], rest, q, r);
    if |ts| == 1 {
      assert ts[0] + rest == ts[0];
    } else if |ts| > 2 && ts[1] == b {
      var tail := JoinDollars(ts[2..]);
      assert ts[1..][1..] == ts[2..];
      assert rest == q + tail;
      SegsTail(ts, 2);
      ReplaceSegs(ts[2..], b, m);
      assert Replace(rest, q, r) == r + Replace(tail, q, r) by {
        assert (q + tail)[..|q|] == q && (q + tail)[|q|..] == tail;
      }
      JoinTwo(ts[0], m, SegReplace(ts[2..], b, m));
    } else {
      var tail := JoinDollars(ts[1..]);
      SegsTail(ts, 1);
      StepOver(ts[1..], b, q, r);
      ReplaceSegs(ts[1..], b, m);
      JoinOne(ts[0], SegReplace(ts[1..], b, m));
    }
  }

  lemma {:induction false} SkipSegment(s: string, rest: string, q: string, r: string)
    requires Plain(s) || (PlainLast(s) && rest == "")
    requires |q| >= 2 && q[..2] == "$$"
    ensures Replace(s + rest, q, r) == s + Replace(rest, q, r)
  {
    forall k | 0 <= k < |s| ensures !StartsWith((s + rest)[k..], q) {
      PlainHasNo(s, rest, k);
      var t := (s + rest)[k..];
      assert |q| <= |t| ==> t[..2] == t[..|q|][..2];
    }
    ReplaceSkip(s, rest, q, r);
  }

  /** Where the block is not found, both dollar signs are kept. */
  lemma {:induction false} StepOver(ts: seq<string>, b: string, q: string, r: string)
    requires ts != [] && SegsOk(ts) && !StartsWith(ts[0], "$")
    requires Plain(b) && b != "" && b[0] != '$' && q == "$$" + (b + "$$")
    requires |ts| == 1 || ts[0] != b
    ensures Replace("$$" + JoinDollars(ts), q, r) == "$$" + Replace(JoinDollars(ts), q, r)
  {
    var tail := JoinDollars(ts);
    var v := if |ts| == 1 then "" else "$$" + JoinDollars(ts[1..]);
    assert tail == ts[0] + v;
    assert SegOk(ts, 0);
    assert !StartsWith("$$" + tail, q) by {
      if |ts| == 1 { BlockNotAtEnd(ts[0], b); } else { BlockStartsAt(ts[0], JoinDollars(ts[1..]), b); }
    }
    assert !StartsWith("$" + tail, q) by {
      assert |ts| > 1 ==> v[..2] == "$$";
      BlockNotShifted(ts[0], v, b);
    }
    assert ("$$" + tail)[1..] == "$" + tail && ("$" + tail)[1..] == tail;
    assert ['$'] + (['$'] + Replace(tail, q, r)) == "$$" + Replace(tail, q, r);
  }

  lemma {:induction false} JoinOne(s: string, ts: seq<string>)
    requires ts != []
    ensures JoinDollars([s] + ts) == s + ("$$" + JoinDollars(ts))
  {
    assert ([s] + ts)[1..] == ts;
  }

  lemma {:induction false} JoinTwo(s: string, m: string, ts: seq<string>)
    requires ts != []
    ensures JoinDollars([s, m] + ts) == s + ("$$" + (m + "$$") + JoinDollars(ts))
  {
    assert [s, m] + ts == [s] + ([m] + ts);
    JoinOne(s, [m] + ts);
    JoinOne(m, ts);
    assert "$$" + (m + ("$$" + JoinDollars(ts))) == "$$" + (m + "$$") + JoinDollars(ts);
  }

  // ---- The first loop, segment by segment ----

  lemma {:induction false} MaskCons(c: char, s: string)
    ensures Mask([c] + s) == (if c == ';' then MARK else [c]) + Mask(s)
  {
    if c == ';' {
      assert ([c] + s)[..1] == ";" && ([c] + s)[1..] == s;
    } else {
      SkipNonStart([c], s, ";", MARK);
    }
  }

  lemma {:induction false} MaskHides(s: string)
    ensures ';' !in Mask(s)
    ensures ';' !in s ==> Mask(s) == s
    ensures s == "" <==> Mask(s) == ""
    ensures s != "" && s[0] != ';' ==> Mask(s)[0] == s[0]
    ensures s != "" && s[0] == ';' ==> Mask(s)[0] == '#'
  {
    if s != "" {
      assert s == [s[0]] + s[1..];
      MaskCons(s[0], s[1..]);
      MaskHides(s[1..]);
    }
  }

  lemma {:induction false} MaskConcat(s: string, t: string)
    ensures Mask(s + t) == Mask(s) + Mask(t)
  {
    if s == "" {
      assert s + t == t;
    } else {
      assert s == [s[0]] + s[1..];
      assert s + t == [s[0]] + (s[1..] + t);
      MaskCons(s[0], s[1..] + t);
      MaskCons(s[0], s[1..]);
      MaskConcat(s[1..], t);
      AppendThree(if s[0] == ';' then MARK else [s[0]], Mask(s[1..]), Mask(t));
    }
  }

  lemma {:induction false} PlainMarkThen(s: string, n: nat)
    requires n <= |MARK|
    ensures PlainLast(s) ==> PlainLast(MARK[n..] + s)
    ensures Plain(s) ==> Plain(MARK[n..] + s)
    decreases |MARK| - n
  {
    if n == |MARK| {
      assert MARK[n..] + s == s;
    } else {
      PlainMarkThen(s, n + 1);
      assert MARK[n] in MARK;
      assert MARK[n..] + s == [MARK[n]] + (MARK[n + 1..] + s);
      PlainCons(MARK[n], MARK[n + 1..] + s);
    }
  }

  lemma {:induction false} MaskPlain(s: string)
    ensures PlainLast(s) ==> PlainLast(Mask(s))
    ensures Plain(s) ==> Plain(Mask(s))
  {
    if s != "" {
      var c, t := s[0], s[1..];
      assert s == [c] + t;
      PlainCons(c, t);
      MaskPlain(t);
      MaskHides(t);
      MaskCons(c, t);
      if c == ';' {
        PlainMarkThen(Mask(t), 0);
        assert MARK[0..] == MARK;
      } else {
        PlainCons(c, Mask(t));
      }
    }
  }

  lemma {:induction false} MaskNoDollarStart(s: string)
    requires !StartsWith(s, "$")
    ensures !StartsWith(Mask(s), "$")
  {
    MaskHides(s);
    assert s != "" ==> s[..1] == [s[0]];
    assert Mask(s) != "" ==> Mask(s)[..1] == [Mask(s)[0]];
  }

  lemma {:induction false} MaskBlock(b: string)
    ensures Mask("$$" + (b + "$$")) == "$$" + (Mask(b) + "$$")
  {
    MaskHides("$$");
    MaskConcat(b, "$$");
    MaskConcat("$$", b + "$$");
  }

  /** The segments with every quoted one masked; `inside` says whether the first is quoted. */
  function Hidden(segs: seq<string>, inside: bool): (r: seq<string>)
    ensures |r| == |segs|
  {
    seq(|segs|, j requires 0 <= j < |segs| => if (j % 2 == 1) != inside then Mask(segs[j]) else segs[j])
  }

  lemma {:induction false} HiddenOk(segs: seq<string>)
    requires SegsOk(segs) && segs != []
    ensures SegsOk(Hidden(segs, false))
  {
    forall k ensures SegOk(Hidden(segs, false), k) {
      assert SegOk(segs, k);
      if 0 <= k < |segs| { MaskPlain(segs[k]); }
      if 0 < k < |segs| { MaskNoDollarStart(segs[k]); }
    }
  }

  /** What the first loop makes of the segments in `n` iterations. */
  function Looped(segs: seq<string>, n: nat): (r: seq<string>)
    requires 2 * n <= |segs|
    ensures |r| == |segs|
  {
    if n == 0 then segs
    else SegReplace(Looped(segs, n - 1), segs[2 * n - 1], Mask(segs[2 * n - 1]))
  }

  /** Which segments a replacement takes: `$$` ends one match and cannot begin the next,
      so a segment equal to `b` is left alone only right after one that was taken. */
  lemma {:induction false} SegReplaceAt(ts: seq<string>, b: string, m: string, j: nat)
    requires j < |ts| && m != b
    ensures var r := SegReplace(ts, b, m);
            && (r[j] == ts[j] || (0 < j < |ts| - 1 && ts[j] == b && r[j] == m))
            && (0 < j < |ts| - 1 && ts[j] == b ==> r[j] == m || (j > 1 && ts[j - 1] == b && r[j - 1] == m))
            && (1 < j < |ts| - 1 && ts[j - 1] == b && r[j - 1] == m ==> r[j] == ts[j])
    decreases |ts|
  {
    var r := SegReplace(ts, b, m);
    if |ts| < 3 {
    } else if ts[1] == b {
      if j >= 2 {
        var tail := ts[2..];
        SegReplaceAt(tail, b, m, j - 2);
        assert r[j] == SegReplace(tail, b, m)[j - 2] && tail[j - 2] == ts[j];
        if j > 2 { assert r[j - 1] == SegReplace(tail, b, m)[j - 3] && tail[j - 3] == ts[j - 1]; }
        SegReplaceAt(tail, b, m, 0);
      }
    } else if j >= 1 {
      var tail := ts[1..];
      SegReplaceAt(tail, b, m, j - 1);
      assert r[j] == SegReplace(tail, b, m)[j - 1] && tail[j - 1] == ts[j];
      if j > 1 { assert r[j - 1] == SegReplace(tail, b, m)[j - 2] && tail[j - 2] == ts[j - 1]; }
    }
  }

  lemma {:induction false} SegReplaceSame(ts: seq<string>, b: string)
    ensures SegReplace(ts, b, b) == ts
    decreases |ts|
  {
    if |ts| < 3 {
    } else if ts[1] == b {
      SegReplaceSame(ts[2..], b);
      assert ts == [ts[0], b] + ts[2..];
    } else {
      SegReplaceSame(ts[1..], b);
      assert ts == [ts[0]] + ts[1..];
    }
  }

  /** A segment is as it was or masked. */
  ghost predicate MaskedOrNot(segs: seq<string>, ts: seq<string>, j: int) {
    0 <= j < |segs| == |ts| ==> ts[j] == segs[j] || ts[j] == Mask(segs[j])
  }

  lemma {:induction false} LoopedAt(segs: seq<string>, n: nat, j: nat)
    requires 2 * n <= |segs| && j < |segs|
    ensures MaskedOrNot(segs, Looped(segs, n), j)
  {
    if n > 0 {
      var ts, b := Looped(segs, n - 1), segs[2 * n - 1];
      LoopedAt(segs, n - 1, j);
      MaskHides(b);
      MaskHides(segs[j]);
      if ';' in b { SegReplaceAt(ts, b, Mask(b), j); } else { SegReplaceSame(ts, b); }
    }
  }

  lemma {:induction false} MaskedOrNotOk(segs: seq<string>, ts: seq<string>)
    requires SegsOk(segs) && |ts| == |segs| && forall j :: MaskedOrNot(segs, ts, j)
    ensures SegsOk(ts)
  {
    forall k ensures SegOk(ts, k) {
      assert SegOk(segs, k) && MaskedOrNot(segs, ts, k);
      if 0 <= k < |segs| { MaskPlain(segs[k]); }
      if 0 < k < |segs| { MaskNoDollarStart(segs[k]); }
    }
  }

  lemma {:induction false} LoopedOk(segs: seq<string>, n: nat)
    requires SegsOk(segs) && 2 * n <= |segs|
    ensures SegsOk(Looped(segs, n))
  {
    forall j ensures MaskedOrNot(segs, Looped(segs, n), j) { if 0 <= j < |segs| { LoopedAt(segs, n, j); } }
    MaskedOrNotOk(segs, Looped(segs, n));
  }

  lemma {:induction false} BlockCount(segs: seq<string>)
    requires segs != []
    ensures |Blocks(segs)| == (|segs| - 1) / 2
  {
    if |segs| >= 3 { BlockCount(segs[2..]); }
  }

  lemma {:induction false} BlockAt(segs: seq<string>, n: nat)
    requires 2 * n + 2 < |segs|
    ensures |Blocks(segs)| == (|segs| - 1) / 2 && Blocks(segs)[n] == "$$" + (segs[2 * n + 1] + "$$")
  {
    BlockCount(segs);
    if n > 0 {
      BlockAt(segs[2..], n - 1);
      assert segs[2..][2 * (n - 1) + 1] == segs[2 * n + 1];
    }
  }

  lemma {:induction false} MaskOneBlock(ts: seq<string>, b: string)
    requires SegsOk(ts) && ts != [] && Plain(b) && !StartsWith(b, "$")
    ensures var q := "$$" + (b + "$$");
            Replace(JoinDollars(ts), q, Mask(q)) == JoinDollars(SegReplace(ts, b, Mask(b)))
  {
    MaskBlock(b);
    MaskHides(b);
    if ';' in b {
      assert b[..1] == [b[0]];
      ReplaceSegs(ts, b, Mask(b));
    } else {
      ReplaceSame(JoinDollars(ts), "$$" + (b + "$$"));
      SegReplaceSame(ts, b);
    }
  }

  lemma {:induction false} LoopOnce(segs: seq<string>, n: nat)
    requires SegsOk(segs) && 0 < n && 2 * n < |segs|
    ensures var q := "$$" + (segs[2 * n - 1] + "$$");
            Replace(JoinDollars(Looped(segs, n - 1)), q, Mask(q)) == JoinDollars(Looped(segs, n))
  {
    LoopedOk(segs, n - 1);
    assert SegOk(segs, 2 * n - 1);
    MaskOneBlock(Looped(segs, n - 1), segs[2 * n - 1]);
  }

  /** The loop on the text is the loop on its segments. */
  lemma {:induction false} LoopOnSegments(segs: seq<string>, n: nat)
    requires SegsOk(segs) && 2 * n < |segs|
    ensures n <= |Blocks(segs)| && MaskEach(JoinDollars(segs), Blocks(segs)[..n]) == JoinDollars(Looped(segs, n))
  {
    if n > 0 {
      LoopOnSegments(segs, n - 1);
      BlockAt(segs, n - 1);
      var blocks := Blocks(segs)[..n];
      assert blocks[..n - 1] == Blocks(segs)[..n - 1] && blocks[n - 1] == "$$" + (segs[2 * n - 1] + "$$");
      LoopOnce(segs, n);
    }
  }

  lemma {:induction false} FirstLoopSegments(segs: seq<string>)
    requires SegsOk(segs) && segs != []
    ensures MaskMatches(JoinDollars(segs), "$$", "$$") == JoinDollars(Looped(segs, (|segs| - 1) / 2))
  {
    BlockMatches(segs);
    var n := (|segs| - 1) / 2;
    LoopOnSegments(segs, n);
    if |segs| > 2 { BlockAt(segs, 0); } else { assert Blocks(segs) == []; }
    assert Blocks(segs)[..n] == Blocks(segs);
  }

  // ---- When the loop masks every body and no gap ----

  /** `j` is a gap between two blocks that holds a semicolon. */
  predicate IsGap(segs: seq<string>, j: int) {
    0 < j < |segs| - 1 && j % 2 == 0 && ';' in segs[j]
  }

  /** Gap `j` does not repeat body `k`, unless `k` is the body right before it. */
  predicate GapApart(segs: seq<string>, j: int, k: int) {
    IsGap(segs, j) && 0 <= k < |segs| - 1 && k % 2 == 1 && segs[k] == segs[j] ==> k == j - 1
  }

  /** A gap that holds a semicolon repeats at most one body, the one right before it. */
  ghost predicate GapsApart(segs: seq<string>) {
    forall j, k :: GapApart(segs, j, k)
  }

  /** The segments with the bodies in `bs` masked. */
  function MaskedSegs(segs: seq<string>, bs: set<string>): (r: seq<string>)
    ensures |r| == |segs|
  {
    seq(|segs|, j requires 0 <= j < |segs| => if j % 2 == 1 && segs[j] in bs then Mask(segs[j]) else segs[j])
  }

  /** The bodies of the first `n` blocks. */
  function Bodies(segs: seq<string>, n: nat): set<string>
    requires 2 * n <= |segs|
  {
    if n == 0 then {} else Bodies(segs, n - 1) + {segs[2 * n - 1]}
  }

  lemma {:induction false} BodyBefore(segs: seq<string>, n: nat, b: string) returns (k: nat)
    requires 2 * n <= |segs| && b in Bodies(segs, n)
    ensures k < 2 * n && k % 2 == 1 && segs[k] == b
  {
    if segs[2 * n - 1] == b { k := 2 * n - 1; } else { k := BodyBefore(segs, n - 1, b); }
  }

  lemma {:induction false} BodyAmong(segs: seq<string>, n: nat, k: nat)
    requires 2 * n <= |segs| && k < 2 * n && k % 2 == 1
    ensures segs[k] in Bodies(segs, n)
  {
    if k != 2 * n - 1 { BodyAmong(segs, n - 1, k); }
  }

  /** Masked segments hold no semicolon, so only those not yet masked can equal `b`. */
  lemma {:induction false} MaskedSegAt(segs: seq<string>, bs: set<string>, b: string, j: nat)
    requires j < |segs| && ';' in b
    ensures MaskedSegs(segs, bs)[j] == b <==> segs[j] == b && !(j % 2 == 1 && b in bs)
  {
    MaskHides(segs[j]);
  }

  /** A segment equal to `b` is masked unless the one before it is equal too. */
  lemma {:induction false} SegTaken(ts: seq<string>, b: string, j: nat)
    requires 0 < j < |ts| - 1 && ';' in b && ts[j] == b && (j > 1 ==> ts[j - 1] != b)
    ensures SegReplace(ts, b, Mask(b))[j] == Mask(b)
  {
    MaskHides(b);
    SegReplaceAt(ts, b, Mask(b), j);
  }

  lemma {:induction false} BodyTaken(segs: seq<string>, bs: set<string>, b: string, j: nat)
    requires j < |segs| - 1 && j % 2 == 1 && ';' in b && segs[j] == b && b !in bs
    requires j > 1 ==> segs[j - 1] != b
    ensures SegReplace(MaskedSegs(segs, bs), b, Mask(b))[j] == Mask(b)
  {
    MaskedSegAt(segs, bs, b, j);
    MaskedSegAt(segs, bs, b, j - 1);
    SegTaken(MaskedSegs(segs, bs), b, j);
  }

  lemma {:induction false} BodyStep(segs: seq<string>, bs: set<string>, b: string, j: nat)
    requires OpenEndPlain(segs) && j < |segs| && j % 2 == 1 && ';' in b && GapApart(segs, j - 1, j)
    ensures SegReplace(MaskedSegs(segs, bs), b, Mask(b))[j] == MaskedSegs(segs, bs + {b})[j]
  {
    if segs[j] == b && b !in bs {
      assert j > 1 && segs[j - 1] == b ==> IsGap(segs, j - 1);
      BodyTaken(segs, bs, b, j);
    } else {
      MaskHides(b);
      MaskedSegAt(segs, bs, b, j);
      SegReplaceAt(MaskedSegs(segs, bs), b, Mask(b), j);
    }
  }

  /** A gap is kept: it differs from the body, or the body right before it is taken. */
  lemma {:induction false} GapStep(segs: seq<string>, bs: set<string>, b: string, j: nat)
    requires j < |segs| && j % 2 == 0 && ';' in b
    requires IsGap(segs, j) && segs[j] == b ==>
               segs[j - 1] == b && b !in bs && (IsGap(segs, j - 2) ==> segs[j - 2] != b)
    ensures SegReplace(MaskedSegs(segs, bs), b, Mask(b))[j] == segs[j]
  {
    var ts := MaskedSegs(segs, bs);
    MaskHides(b);
    SegReplaceAt(ts, b, Mask(b), j);
    MaskedSegAt(segs, bs, b, j);
    if IsGap(segs, j) && segs[j] == b {
      SegReplaceAt(ts, b, Mask(b), j - 1);
      MaskedSegAt(segs, bs, b, j - 1);
      if j > 2 { MaskedSegAt(segs, bs, b, j - 2); }
    }
  }

  lemma {:induction false} MaskBodyStep(segs: seq<string>, n: nat, j: nat)
    requires OpenEndPlain(segs) && GapsApart(segs) && 0 < n && 2 * n < |segs| && j < |segs|
    requires ';' in segs[2 * n - 1]
    ensures var b := segs[2 * n - 1];
            SegReplace(MaskedSegs(segs, Bodies(segs, n - 1)), b, Mask(b))[j] == MaskedSegs(segs, Bodies(segs, n))[j]
  {
    var b, bs := segs[2 * n - 1], Bodies(segs, n - 1);
    if j % 2 == 1 {
      assert GapApart(segs, j - 1, j);
      BodyStep(segs, bs, b, j);
    } else {
      if IsGap(segs, j) && segs[j] == b {
        assert GapApart(segs, j, 2 * n - 1) && GapApart(segs, j - 2, 2 * n - 1);
        forall k | 0 <= k < j - 1 && k % 2 == 1 ensures segs[k] != b { assert GapApart(segs, j, k); }
        if b in bs { var k := BodyBefore(segs, n - 1, b); assert false; }
      }
      GapStep(segs, bs, b, j);
    }
  }

  lemma {:induction false} MaskBodies(segs: seq<string>, n: nat)
    requires OpenEndPlain(segs) && GapsApart(segs) && 0 < n && 2 * n < |segs|
    ensures var b := segs[2 * n - 1];
            SegReplace(MaskedSegs(segs, Bodies(segs, n - 1)), b, Mask(b)) == MaskedSegs(segs, Bodies(segs, n))
  {
    var b := segs[2 * n - 1];
    var ts, ts' := MaskedSegs(segs, Bodies(segs, n - 1)), MaskedSegs(segs, Bodies(segs, n));
    if ';' in b {
      forall j | 0 <= j < |segs| ensures SegReplace(ts, b, Mask(b))[j] == ts'[j] { MaskBodyStep(segs, n, j); }
    } else {
      MaskHides(b);
      SegReplaceSame(ts, b);
      assert ts == ts';
    }
  }

  lemma {:induction false} MaskNoBodies(segs: seq<string>)
    ensures MaskedSegs(segs, {}) == segs
  {}

  lemma {:induction false} LoopedStep(segs: seq<string>, n: nat)
    requires OpenEndPlain(segs) && GapsApart(segs) && 0 < n && 2 * n < |segs|
    requires Looped(segs, n - 1) == MaskedSegs(segs, Bodies(segs, n - 1))
    ensures Looped(segs, n) == MaskedSegs(segs, Bodies(segs, n))
  {
    MaskBodies(segs, n);
  }

  lemma {:induction false} LoopedIsMasked(segs: seq<string>, n: nat)
    requires OpenEndPlain(segs) && GapsApart(segs) && 2 * n < |segs|
    ensures Looped(segs, n) == MaskedSegs(segs, Bodies(segs, n))
  {
    if n == 0 {
      MaskNoBodies(segs);
    } else {
      LoopedIsMasked(segs, n - 1);
      LoopedStep(segs, n);
    }
  }

  lemma {:induction false} MaskedIsHidden(segs: seq<string>, n: nat, j: nat)
    requires OpenEndPlain(segs) && j < |segs| && 2 * n <= |segs| <= 2 * n + 2
    ensures MaskedSegs(segs, Bodies(segs, n))[j] == Hidden(segs, false)[j]
  {
    if j % 2 == 1 {
      if j < 2 * n { BodyAmong(segs, n, j); } else { MaskHides(segs[j]); }
    }
  }

  lemma {:induction false} LoopedIsHidden(segs: seq<string>)
    requires segs != [] && OpenEndPlain(segs) && GapsApart(segs)
    ensures Looped(segs, (|segs| - 1) / 2) == Hidden(segs, false)
  {
    var n := (|segs| - 1) / 2;
    LoopedIsMasked(segs, n);
    forall j | 0 <= j < |segs| ensures Looped(segs, n)[j] == Hidden(segs, false)[j] { MaskedIsHidden(segs, n, j); }
  }

  // ---- Otherwise it masks a gap ----

  /** Some gap has lost its semicolons. */
  ghost predicate GapHidden(segs: seq<string>, ts: seq<string>) {
    exists j :: GapHiddenAt(segs, ts, j)
  }

  predicate GapHiddenAt(segs: seq<string>, ts: seq<string>, j: int) {
    IsGap(segs, j) && |ts| == |segs| && ts[j] == Mask(segs[j])
  }

  /** What is masked stays masked. */
  lemma {:induction false} MaskedStays(segs: seq<string>, n: nat, n': nat, j: nat)
    requires n <= n' && 2 * n' <= |segs| && j < |segs| && Looped(segs, n)[j] == Mask(segs[j])
    ensures Looped(segs, n')[j] == Mask(segs[j])
    decreases n'
  {
    if n < n' {
      var ts, b := Looped(segs, n' - 1), segs[2 * n' - 1];
      MaskedStays(segs, n, n' - 1, j);
      MaskHides(b);
      MaskHides(segs[j]);
      if ';' in b { SegReplaceAt(ts, b, Mask(b), j); } else { SegReplaceSame(ts, b); }
    }
  }

  lemma {:induction false} GapStaysHidden(segs: seq<string>, n: nat, n': nat)
    requires n <= n' && 2 * n' <= |segs| && GapHidden(segs, Looped(segs, n))
    ensures GapHidden(segs, Looped(segs, n'))
  {
    var j :| GapHiddenAt(segs, Looped(segs, n), j);
    MaskedStays(segs, n, n', j);
    assert GapHiddenAt(segs, Looped(segs, n'), j);
  }

  /** A segment equal to `b` is masked, or else the one before it was. */
  lemma {:induction false} SegFalls(ts: seq<string>, b: string, j: nat)
    requires 0 < j < |ts| - 1 && ';' in b && ts[j] == b
    ensures var r := SegReplace(ts, b, Mask(b));
            r[j] == Mask(b) || (j > 1 && ts[j - 1] == b && r[j - 1] == Mask(b))
  {
    MaskHides(b);
    SegReplaceAt(ts, b, Mask(b), j);
  }

  lemma {:induction false} StillPlain(segs: seq<string>, n: nat, b: string, j: nat)
    requires 2 * n <= |segs| && j < |segs| && ';' in b && Looped(segs, n)[j] == b
    ensures segs[j] == b
  {
    LoopedAt(segs, n, j);
    MaskHides(segs[j]);
  }

  lemma {:induction false} GapInstead(segs: seq<string>, n: nat, l: nat)
    requires 0 < n && 2 * n < |segs| && 1 < l < |segs| && l % 2 == 1 && ';' in segs[l]
    requires Looped(segs, n - 1)[l - 1] == segs[l] && Looped(segs, n)[l - 1] == Mask(segs[l])
    ensures GapHidden(segs, Looped(segs, n))
  {
    StillPlain(segs, n - 1, segs[l], l - 1);
    assert GapHiddenAt(segs, Looped(segs, n), l - 1);
  }

  /** The iteration for a body masks every copy of it, or else a gap. */
  lemma {:induction false} CopyFalls(segs: seq<string>, n: nat, l: nat)
    requires 0 < n && 2 * n < |segs| && l < |segs| - 1 && l % 2 == 1
    requires segs[l] == segs[2 * n - 1] && ';' in segs[l]
    ensures Looped(segs, n)[l] == Mask(segs[l]) || GapHidden(segs, Looped(segs, n))
  {
    var b := segs[l];
    LoopedAt(segs, n - 1, l);
    if Looped(segs, n - 1)[l] == Mask(b) {
      MaskedStays(segs, n - 1, n, l);
    } else {
      SegFalls(Looped(segs, n - 1), b, l);
      if Looped(segs, n)[l] != Mask(b) {
        GapInstead(segs, n, l);
      }
    }
  }

  /** The iteration for a body that gap `j` repeats masks the gap, unless the segment before it is taken. */
  lemma {:induction false} GapFalls(segs: seq<string>, n: nat, j: nat)
    requires 0 < n && 2 * n < |segs| && IsGap(segs, j) && segs[2 * n - 1] == segs[j]
    requires Looped(segs, n - 1)[j - 1] != segs[j]
    ensures GapHidden(segs, Looped(segs, n))
  {
    var ts, b := Looped(segs, n - 1), segs[2 * n - 1];
    MaskHides(b);
    LoopedAt(segs, n - 1, j);
    SegReplaceAt(ts, b, Mask(b), j);
    assert GapHiddenAt(segs, Looped(segs, n), j);
  }

  /** After the body right before gap `j` is masked, an iteration for a copy of it masks the gap. */
  lemma {:induction false} SecondCopyFalls(segs: seq<string>, n: nat, n': nat, j: nat)
    requires n < n' && 2 * n' < |segs| && IsGap(segs, j) && segs[j] == segs[j - 1]
    requires segs[2 * n' - 1] == segs[j] && Looped(segs, n)[j - 1] == Mask(segs[j - 1])
    ensures GapHidden(segs, Looped(segs, n'))
  {
    MaskedStays(segs, n, n' - 1, j - 1);
    MaskHides(segs[j]);
    GapFalls(segs, n', j);
  }

  /** Two iterations for the body before gap `j` mask the gap, or another. */
  lemma {:induction false} TwiceFalls(segs: seq<string>, n: nat, n': nat, j: nat)
    requires 0 < n < n' && 2 * n' < |segs| && IsGap(segs, j)
    requires segs[2 * n - 1] == segs[j] && segs[2 * n' - 1] == segs[j] && segs[j - 1] == segs[j]
    ensures GapHidden(segs, Looped(segs, n'))
  {
    CopyFalls(segs, n, j - 1);
    if GapHidden(segs, Looped(segs, n)) {
      GapStaysHidden(segs, n, n');
    } else {
      SecondCopyFalls(segs, n, n', j);
    }
  }

  lemma {:induction false} RepeatedGapHidden(segs: seq<string>, j: nat, k: nat)
    requires !GapApart(segs, j, k)
    ensures GapHidden(segs, Looped(segs, (|segs| - 1) / 2))
  {
    var n, last := (k + 1) / 2, (|segs| - 1) / 2;
    if segs[j - 1] == segs[j] {
      var i := j / 2;
      if n < i { TwiceFalls(segs, n, i, j); } else { TwiceFalls(segs, i, n, j); }
      GapStaysHidden(segs, if n < i then i else n, last);
    } else {
      LoopedAt(segs, n - 1, j - 1);
      MaskHides(segs[j - 1]);
      GapFalls(segs, n, j);
      GapStaysHidden(segs, n, last);
    }
  }

  /** Nothing reaches the last segment: every match ends in a `$$`. */
  lemma {:induction false} LastStays(segs: seq<string>, n: nat)
    requires segs != [] && 2 * n <= |segs|
    ensures Looped(segs, n)[|segs| - 1] == segs[|segs| - 1]
  {
    if n > 0 {
      var b := segs[2 * n - 1];
      LastStays(segs, n - 1);
      MaskHides(b);
      if ';' in b {
        SegReplaceAt(Looped(segs, n - 1), b, Mask(b), |segs| - 1);
      } else {
        SegReplaceSame(Looped(segs, n - 1), b);
      }
    }
  }

  lemma {:induction false} SameSegments(ts: seq<string>, hs: seq<string>)
    requires SegsOk(ts) && SegsOk(hs) && ts != [] && hs != [] && JoinDollars(ts) == JoinDollars(hs)
    ensures ts == hs
  {
    SegmentsOfJoin(ts);
    SegmentsOfJoin(hs);
  }

  /** What the first loop leaves is not the text with exactly the quoted segments hidden. */
  lemma {:induction false} FirstLoopMisses(segs: seq<string>)
    requires segs != [] && !(OpenEndPlain(segs) && GapsApart(segs))
    ensures Looped(segs, (|segs| - 1) / 2) != Hidden(segs, false)
  {
    var ts := Looped(segs, (|segs| - 1) / 2);
    if !OpenEndPlain(segs) {
      LastStays(segs, (|segs| - 1) / 2);
      MaskHides(segs[|segs| - 1]);
      assert Hidden(segs, false)[|segs| - 1] != ts[|segs| - 1];
    } else {
      var j, k :| !GapApart(segs, j, k);
      RepeatedGapHidden(segs, j, k);
      var g :| GapHiddenAt(segs, ts, g);
      MaskHides(segs[g]);
      assert Hidden(segs, false)[g] != ts[g];
    }
  }

  /** The first loop masks every quoted segment and no gap exactly when the gaps are apart from the bodies
      and an unclosed quote holds no semicolon. */
  lemma {:induction false} FirstLoopExactly(segs: seq<string>)
    requires SegsOk(segs) && segs != []
    ensures MaskMatches(JoinDollars(segs), "$$", "$$") == JoinDollars(Hidden(segs, false))
       <==> OpenEndPlain(segs) && GapsApart(segs)
  {
    FirstLoopSegments(segs);
    var ts := Looped(segs, (|segs| - 1) / 2);
    if OpenEndPlain(segs) && GapsApart(segs) {
      LoopedIsHidden(segs);
    } else {
      FirstLoopMisses(segs);
      LoopedOk(segs, (|segs| - 1) / 2);
      HiddenOk(segs);
      if JoinDollars(ts) == JoinDollars(Hidden(segs, false)) { SameSegments(ts, Hidden(segs, false)); }
    }
  }

  // ---- Segments as symbols ----

  /** The segments, those marked in `masked` masked. */
  function Shown(segs: seq<string>, masked: seq<bool>): (r: seq<string>)
    requires |masked| == |segs|
    ensures |r| == |segs|
  {
    seq(|segs|, j requires 0 <= j < |segs| => if masked[j] then Mask(segs[j]) else segs[j])
  }

  function SymSegment(s: string, masked: bool): (r: seq<Sym>)
    ensures |r| == |Raw(s)|
  {
    if masked then SymMask(Raw(s)) else Raw(s)
  }

  function SymJoin(segs: seq<string>, masked: seq<bool>): seq<Sym>
    requires segs != [] && |masked| == |segs|
  {
    if |segs| == 1 then SymSegment(segs[0], masked[0])
    else SymSegment(segs[0], masked[0]) + ([Char('$'), Char('$')] + SymJoin(segs[1..], masked[1..]))
  }

  predicate NoHashes(segs: seq<string>) { forall k :: 0 <= k < |segs| ==> '#' !in segs[k] }

  lemma {:induction false} SymSegmentText(s: string, masked: bool)
    requires '#' !in s
    ensures Enc(SymSegment(s, masked)) == (if masked then Mask(s) else s) && Clean(SymSegment(s, masked))
  {
    RawIsText(s);
    SymMaskDecodes(Raw(s));
  }

  lemma {:induction false} EncAround(x: seq<Sym>, y: seq<Sym>)
    ensures Enc(x + ([Char('$'), Char('$')] + y)) == Enc(x) + ("$$" + Enc(y))
  {
    var d := [Char('$'), Char('$')];
    assert d[1..] == [Char('$')] && d[1..][1..] == [];
    assert Enc(d) == "$$";
    EncConcat(d, y);
    EncConcat(x, d + y);
  }

  lemma {:induction false} SymJoinText(segs: seq<string>, masked: seq<bool>)
    requires segs != [] && |masked| == |segs| && NoHashes(segs)
    ensures Enc(SymJoin(segs, masked)) == JoinDollars(Shown(segs, masked)) && Clean(SymJoin(segs, masked))
  {
    SymSegmentText(segs[0], masked[0]);
    if |segs| > 1 {
      SymJoinText(segs[1..], masked[1..]);
      EncAround(SymSegment(segs[0], masked[0]), SymJoin(segs[1..], masked[1..]));
      assert Shown(segs, masked)[1..] == Shown(segs[1..], masked[1..]);
    }
  }

  lemma {:induction false} SymMaskAt(s: string, i: nat)
    requires i < |s|
    ensures |Raw(s)| == |s| && Raw(s)[i] == Char(s[i])
    ensures s[i] == ';' ==> SymMask(Raw(s))[i] == Mark
  {
    RawIsText(s);
    if i > 0 { SymMaskAt(s[1..], i - 1); }
  }

  /** Where `x` has a mark, so has `y`. */
  ghost predicate MarksIn(x: seq<Sym>, y: seq<Sym>) {
    |y| == |x| && forall i :: 0 <= i < |x| && x[i].Mark? ==> y[i].Mark?
  }

  lemma {:induction false} MarksOfParts(x: seq<Sym>, x': seq<Sym>, y: seq<Sym>, y': seq<Sym>)
    requires |x| == |y| && MarksIn(x + x', y + y')
    ensures MarksIn(x, y) && MarksIn(x', y')
  {
    forall i | 0 <= i < |x| && x[i].Mark? ensures y[i].Mark? {
      assert (x + x')[i] == x[i] && (y + y')[i] == y[i];
    }
    forall i | 0 <= i < |x'| && x'[i].Mark? ensures y'[i].Mark? {
      assert (x + x')[|x| + i] == x'[i] && (y + y')[|x| + i] == y'[i];
    }
  }

  lemma {:induction false} HidesFirst(s: string, h: bool, h': bool)
    requires ';' in s && h' && MarksIn(SymSegment(s, h'), SymSegment(s, h))
    ensures h
  {
    var i :| 0 <= i < |s| && s[i] == ';';
    SymMaskAt(s, i);
  }

  /** Hiding at least what `h'` hides is hiding its segments. */
  lemma {:induction false} HidesSegment(segs: seq<string>, h: seq<bool>, h': seq<bool>, j: nat)
    requires |h| == |segs| && |h'| == |segs| && j < |segs| && ';' in segs[j] && h'[j]
    requires MarksIn(SymJoin(segs, h'), SymJoin(segs, h))
    ensures h[j]
  {
    var a, b := SymSegment(segs[0], h'[0]), SymSegment(segs[0], h[0]);
    if |segs| == 1 {
      HidesFirst(segs[0], h[0], h'[0]);
    } else {
      var d := [Char('$'), Char('$')];
      var x, y := SymJoin(segs[1..], h'[1..]), SymJoin(segs[1..], h[1..]);
      MarksOfParts(a, d + x, b, d + y);
      if j == 0 {
        HidesFirst(segs[0], h[0], h'[0]);
      } else {
        MarksOfParts(d, x, d, y);
        HidesSegment(segs[1..], h[1..], h'[1..], j - 1);
      }
    }
  }
}
