/** Masked SQL text. While the source holds no '#', masked text is a sequence of symbols,
    each a plain character or one mark standing for a hidden semicolon. */
module SqlMask {
  import opened SqlText

  const MARK := "###SEMICOLON###"

  function Mask(t: string): string { Replace(t, ";", MARK) }

  function Unmask(t: string): string { Replace(t, MARK, ";") }

  predicate NonEmpty(matched: seq<string>) { forall k :: 0 <= k < |matched| ==> matched[k] != "" }

  /** The loop body of both masking loops, over the matched texts in order. */
  function MaskEach(t: string, matched: seq<string>): string
    requires NonEmpty(matched)
  {
    if matched == [] then t
    else
      var n := |matched| - 1;
      Replace(MaskEach(t, matched[..n]), matched[n], Mask(matched[n]))
  }

  datatype Sym = Char(c: char) | Mark

  function Code(s: Sym): (r: string)
    ensures r != ""
  {
    if s.Mark? then MARK else [s.c]
  }

  /** The text as the program holds it. */
  function Enc(x: seq<Sym>): string { if x == [] then "" else Code(x[0]) + Enc(x[1..]) }

  /** The SQL it stands for. */
  function Dec(x: seq<Sym>): string {
    if x == [] then "" else [if x[0].Mark? then ';' else x[0].c] + Dec(x[1..])
  }

  function Raw(t: string): seq<Sym> { if t == "" then [] else [Char(t[0])] + Raw(t[1..]) }

  ghost predicate Clean(x: seq<Sym>) { Char('#') !in x }

  function SymMask(x: seq<Sym>): (r: seq<Sym>)
    ensures |r| == |x|
  {
    if x == [] then [] else [if x[0] == Char(';') then Mark else x[0]] + SymMask(x[1..])
  }

  predicate SymStarts(x: seq<Sym>, b: seq<Sym>) { |b| <= |x| && x[..|b|] == b }

  function SymReplace(x: seq<Sym>, b: seq<Sym>, b': seq<Sym>): seq<Sym>
    requires b != []
  {
    if x == [] then []
    else if SymStarts(x, b) then b' + SymReplace(x[|b|..], b, b')
    else [x[0]] + SymReplace(x[1..], b, b')
  }

  // ---- Encoding and decoding ----

  lemma {:induction false} EncConcat(x: seq<Sym>, y: seq<Sym>)
    ensures Enc(x + y) == Enc(x) + Enc(y) && Dec(x + y) == Dec(x) + Dec(y)
  {
    if x == [] {
      assert x + y == y;
    } else {
      EncConcat(x[1..], y);
      assert (x + y)[1..] == x[1..] + y && (x + y)[0] == x[0];
      AppendThree(Code(x[0]), Enc(x[1..]), Enc(y));
      AppendThree([if x[0].Mark? then ';' else x[0].c], Dec(x[1..]), Dec(y));
    }
  }

  lemma {:induction false} RawIsText(t: string)
    ensures Enc(Raw(t)) == t && Dec(Raw(t)) == t && |Raw(t)| == |t|
    ensures '#' !in t ==> Clean(Raw(t))
  {
    if t != "" {
      RawIsText(t[1..]);
      assert t == [t[0]] + t[1..];
    }
  }

  lemma {:induction false} SymMaskDecodes(x: seq<Sym>)
    requires Clean(x)
    ensures Dec(SymMask(x)) == Dec(x) && Clean(SymMask(x))
    ensures Enc(SymMask(x)) == Mask(Enc(x))
  {
    if x != [] {
      assert Clean(x[1..]);
      SymMaskDecodes(x[1..]);
      var rest := Enc(x[1..]);
      if x[0] == Char(';') {
        assert (";" + rest)[1..] == rest;
      } else {
        SkipNonStart(Code(x[0]), rest, ";", MARK);
      }
    }
  }

  lemma {:induction false} SkipNonStart(u: string, v: string, from: string, with: string)
    requires from != "" && from[0] !in u
    ensures Replace(u + v, from, with) == u + Replace(v, from, with)
  {
    forall k | 0 <= k < |u| ensures !StartsWith((u + v)[k..], from) {
      assert (u + v)[k..][0] == u[k];
      assert (u + v)[k..][..1] == [u[k]] && from[..1] == [from[0]];
    }
    ReplaceSkip(u, v, from, with);
  }

  /** The encoding is a prefix code. */
  lemma {:induction false} PrefixCode(x: seq<Sym>, b: seq<Sym>)
    requires Clean(x) && Clean(b)
    ensures StartsWith(Enc(x), Enc(b)) <==> SymStarts(x, b)
  {
    if SymStarts(x, b) {
      assert x == b + x[|b|..];
      EncConcat(b, x[|b|..]);
    }
    if StartsWith(Enc(x), Enc(b)) { PrefixCodeDecodes(x, b); }
  }

  lemma {:induction false} PrefixCodeDecodes(x: seq<Sym>, b: seq<Sym>)
    requires Clean(x) && Clean(b) && StartsWith(Enc(x), Enc(b))
    ensures SymStarts(x, b)
  {
    if b != [] {
      assert x != [];
      assert Enc(x)[0] == Code(x[0])[0] && Enc(b)[0] == Code(b[0])[0] && Enc(x)[..|Enc(b)|][0] == Enc(x)[0];
      assert x[0] == b[0];
      var n := |Code(b[0])|;
      TailStarts(Enc(x), Enc(b), n);
      assert Enc(x)[n..] == Enc(x[1..]) && Enc(b)[n..] == Enc(b[1..]);
      assert Clean(x[1..]) && Clean(b[1..]);
      PrefixCodeDecodes(x[1..], b[1..]);
      assert x == [x[0]] + x[1..] && b == [b[0]] + b[1..];
    }
  }

  lemma {:induction false} TailStarts(t: string, pat: string, n: nat)
    requires StartsWith(t, pat) && n <= |pat|
    ensures StartsWith(t[n..], pat[n..])
  {
    assert t[n..][..|pat| - n] == t[..|pat|][n..];
  }

  /** Replacing in the program's text is replacing symbols, when the sought text begins outside marks. */
  lemma {:induction false} ReplaceEnc(x: seq<Sym>, b: seq<Sym>, b': seq<Sym>)
    requires Clean(x) && Clean(b) && b != [] && b[0].Char? && b[0].c !in MARK
    ensures Enc(b) != ""
    ensures Replace(Enc(x), Enc(b), Enc(b')) == Enc(SymReplace(x, b, b'))
    decreases |x|
  {
    assert Enc(b)[0] == b[0].c;
    if x != [] {
      PrefixCode(x, b);
      if SymStarts(x, b) {
        var y := x[|b|..];
        assert x == b + y;
        EncConcat(b, y);
        assert Clean(y);
        ReplaceEnc(y, b, b');
        assert Enc(x)[|Enc(b)|..] == Enc(y);
        EncConcat(b', SymReplace(y, b, b'));
      } else {
        var y := x[1..];
        assert Clean(y);
        ReplaceEnc(y, b, b');
        EncConcat([x[0]], SymReplace(y, b, b'));
        assert Enc([x[0]]) == Code(x[0]) by { assert [x[0]][1..] == []; }
        if x[0].Mark? {
          SkipNonStart(MARK, Enc(y), Enc(b), Enc(b'));
        } else {
          assert Enc(x)[1..] == Enc(y);
        }
      }
    }
  }

  // ---- Every masking step keeps the SQL the text stands for, and what is hidden stays hidden ----

  /** `y` is `x` with perhaps more semicolons hidden. */
  ghost predicate Covers(y: seq<Sym>, x: seq<Sym>) {
    |y| == |x| && Dec(y) == Dec(x) && forall i :: 0 <= i < |x| && x[i].Mark? ==> y[i].Mark?
  }

  lemma {:induction false} CoversConcat(y: seq<Sym>, x: seq<Sym>, y': seq<Sym>, x': seq<Sym>)
    requires Covers(y, x) && Covers(y', x')
    ensures Covers(y + y', x + x')
  {
    EncConcat(y, y');
    EncConcat(x, x');
  }

  lemma {:induction false} SymMaskCovers(x: seq<Sym>)
    requires Clean(x)
    ensures Covers(SymMask(x), x)
  {
    if x != [] {
      assert Clean(x[1..]);
      SymMaskCovers(x[1..]);
      var y := [if x[0] == Char(';') then Mark else x[0]];
      assert y[1..] == [] && [x[0]][1..] == [];
      assert Dec(y) == Dec([x[0]]);
      CoversConcat(y, [x[0]], SymMask(x[1..]), x[1..]);
      assert x == [x[0]] + x[1..];
    }
  }

  lemma {:induction false} SymReplaceCovers(x: seq<Sym>, b: seq<Sym>, b': seq<Sym>)
    requires b != [] && Covers(b', b) && Clean(x) && Clean(b')
    ensures Covers(SymReplace(x, b, b'), x) && Clean(SymReplace(x, b, b'))
    decreases |x|
  {
    if x != [] {
      if SymStarts(x, b) {
        var y := x[|b|..];
        assert x == b + y && Clean(y);
        SymReplaceCovers(y, b, b');
        CoversConcat(b', b, SymReplace(y, b, b'), y);
      } else {
        assert Clean(x[1..]);
        SymReplaceCovers(x[1..], b, b');
        CoversConcat([x[0]], [x[0]], SymReplace(x[1..], b, b'), x[1..]);
        assert x == [x[0]] + x[1..];
        assert Clean(SymReplace(x, b, b')) by { assert x[0] in x; }
      }
    }
  }

  /** `t` is the program's form of `x` with perhaps more semicolons hidden. */
  ghost predicate Hides(t: string, x: seq<Sym>) {
    exists y :: Clean(y) && Enc(y) == t && Covers(y, x)
  }

  /** `t` is `sql` with some semicolons hidden. */
  ghost predicate Masks(t: string, sql: string) {
    exists x :: Clean(x) && Enc(x) == t && Dec(x) == sql
  }

  /** The program's text tells its symbols. */
  lemma {:induction false} EncInjective(x: seq<Sym>, y: seq<Sym>)
    requires Clean(x) && Clean(y) && Enc(x) == Enc(y)
    ensures x == y
  {
    assert Enc(x)[..|Enc(y)|] == Enc(y) && Enc(y)[..|Enc(x)|] == Enc(x);
    PrefixCode(x, y);
    PrefixCode(y, x);
  }

  /** A character outside every mark sits at a symbol boundary. */
  lemma {:induction false} Aligned(x: seq<Sym>, u: string, v: string) returns (i: nat)
    requires Enc(x) == u + v && v != "" && v[0] !in MARK
    ensures i < |x| && Enc(x[..i]) == u && Enc(x[i..]) == v && x[i] == Char(v[0])
  {
    if u == "" {
      i := 0;
      assert u + v == v && x[0..] == x;
      HeadIsChar(x, v);
    } else {
      var c := Code(x[0]);
      CodeFits(x, u, v);
      var u' := u[|c|..];
      assert Enc(x[1..]) == u' + v by {
        assert u == c + u';
        AppendThree(c, u', v);
        Cancel(c, Enc(x[1..]), u' + v);
      }
      i := Aligned(x[1..], u', v);
      assert x[1..][i..] == x[i + 1..];
      assert x[..i + 1][1..] == x[1..][..i];
      i := i + 1;
    }
  }

  lemma {:induction false} Cancel(c: string, p: string, q: string)
    requires c + p == c + q
    ensures p == q
  {
    assert (c + p)[|c|..] == p && (c + q)[|c|..] == q;
  }

  lemma {:induction false} HeadIsChar(x: seq<Sym>, v: string)
    requires Enc(x) == v && v != "" && v[0] !in MARK
    ensures x != [] && x[0] == Char(v[0])
  {
    assert v[0] == Code(x[0])[0];
  }

  lemma {:induction false} CodeFits(x: seq<Sym>, u: string, v: string)
    requires x != [] && Enc(x) == u + v && v != "" && v[0] !in MARK && u != ""
    ensures StartsWith(u, Code(x[0]))
  {
    var c := Code(x[0]);
    assert Enc(x)[..|c|] == c;
    assert forall k :: 0 < k < |c| ==> Enc(x)[k] in MARK;
    assert Enc(x)[|u|] == v[0];
    assert u[..|c|] == (u + v)[..|c|];
  }

  lemma {:induction false} CutAfter(z: seq<Sym>, u: string, c: char, v: string) returns (b: seq<Sym>)
    requires Enc(z) == u + ([c] + v) && c !in MARK
    ensures SymStarts(z, b) && b != [] && Enc(b) == u + [c]
  {
    var i := Aligned(z, u, [c] + v);
    b := z[..i] + [z[i]];
    EncConcat(z[..i], [z[i]]);
    assert Enc([z[i]]) == [c] by { assert [z[i]][1..] == []; }
  }

  /** A stretch that begins and ends outside marks is a run of symbols. */
  lemma {:induction false} StretchEnc(x: seq<Sym>, u: string, m: string, v: string) returns (b: seq<Sym>)
    requires Clean(x) && Enc(x) == u + (m + v)
    requires m != "" && m[0] !in MARK && m[|m| - 1] !in MARK
    ensures Clean(b) && b != [] && b[0] == Char(m[0]) && Enc(b) == m
  {
    var i := Aligned(x, u, m + v);
    var z := x[i..];
    var n := |m| - 1;
    assert m == m[..n] + [m[n]];
    assert m + v == m[..n] + ([m[n]] + v);
    b := CutAfter(z, m[..n], m[n], v);
    assert b[0] == z[0];
    forall s | s in b ensures s != Char('#') { assert s in z[..|b|]; assert s in x; }
  }

  lemma {:induction false} MaskStep(t: string, x: seq<Sym>, b: seq<Sym>)
    requires Hides(t, x) && Clean(b) && b != [] && b[0].Char? && b[0].c !in MARK
    ensures Enc(b) != "" && Hides(Replace(t, Enc(b), Mask(Enc(b))), x)
  {
    var y :| Clean(y) && Enc(y) == t && Covers(y, x);
    SymMaskDecodes(b);
    SymMaskCovers(b);
    ReplaceEnc(y, b, SymMask(b));
    SymReplaceCovers(y, b, SymMask(b));
  }

  lemma {:induction false} MaskMatch(t: string, x: seq<Sym>, from: string, open: string, close: string, m: string)
    requires Hides(t, x) && Hides(from, x) && Stretch(from, open, close, m)
    requires open != "" && open[0] !in MARK && close != "" && close[|close| - 1] !in MARK
    ensures m != "" && Hides(Replace(t, m, Mask(m)), x)
  {
    var u, body, v :| from == u + (m + v) && m == open + (body + close);
    var y :| Clean(y) && Enc(y) == from && Covers(y, x);
    assert m[0] == open[0] && m[|m| - 1] == close[|close| - 1];
    var b := StretchEnc(y, u, m, v);
    MaskStep(t, x, b);
  }

  /** Masking the matches of either regular expression keeps the SQL and all that was hidden. */
  lemma {:induction false} MaskEachKeeps(
    t: string, x: seq<Sym>, from: string, open: string, close: string, ms: seq<string>)
    requires Hides(t, x) && Hides(from, x)
    requires open != "" && open[0] !in MARK && close != "" && close[|close| - 1] !in MARK
    requires NonEmpty(ms) && forall k :: 0 <= k < |ms| ==> Stretch(from, open, close, ms[k])
    ensures Hides(MaskEach(t, ms), x)
  {
    if ms != [] {
      var n := |ms| - 1;
      MaskEachKeeps(t, x, from, open, close, ms[..n]);
      MaskMatch(MaskEach(t, ms[..n]), x, from, open, close, ms[n]);
    }
  }

  /** A whole masking loop: every match of the regular expression, masked wherever its text occurs. */
  function MaskMatches(t: string, open: string, close: string): string
    requires open != ""
  {
    NonEmptyMatches(t, open, close);
    MaskEach(t, Matches(t, open, close))
  }

  lemma {:induction false} LoopKeeps(x: seq<Sym>, open: string, close: string)
    requires Clean(x)
    requires open != "" && open[0] !in MARK && close != "" && close[|close| - 1] !in MARK
    ensures Hides(MaskMatches(Enc(x), open, close), x)
  {
    var t := Enc(x);
    var ms := Matches(t, open, close);
    NonEmptyMatches(t, open, close);
    forall k | 0 <= k < |ms| ensures Stretch(t, open, close, ms[k]) { MatchesAreStretches(t, open, close, k); }
    assert Covers(x, x);
    MaskEachKeeps(t, x, t, open, close, ms);
  }

  lemma {:induction false} NonEmptyMatches(t: string, open: string, close: string)
    requires open != ""
    ensures NonEmpty(Matches(t, open, close))
  {
    forall k | 0 <= k < |Matches(t, open, close)| ensures Matches(t, open, close)[k] != "" {
      MatchesAreStretches(t, open, close, k);
    }
  }

  // ---- Splitting and unmasking ----

  function SymSplit(x: seq<Sym>): (pieces: seq<seq<Sym>>)
    ensures pieces != []
  {
    if x == [] then [[]]
    else if x[0] == Char(';') then [[]] + SymSplit(x[1..])
    else var r := SymSplit(x[1..]); [[x[0]] + r[0]] + r[1..]
  }

  lemma {:induction false} UnmaskDecodes(x: seq<Sym>)
    requires Clean(x)
    ensures Unmask(Enc(x)) == Dec(x)
  {
    if x != [] {
      assert Clean(x[1..]);
      UnmaskDecodes(x[1..]);
      var rest := Enc(x[1..]);
      if x[0].Mark? {
        assert StartsWith(MARK + rest, MARK);
        assert (MARK + rest)[|MARK|..] == rest;
      } else {
        assert x[0] in x;
        SkipNonStart([x[0].c], rest, MARK, ";");
      }
    }
  }

  lemma {:induction false} SplitPlain(u: string, v: string)
    requires ';' !in u
    ensures Split(u + v) == [u + Split(v)[0]] + Split(v)[1..]
  {
    if u == "" {
      assert u + v == v && u + Split(v)[0] == Split(v)[0];
      assert Split(v) == [Split(v)[0]] + Split(v)[1..];
    } else {
      SplitPlain(u[1..], v);
      assert (u + v)[1..] == u[1..] + v;
      AppendThree([u[0]], u[1..], Split(v)[0]);
      assert [u[0]] + u[1..] == u;
      assert Split(u + v) == [[u[0]] + (u[1..] + Split(v)[0])] + Split(v)[1..];
    }
  }

  lemma {:induction false} SplitEnc(x: seq<Sym>)
    ensures |Split(Enc(x))| == |SymSplit(x)|
    ensures forall k :: 0 <= k < |SymSplit(x)| ==> Split(Enc(x))[k] == Enc(SymSplit(x)[k])
  {
    if x != [] {
      SplitEnc(x[1..]);
      var rest := Enc(x[1..]);
      if x[0] == Char(';') {
        assert (";" + rest)[1..] == rest;
      } else {
        SplitPlain(Code(x[0]), rest);
        var r := SymSplit(x[1..]);
        assert ([x[0]] + r[0])[1..] == r[0];
      }
    }
  }

  lemma {:induction false} SymSplitClean(x: seq<Sym>)
    requires Clean(x)
    ensures forall k :: 0 <= k < |SymSplit(x)| ==> Clean(SymSplit(x)[k])
  {
    if x != [] {
      assert Clean(x[1..]);
      SymSplitClean(x[1..]);
      assert x[0] in x;
      var r := SymSplit(x[1..]);
      forall k | 0 <= k < |SymSplit(x)| ensures Clean(SymSplit(x)[k]) {
        if x[0] == Char(';') {
          if k > 0 { assert SymSplit(x)[k] == r[k - 1]; }
        } else {
          assert SymSplit(x)[k] == if k == 0 then [x[0]] + r[0] else r[k];
        }
      }
    }
  }
}
