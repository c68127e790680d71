/** `split_sql_statements`: mask semicolons inside dollar-quoted text, split, unmask. */
module SqlSplitter {
  import opened SqlText
  import opened SqlMask

  /** The text after both masking loops. */
  function MaskedSql(sql: string): string {
    MaskMatches(MaskMatches(sql, "$$", "$$"), "DO $$", "END $$")
  }

  /** The third loop: trim, drop empty pieces, unmask. */
  function Statements(pieces: seq<string>): seq<string> {
    if pieces == [] then []
    else
      var n := |pieces| - 1;
      var stmt := Strip(pieces[n]);
      Statements(pieces[..n]) + if stmt == "" then [] else [Unmask(stmt)]
  }

  /** The statements among pieces that hide nothing: trimmed, empty ones dropped. */
  function Trimmed(pieces: seq<string>): seq<string> {
    if pieces == [] then []
    else
      var n := |pieces| - 1;
      var stmt := Strip(pieces[n]);
      Trimmed(pieces[..n]) + if stmt == "" then [] else [stmt]
  }

  // ---- What is lost, character by character ----

  /** The whitespace of Python's `str.strip`, listed. */
  const WHITE: set<char> := {
    ' ', '\t', '\n', '\U{b}', '\U{c}', '\r', '\U{1c}', '\U{1d}', '\U{1e}', '\U{1f}', '\U{85}', '\U{a0}', '\U{1680}',
    '\U{2000}', '\U{2001}', '\U{2002}', '\U{2003}', '\U{2004}', '\U{2005}', '\U{2006}', '\U{2007}', '\U{2008}',
    '\U{2009}', '\U{200a}', '\U{2028}', '\U{2029}', '\U{202f}', '\U{205f}', '\U{3000}'}

  ghost predicate AllWhite(t: string) { forall k :: 0 <= k < |t| ==> t[k] in WHITE }

  /** Not empty, with no whitespace at either end. */
  ghost predicate Bare(t: string) { t != "" && t[0] !in WHITE && t[|t| - 1] !in WHITE }

  /** `stmt` is `piece` without the whitespace around it. */
  ghost predicate Core(piece: string, stmt: string) {
    Bare(stmt) && exists lead, trail :: AllWhite(lead) && AllWhite(trail) && piece == lead + stmt + trail
  }

  /** The statements are, in order, the cores of the pieces that are not whitespace alone. */
  ghost predicate TrimsTo(pieces: seq<string>, stmts: seq<string>) {
    if pieces == [] then stmts == []
    else
      var n := |pieces| - 1;
      if AllWhite(pieces[n]) then TrimsTo(pieces[..n], stmts)
      else stmts != [] && Core(pieces[n], stmts[|stmts| - 1]) && TrimsTo(pieces[..n], stmts[..|stmts| - 1])
  }

  lemma WhiteListed(c: char)
    ensures IsSpace(c) <==> c in WHITE
  {}

  lemma {:induction false} StripLeftParts(t: string) returns (lead: string)
    ensures AllWhite(lead) && t == lead + StripLeft(t)
    ensures StripLeft(t) != "" ==> StripLeft(t)[0] !in WHITE
  {
    if t == "" {
      lead := "";
    } else {
      WhiteListed(t[0]);
      if IsSpace(t[0]) {
        var rest := StripLeftParts(t[1..]);
        lead := [t[0]] + rest;
        assert t == [t[0]] + t[1..];
        AppendThree([t[0]], rest, StripLeft(t));
      } else {
        lead := "";
      }
    }
  }

  lemma {:induction false} StripRightParts(t: string) returns (trail: string)
    ensures AllWhite(trail) && t == StripRight(t) + trail
    ensures StripRight(t) != "" ==> StripRight(t)[|StripRight(t)| - 1] !in WHITE
  {
    if t == "" {
      trail := "";
    } else {
      var n := |t| - 1;
      WhiteListed(t[n]);
      if IsSpace(t[n]) {
        var rest := StripRightParts(t[..n]);
        trail := rest + [t[n]];
        assert t == t[..n] + [t[n]];
        AppendThree(StripRight(t), rest, [t[n]]);
      } else {
        trail := "";
      }
    }
  }

  lemma {:induction false} StripParts(t: string)
    ensures Strip(t) == "" <==> AllWhite(t)
    ensures Strip(t) != "" ==> Core(t, Strip(t))
  {
    var lead := StripLeftParts(t);
    var l := StripLeft(t);
    var trail := StripRightParts(l);
    var core := Strip(t);
    assert t == lead + core + trail by { AppendThree(lead, core, trail); }
    if core != "" {
      assert l[0] == core[0];
      assert t[|lead|] == core[0];
    }
  }

  lemma {:induction false} TrimmedTrims(pieces: seq<string>)
    ensures TrimsTo(pieces, Trimmed(pieces))
  {
    if pieces != [] {
      var n := |pieces| - 1;
      TrimmedTrims(pieces[..n]);
      StripParts(pieces[n]);
      var front, stmt := Trimmed(pieces[..n]), Strip(pieces[n]);
      assert (front + [stmt])[..|front|] == front && front + [] == front;
    }
  }

  /** Restoring semicolons keeps the ends of a statement free of whitespace. */
  lemma {:induction false} UnmaskKeepsEnds(t: string)
    requires t != ""
    ensures var u := Unmask(t);
            u != "" && (u[0] == t[0] || u[0] == ';') && (u[|u| - 1] == t[|t| - 1] || u[|u| - 1] == ';')
    decreases |t|
  {
    if StartsWith(t, MARK) {
      var rest := t[|MARK|..];
      if rest != "" { UnmaskKeepsEnds(rest); } else { assert Replace(rest, MARK, ";") == ""; }
    } else {
      if t[1..] != "" { UnmaskKeepsEnds(t[1..]); } else { assert Replace(t[1..], MARK, ";") == ""; }
    }
  }

  lemma {:induction false} RestoredBare(t: string)
    requires Strip(t) != ""
    ensures Bare(Unmask(Strip(t)))
  {
    StripParts(t);
    UnmaskKeepsEnds(Strip(t));
  }

  lemma {:induction false} StatementsBare(pieces: seq<string>)
    ensures forall k :: 0 <= k < |Statements(pieces)| ==> Bare(Statements(pieces)[k])
  {
    if pieces != [] {
      var n := |pieces| - 1;
      StatementsBare(pieces[..n]);
      if Strip(pieces[n]) != "" { RestoredBare(pieces[n]); }
    }
  }

  /** For every text without '#', the statements are the cores of pieces that make up the text. */
  lemma {:induction false} StatementsTrim(sql: string)
    requires '#' !in sql
    ensures var stmts := Statements(Split(MaskedSql(sql)));
            exists pieces :: pieces != [] && Join(pieces) == sql && TrimsTo(pieces, stmts)
  {
    var pieces := UnmaskAll(Split(MaskedSql(sql)));
    SplitterRoundTrip(sql);
    OnlySpaceIsLost(sql);
    TrimmedTrims(pieces);
  }

  lemma {:induction false} NotFound(t: string, pat: string)
    requires pat != "" && '$' in pat && '$' !in t
    ensures Find(t, pat) == -1
  {
    if t != "" { NotFound(t[1..], pat); }
  }

  lemma {:induction false} NoQuoteNoMask(t: string)
    requires '$' !in t
    ensures MaskedSql(t) == t
  {
    assert "$$"[0] == '$' && "DO $$"[3] == '$';
    NotFound(t, "$$");
    NotFound(t, "DO $$");
  }

  lemma {:induction false} OneStatement(t: string)
    requires Bare(t) && '$' !in t && ';' !in t
    ensures Statements(Split(MaskedSql(t))) == [Unmask(t)]
  {
    NoQuoteNoMask(t);
    SplitPlain(t, "");
    assert t + "" == t && Split("") == [""] && [""][1..] == [];
    WhiteListed(t[0]);
    WhiteListed(t[|t| - 1]);
    assert Strip(t) == t;
    var one := [t];
    assert one[..0] == [];
  }

  lemma {:induction false} ReplaceWhole(t: string, with: string)
    requires t != ""
    ensures Replace(t, t, with) == with
  {
    assert StartsWith(t, t) && t[|t|..] == "";
    assert Replace("", t, with) == "" && with + "" == with;
  }

  /** A text that spells the mark is changed: this is why '#' is kept out. */
  lemma {:induction false} MarkIsRewritten(sql: string)
    requires sql == MARK
    ensures Statements(Split(MaskedSql(sql))) == [";"] && sql == "###SEMICOLON###"
  {
    assert sql[0] == '#' && sql[|sql| - 1] == '#';
    OneStatement(sql);
    ReplaceWhole(sql, ";");
  }

  method SplitSqlStatements(sql: string) returns (statements: seq<string>)
    ensures statements == Statements(Split(MaskedSql(sql)))
    ensures forall k :: 0 <= k < |statements| ==> Bare(statements[k])
    ensures '#' !in sql ==> exists pieces :: pieces != [] && Join(pieces) == sql && TrimsTo(pieces, statements)
  {
    var tempSql := sql;
    var quoted := Matches(sql, "$$", "$$");
    NonEmptyMatches(sql, "$$", "$$");
    for k := 0 to |quoted|
      invariant NonEmpty(quoted[..k]) && tempSql == MaskEach(sql, quoted[..k])
    {
      assert quoted[..k + 1][..k] == quoted[..k];
      tempSql := Replace(tempSql, quoted[k], Replace(quoted[k], ";", MARK));
    }
    assert quoted[..|quoted|] == quoted;

    ghost var t := tempSql;
    var blocks := Matches(tempSql, "DO $$", "END $$");
    NonEmptyMatches(tempSql, "DO $$", "END $$");
    for k := 0 to |blocks|
      invariant NonEmpty(blocks[..k]) && tempSql == MaskEach(t, blocks[..k])
    {
      assert blocks[..k + 1][..k] == blocks[..k];
      tempSql := Replace(tempSql, blocks[k], Replace(blocks[k], ";", MARK));
    }
    assert blocks[..|blocks|] == blocks;

    statements := [];
    var pieces := Split(tempSql);
    for k := 0 to |pieces|
      invariant statements == Statements(pieces[..k])
    {
      assert pieces[..k + 1][..k] == pieces[..k];
      var stmt := Strip(pieces[k]);
      if stmt != "" {
        stmt := Replace(stmt, MARK, ";");
        statements := statements + [stmt];
      }
    }
    assert pieces[..|pieces|] == pieces;
    StatementsBare(pieces);
    if '#' !in sql { StatementsTrim(sql); }
  }

  // ---- Round trip ----

  /** Whatever the two loops mask, the text still stands for the input. */
  lemma {:induction false} MaskedSqlMasks(sql: string)
    requires '#' !in sql
    ensures Masks(MaskedSql(sql), sql)
  {
    RawIsText(sql);
    LoopKeeps(Raw(sql), "$$", "$$");
    var x :| Clean(x) && Enc(x) == MaskMatches(sql, "$$", "$$") && Covers(x, Raw(sql));
    LoopKeeps(x, "DO $$", "END $$");
  }

  /** The pieces before trimming, unmasked. */
  function UnmaskAll(pieces: seq<string>): (r: seq<string>)
    ensures |r| == |pieces|
  {
    if pieces == [] then [] else [Unmask(pieces[0])] + UnmaskAll(pieces[1..])
  }

  function DecAll(pieces: seq<seq<Sym>>): (r: seq<string>)
    ensures |r| == |pieces|
  {
    if pieces == [] then [] else [Dec(pieces[0])] + DecAll(pieces[1..])
  }

  lemma {:induction false} UnmaskPieces(ps: seq<string>, xs: seq<seq<Sym>>)
    requires |ps| == |xs|
    requires forall k :: 0 <= k < |xs| ==> ps[k] == Enc(xs[k]) && Clean(xs[k])
    ensures UnmaskAll(ps) == DecAll(xs)
  {
    if ps != [] {
      UnmaskDecodes(xs[0]);
      UnmaskPieces(ps[1..], xs[1..]);
    }
  }

  lemma {:induction false} DecSplitCons(s: Sym, x: seq<Sym>)
    requires s != Char(';')
    ensures var p := DecAll(SymSplit(x));
            DecAll(SymSplit([s] + x)) == [[if s.Mark? then ';' else s.c] + p[0]] + p[1..]
  {
    assert ([s] + x)[1..] == x;
    var r := SymSplit(x);
    assert DecAll(r)[0] == Dec(r[0]) && DecAll(r)[1..] == DecAll(r[1..]);
    assert ([s] + r[0])[1..] == r[0];
    assert ([[s] + r[0]] + r[1..])[1..] == r[1..];
  }

  lemma {:induction false} DecSplitSemicolon(x: seq<Sym>)
    ensures DecAll(SymSplit([Char(';')] + x)) == [""] + DecAll(SymSplit(x))
  {
    assert ([Char(';')] + x)[1..] == x;
    assert ([[]] + SymSplit(x))[1..] == SymSplit(x);
  }

  lemma {:induction false} JoinDecodes(x: seq<Sym>)
    ensures Join(DecAll(SymSplit(x))) == Dec(x)
  {
    if x != [] {
      JoinDecodes(x[1..]);
      var p := DecAll(SymSplit(x[1..]));
      assert x == [x[0]] + x[1..];
      if x[0] == Char(';') {
        DecSplitSemicolon(x[1..]);
        assert ([""] + p)[1..] == p;
        assert Join([""] + p) == "" + ";" + Join(p);
      } else {
        DecSplitCons(x[0], x[1..]);
        JoinPrepend([if x[0].Mark? then ';' else x[0].c], p);
      }
    }
  }

  lemma {:induction false} JoinPrepend(c: string, ps: seq<string>)
    requires ps != []
    ensures Join([c + ps[0]] + ps[1..]) == c + Join(ps)
  {
    var qs := [c + ps[0]] + ps[1..];
    if |ps| > 1 {
      assert qs[1..] == ps[1..];
      AppendThree(c, ps[0], ";" + Join(ps[1..]));
      assert ps[0] + ";" + Join(ps[1..]) == ps[0] + (";" + Join(ps[1..]));
      assert (c + ps[0]) + ";" + Join(ps[1..]) == (c + ps[0]) + (";" + Join(ps[1..]));
    }
  }

  /** For every text without '#', the untrimmed pieces, unmasked and joined with ';', are the input. */
  lemma {:induction false} SplitterRoundTrip(sql: string)
    requires '#' !in sql
    ensures Join(UnmaskAll(Split(MaskedSql(sql)))) == sql
  {
    MaskedSqlMasks(sql);
    var x :| Clean(x) && Enc(x) == MaskedSql(sql) && Dec(x) == sql;
    SplitEnc(x);
    SymSplitClean(x);
    UnmaskPieces(Split(Enc(x)), SymSplit(x));
    JoinDecodes(x);
  }

  // ---- Trimming masked pieces ----

  function SymStripLeft(x: seq<Sym>): seq<Sym> {
    if x != [] && x[0].Char? && IsSpace(x[0].c) then SymStripLeft(x[1..]) else x
  }

  function SymStripRight(x: seq<Sym>): seq<Sym> {
    if x != [] && x[|x| - 1].Char? && IsSpace(x[|x| - 1].c) then SymStripRight(x[..|x| - 1]) else x
  }

  lemma {:induction false} StripLeftEnc(x: seq<Sym>)
    requires Clean(x)
    ensures StripLeft(Enc(x)) == Enc(SymStripLeft(x)) && StripLeft(Dec(x)) == Dec(SymStripLeft(x))
    ensures Clean(SymStripLeft(x))
  {
    if x != [] {
      assert Enc(x)[0] == Code(x[0])[0];
      if x[0].Char? && IsSpace(x[0].c) {
        assert Enc(x)[1..] == Enc(x[1..]) && Dec(x)[1..] == Dec(x[1..]);
        assert Clean(x[1..]);
        StripLeftEnc(x[1..]);
      }
    }
  }

  lemma {:induction false} StripRightEnc(x: seq<Sym>)
    requires Clean(x)
    ensures StripRight(Enc(x)) == Enc(SymStripRight(x)) && StripRight(Dec(x)) == Dec(SymStripRight(x))
    ensures Clean(SymStripRight(x))
  {
    if x != [] {
      var n := |x| - 1;
      assert x == x[..n] + [x[n]];
      EncConcat(x[..n], [x[n]]);
      assert [x[n]][1..] == [];
      assert Enc([x[n]]) == Code(x[n]) && Dec([x[n]]) == [if x[n].Mark? then ';' else x[n].c];
      if x[n].Char? && IsSpace(x[n].c) {
        assert Enc(x)[..|Enc(x)| - 1] == Enc(x[..n]) && Dec(x)[..|Dec(x)| - 1] == Dec(x[..n]);
        assert Clean(x[..n]);
        StripRightEnc(x[..n]);
      } else {
        assert Enc(x)[|Enc(x)| - 1] == Code(x[n])[|Code(x[n])| - 1];
      }
    }
  }

  /** Trimming then unmasking is unmasking then trimming. */
  lemma {:induction false} StripUnmasks(x: seq<Sym>)
    requires Clean(x)
    ensures Unmask(Strip(Enc(x))) == Strip(Dec(x))
    ensures Strip(Enc(x)) == "" <==> Strip(Dec(x)) == ""
  {
    StripLeftEnc(x);
    var y := SymStripLeft(x);
    StripRightEnc(y);
    UnmaskDecodes(SymStripRight(y));
  }

  lemma {:induction false} StatementsSnoc(ps: seq<string>, p: string)
    ensures Statements(ps + [p]) == Statements(ps) + if Strip(p) == "" then [] else [Unmask(Strip(p))]
    ensures Trimmed(ps + [p]) == Trimmed(ps) + if Strip(p) == "" then [] else [Strip(p)]
  {
    assert (ps + [p])[..|ps|] == ps;
  }

  ghost predicate Encodes(ps: seq<string>, xs: seq<seq<Sym>>) {
    |ps| == |xs| && forall k :: 0 <= k < |xs| ==> ps[k] == Enc(xs[k]) && Clean(xs[k])
  }

  lemma {:induction false} StatementsTrimmed(ps: seq<string>, xs: seq<seq<Sym>>)
    requires Encodes(ps, xs)
    ensures Statements(ps) == Trimmed(DecAll(xs))
    decreases |ps|
  {
    if ps != [] {
      var n := |ps| - 1;
      var front, last := xs[..n], xs[n];
      assert ps == ps[..n] + [Enc(last)] && xs == front + [last];
      StatementsTrimmed(ps[..n], front);
      StatementsSnoc(ps[..n], Enc(last));
      DecAllSnoc(front, last);
      StatementsSnoc(DecAll(front), Dec(last));
      StripUnmasks(last);
    }
  }

  lemma {:induction false} DecAllSnoc(xs: seq<seq<Sym>>, x: seq<Sym>)
    ensures DecAll(xs + [x]) == DecAll(xs) + [Dec(x)]
  {
    if xs == [] {
      assert [] + [x] == [x] && [x][1..] == [];
    } else {
      DecAllSnoc(xs[1..], x);
      assert (xs + [x])[1..] == xs[1..] + [x];
    }
  }

  /** The statements of a masked text. */
  lemma {:induction false} StatementsOf(x: seq<Sym>)
    requires Clean(x)
    ensures Statements(Split(Enc(x))) == Trimmed(DecAll(SymSplit(x)))
    ensures UnmaskAll(Split(Enc(x))) == DecAll(SymSplit(x))
  {
    SplitEnc(x);
    SymSplitClean(x);
    StatementsTrimmed(Split(Enc(x)), SymSplit(x));
    UnmaskPieces(Split(Enc(x)), SymSplit(x));
  }

  /** Trimming the masked pieces loses what trimming the pieces that make up the input would lose:
      outer whitespace and empty pieces, and nothing else. */
  lemma {:induction false} OnlySpaceIsLost(sql: string)
    requires '#' !in sql
    ensures Statements(Split(MaskedSql(sql))) == Trimmed(UnmaskAll(Split(MaskedSql(sql))))
  {
    MaskedSqlMasks(sql);
    var x :| Clean(x) && Enc(x) == MaskedSql(sql) && Dec(x) == sql;
    StatementsOf(x);
  }
}
