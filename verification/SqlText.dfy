/** The Python string operations that `split_sql_statements` uses. */
module SqlText {
  predicate StartsWith(t: string, pat: string) { |pat| <= |t| && t[..|pat|] == pat }

  /** `t.replace(from, with)`: leftmost, non-overlapping. */
  function Replace(t: string, from: string, with: string): string
    requires from != ""
  {
    if t == "" then ""
    else if StartsWith(t, from) then with + Replace(t[|from|..], from, with)
    else [t[0]] + Replace(t[1..], from, with)
  }

  /** First position of `pat` in `t`, or -1. */
  function Find(t: string, pat: string): (i: int)
    ensures i == -1 || 0 <= i <= |t| - |pat|
  {
    if StartsWith(t, pat) then 0
    else if t == "" then -1
    else var i := Find(t[1..], pat); if i == -1 then -1 else i + 1
  }

  /** The texts matched by the regular expression open, then as little as possible, then close. */
  function Matches(t: string, open: string, close: string): seq<string>
    requires open != ""
    decreases |t|, 0
  {
    var i := Find(t, open);
    if i == -1 then [] else MatchesOpened(t[i + |open|..], open, close)
  }

  /** The matches of a text that follows an `open`. */
  function MatchesOpened(t: string, open: string, close: string): seq<string>
    requires open != ""
    decreases |t|, 1
  {
    var j := Find(t, close);
    if j == -1 then [] else [open + t[..j + |close|]] + Matches(t[j + |close|..], open, close)
  }

  /** `t.split(';')`. */
  function Split(t: string): (pieces: seq<string>)
    ensures pieces != []
  {
    if t == "" then [""]
    else if t[0] == ';' then [""] + Split(t[1..])
    else var r := Split(t[1..]); [[t[0]] + r[0]] + r[1..]
  }

  /** `';'.join(pieces)`. */
  function Join(pieces: seq<string>): string
    requires pieces != []
  {
    if |pieces| == 1 then pieces[0] else pieces[0] + ";" + Join(pieces[1..])
  }

  /** What `strip` removes: `str.isspace` over the whole of Unicode. */
  predicate IsSpace(c: char) {
    || c == ' ' || '\t' <= c <= '\r' || '\U{1c}' <= c <= '\U{1f}' || c == '\U{85}' || c == '\U{a0}'
    || c == '\U{1680}' || '\U{2000}' <= c <= '\U{200a}' || c == '\U{2028}' || c == '\U{2029}'
    || c == '\U{202f}' || c == '\U{205f}' || c == '\U{3000}'
  }

  function StripLeft(t: string): string {
    if t != "" && IsSpace(t[0]) then StripLeft(t[1..]) else t
  }

  function StripRight(t: string): string {
    if t != "" && IsSpace(t[|t| - 1]) then StripRight(t[..|t| - 1]) else t
  }

  function Strip(t: string): string { StripRight(StripLeft(t)) }

  lemma {:induction false} ReplaceSame(t: string, from: string)
    requires from != ""
    ensures Replace(t, from, from) == t
    decreases |t|
  {
    if t == "" {
    } else if StartsWith(t, from) {
      ReplaceSame(t[|from|..], from);
      assert t == from + t[|from|..];
    } else {
      ReplaceSame(t[1..], from);
      assert t == [t[0]] + t[1..];
    }
  }

  /** No occurrence can start in a stretch where `from` is nowhere a prefix. */
  lemma {:induction false} ReplaceSkip(u: string, v: string, from: string, with: string)
    requires from != ""
    requires forall k :: 0 <= k < |u| ==> !StartsWith((u + v)[k..], from)
    ensures Replace(u + v, from, with) == u + Replace(v, from, with)
  {
    if u == "" {
      assert u + v == v;
    } else {
      assert (u + v)[0..] == u + v;
      assert (u + v)[1..] == u[1..] + v;
      forall k | 0 <= k < |u[1..]| ensures !StartsWith((u[1..] + v)[k..], from) {
        assert (u[1..] + v)[k..] == (u + v)[k + 1..];
      }
      ReplaceSkip(u[1..], v, from, with);
    }
  }

  lemma {:induction false} FindSkip(u: string, v: string, pat: string)
    requires forall k :: 0 <= k < |u| ==> !StartsWith((u + v)[k..], pat)
    ensures Find(u + v, pat) == if Find(v, pat) == -1 then -1 else |u| + Find(v, pat)
  {
    if u == "" {
      assert u + v == v;
    } else {
      assert (u + v)[0..] == u + v;
      assert (u + v)[1..] == u[1..] + v;
      forall k | 0 <= k < |u[1..]| ensures !StartsWith((u[1..] + v)[k..], pat) {
        assert (u[1..] + v)[k..] == (u + v)[k + 1..];
      }
      FindSkip(u[1..], v, pat);
    }
  }

  lemma {:induction false} MatchesSkip(u: string, v: string, open: string, close: string)
    requires open != ""
    requires forall k :: 0 <= k < |u| ==> !StartsWith((u + v)[k..], open)
    ensures Matches(u + v, open, close) == Matches(v, open, close)
  {
    assert Find(u + v, open) == if Find(v, open) == -1 then -1 else |u| + Find(v, open) by {
      FindSkip(u, v, open);
    }
    if Find(v, open) != -1 { DropMore(u, v, Find(v, open) + |open|); }
  }

  lemma {:induction false} DropMore(u: string, v: string, n: nat)
    requires n <= |v|
    ensures (u + v)[|u| + n..] == v[n..]
  {}

  lemma {:induction false} FoundAt(t: string, pat: string)
    requires Find(t, pat) != -1
    ensures StartsWith(t[Find(t, pat)..], pat)
  {
    if !StartsWith(t, pat) {
      FoundAt(t[1..], pat);
      assert t[1..][Find(t, pat) - 1..] == t[Find(t, pat)..];
    } else {
      assert t[0..] == t;
    }
  }

  lemma {:induction false} CutAt(t: string, i: nat, pat: string)
    requires i <= |t| && StartsWith(t[i..], pat)
    ensures i + |pat| <= |t| && t == t[..i] + (pat + t[i + |pat|..])
  {
    assert t[i..] == pat + t[i..][|pat|..];
    assert t[i..][|pat|..] == t[i + |pat|..];
  }

  lemma {:induction false} AppendThree(a: string, b: string, c: string)
    ensures a + (b + c) == (a + b) + c
  {}

  /** The text around its first match, and the matches after it. */
  lemma {:induction false} FirstMatch(t: string, open: string, close: string)
    returns (u: string, body: string, tail: string)
    requires open != "" && Matches(t, open, close) != []
    ensures t == u + (open + (body + close) + tail) && |tail| < |t|
    ensures Matches(t, open, close) == [open + (body + close)] + Matches(tail, open, close)
  {
    var i := Find(t, open);
    var rest := t[i + |open|..];
    assert t == t[..i] + (open + rest) by { FoundAt(t, open); CutAt(t, i, open); }
    var j := Find(rest, close);
    u, body, tail := t[..i], rest[..j], rest[j + |close|..];
    assert rest == (body + close) + tail by {
      FoundAt(rest, close); CutAt(rest, j, close); AppendThree(body, close, tail);
    }
    AppendThree(open, body + close, tail);
    assert rest[..j + |close|] == body + close;
  }

  /** `m` is a stretch of `t` that begins with `open` and ends with `close`. */
  ghost predicate Stretch(t: string, open: string, close: string, m: string) {
    exists u, body, v :: t == u + (m + v) && m == open + (body + close)
  }

  lemma {:induction false} AppendFour(a: string, b: string, c: string, d: string)
    ensures a + (b + (c + d)) == (a + (b + c)) + d
  {}

  /** Every match is such a stretch. */
  lemma {:induction false} MatchesAreStretches(t: string, open: string, close: string, k: nat)
    requires open != "" && k < |Matches(t, open, close)|
    ensures Stretch(t, open, close, Matches(t, open, close)[k])
    decreases |t|
  {
    var u, body, tail := FirstMatch(t, open, close);
    var m := Matches(t, open, close)[k];
    if k == 0 {
      assert t == u + (m + tail);
    } else {
      MatchesAreStretches(tail, open, close, k - 1);
      var u', body', v :| tail == u' + (m + v) && m == open + (body' + close);
      AppendFour(u, open + (body + close), u', m + v);
      assert t == (u + (open + (body + close) + u')) + (m + v);
    }
  }
}
