/** The row transformations of the migration that joins first and last names. */
module NameMigration {
  import opened Options

  datatype Parts = Parts(first: Option<string>, last: Option<string>)

  /** `up`: the CASE expression that fills `name`. */
  function Up(r: Parts): Option<string> {
    if r.first.Some? && r.last.Some? then Some(r.first.value + " " + r.last.value)
    else if r.first.Some? then r.first
    else if r.last.Some? then r.last
    else None
  }

  /** `POSITION(' ' IN name) - 1`, or the length when there is no space. */
  function SpaceAt(s: string): (i: nat)
    ensures i <= |s|
  {
    if s == "" || s[0] == ' ' then 0 else 1 + SpaceAt(s[1..])
  }

  /** `down`: SPLIT_PART up to the first space, and SUBSTRING after it. A null name leaves both parts null. */
  function Down(name: Option<string>): Parts {
    match name
    case None => Parts(None, None)
    case Some(s) =>
      var i := SpaceAt(s);
      Parts(Some(s[..i]), if i < |s| then Some(s[i + 1..]) else None)
  }

  lemma {:induction false} FirstSpace(s: string)
    ensures ' ' !in s[..SpaceAt(s)]
    ensures SpaceAt(s) < |s| ==> s[SpaceAt(s)] == ' '
  {
    if s != "" && s[0] != ' ' {
      FirstSpace(s[1..]);
      assert s[..SpaceAt(s)] == [s[0]] + s[1..][..SpaceAt(s[1..])];
    }
  }

  lemma {:induction false} SpaceAfter(f: string, rest: string)
    requires ' ' !in f
    ensures SpaceAt(f) == |f| && SpaceAt(f + " " + rest) == |f|
  {
    if f == "" {
      assert f + " " + rest == " " + rest;
    } else {
      SpaceAfter(f[1..], rest);
      assert (f + " " + rest)[1..] == f[1..] + " " + rest;
    }
  }

  /** Rolling back and migrating again keeps every name. */
  lemma {:induction false} UpUndoesDown(name: Option<string>)
    ensures Up(Down(name)) == name
  {
    if name.Some? {
      var s, i := name.value, SpaceAt(name.value);
      FirstSpace(s);
      if i < |s| { assert s == s[..i] + " " + s[i + 1..]; } else { assert s[..i] == s; }
    }
  }

  /** Migrating and rolling back keeps a row exactly when both parts are null,
      or the first name is not null and holds no space. */
  lemma {:induction false} DownUndoesUpExactly(r: Parts)
    ensures Down(Up(r)) == r <==> r == Parts(None, None) || (r.first.Some? && ' ' !in r.first.value)
  {
    if r.first.Some? {
      var f := r.first.value;
      if ' ' !in f {
        SpaceAfter(f, if r.last.Some? then r.last.value else "");
        if r.last == None {
          assert f[..|f|] == f;
        } else {
          assert (f + " " + r.last.value)[..|f|] == f && (f + " " + r.last.value)[|f| + 1..] == r.last.value;
        }
      } else {
        FirstSpace(Up(r).value);
      }
    }
  }

  /** The joined name: both parts with a space between, whatever spaces they hold, or the one part there is. */
  lemma UpJoins(f: string, l: string)
    ensures Up(Parts(Some(f), Some(l))) == Some(f + " " + l)
    ensures Up(Parts(Some(f), None)) == Some(f) && Up(Parts(None, Some(l))) == Some(l)
    ensures Up(Parts(None, None)) == None
  {}

  /** The split name: cut at the first space, the rest kept with all its spaces; without one there is no last name. */
  lemma {:induction false} DownSplits(f: string, rest: string)
    requires ' ' !in f
    ensures Down(Some(f + " " + rest)) == Parts(Some(f), Some(rest))
    ensures Down(Some(f)) == Parts(Some(f), None) && Down(None) == Parts(None, None)
  {
    SpaceAfter(f, rest);
    assert (f + " " + rest)[..|f|] == f && (f + " " + rest)[|f| + 1..] == rest && f[..|f|] == f;
  }
}
