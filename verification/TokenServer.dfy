/** The gateway's token service: validation, logout, and the pruned set of invalidated tokens.
    `sig` stands for signature verification: the claims of a token whose signature holds.
    Times are seconds of one clock that never goes back. */
module TokenServer {
  import opened Options

  type UserId = nat

  datatype Claims = Claims(sub: Option<UserId>, exp: Option<int>, nbf: Option<int>)

  type Signature = string -> Option<Claims>

  // ---- Token format ----

  predicate IsBase64Url(c: char) {
    'A' <= c <= 'Z' || 'a' <= c <= 'z' || '0' <= c <= '9' || c == '_' || c == '-'
  }

  predicate IsPart(p: string) { p != "" && forall k :: 0 <= k < |p| ==> IsBase64Url(p[k]) }

  /** `token.split('.')`. */
  function SplitDots(t: string): (parts: seq<string>)
    ensures parts != []
  {
    if t == "" then [""]
    else if t[0] == '.' then [""] + SplitDots(t[1..])
    else var r := SplitDots(t[1..]); [[t[0]] + r[0]] + r[1..]
  }

  predicate AllParts(parts: seq<string>) { forall k :: 0 <= k < |parts| ==> IsPart(parts[k]) }

  predicate ValidFormat(t: string) {
    var parts := SplitDots(t);
    |parts| == 3 && AllParts(parts)
  }

  method IsValidTokenFormat(token: string) returns (ok: bool)
    ensures ok <==> ValidFormat(token)
  {
    var parts := SplitDots(token);
    if |parts| != 3 { return false; }
    for i := 0 to |parts|
      invariant forall k :: 0 <= k < i ==> IsPart(parts[k])
    {
      if !IsPart(parts[i]) { return false; }
    }
    return true;
  }

  lemma {:induction false} SplitDotsPart(p: string, rest: string)
    requires '.' !in p
    ensures SplitDots(p + "." + rest) == [p] + SplitDots(rest)
    ensures SplitDots(p) == [p]
  {
    if p == "" {
      assert (p + "." + rest)[1..] == rest;
    } else {
      SplitDotsPart(p[1..], rest);
      assert (p + "." + rest)[1..] == p[1..] + "." + rest;
      assert p == [p[0]] + p[1..];
    }
  }

  lemma {:induction false} SplitDotsJoins(t: string) returns (rest: string)
    ensures |SplitDots(t)| == 1 ==> SplitDots(t)[0] == t
    ensures |SplitDots(t)| > 1 ==> t == SplitDots(t)[0] + ("." + rest) && SplitDots(rest) == SplitDots(t)[1..]
  {
    if t == "" {
      rest := "";
    } else if t[0] == '.' {
      rest := t[1..];
    } else {
      rest := SplitDotsJoins(t[1..]);
      var r := SplitDots(t[1..]);
      assert t == [t[0]] + t[1..];
      if |r| > 1 {
        assert t == ([t[0]] + r[0]) + ("." + rest);
      }
    }
  }

  const UPPER := "ABCDEFGHIJKLMNOPQRSTUVWXYZ"
  const LOWER := "abcdefghijklmnopqrstuvwxyz"
  const DIGITS := "0123456789"

  /** The characters of section 5 of RFC 4648, one by one. */
  ghost predicate InAlphabet(c: char) { c in UPPER || c in LOWER || c in DIGITS || c == '-' || c == '_' }

  ghost predicate Encoded(p: string) { p != "" && forall k :: 0 <= k < |p| ==> InAlphabet(p[k]) }

  lemma UpperListed(c: char)
    ensures 'A' <= c <= 'Z' <==> c in UPPER
  {
    assert forall k :: 0 <= k < |UPPER| ==> 'A' <= UPPER[k] <= 'Z';
    if 'A' <= c <= 'Z' { assert UPPER[(c - 'A') as int] == c; }
  }

  lemma LowerListed(c: char)
    ensures 'a' <= c <= 'z' <==> c in LOWER
  {
    assert forall k :: 0 <= k < |LOWER| ==> 'a' <= LOWER[k] <= 'z';
    if 'a' <= c <= 'z' { assert LOWER[(c - 'a') as int] == c; }
  }

  lemma DigitsListed(c: char)
    ensures '0' <= c <= '9' <==> c in DIGITS
  {
    assert forall k :: 0 <= k < |DIGITS| ==> '0' <= DIGITS[k] <= '9';
    if '0' <= c <= '9' { assert DIGITS[(c - '0') as int] == c; }
  }

  lemma PartIsEncoded(p: string)
    ensures IsPart(p) <==> Encoded(p)
  {
    forall k | 0 <= k < |p| ensures IsBase64Url(p[k]) <==> InAlphabet(p[k]) {
      UpperListed(p[k]);
      LowerListed(p[k]);
      DigitsListed(p[k]);
    }
  }

  /** The accepted shape is the compact serialization: three non-empty base64url parts with dots between. */
  lemma ValidFormatIsCompact(t: string)
    ensures ValidFormat(t) <==>
            exists h, p, s :: Encoded(h) && Encoded(p) && Encoded(s) && t == h + "." + (p + "." + s)
  {
    forall p ensures IsPart(p) <==> Encoded(p) { PartIsEncoded(p); }
    ThreeParts(t);
  }

  lemma ThreeParts(t: string)
    ensures ValidFormat(t) <==>
            exists h, p, s :: IsPart(h) && IsPart(p) && IsPart(s) && t == h + "." + (p + "." + s)
  {
    if ValidFormat(t) {
      var parts := SplitDots(t);
      assert IsPart(parts[0]) && IsPart(parts[1]) && IsPart(parts[2]);
      var rest := SplitDotsJoins(t);
      var last := SplitDotsJoins(rest);
      var _ := SplitDotsJoins(last);
      assert rest == parts[1] + ("." + parts[2]);
      assert t == parts[0] + "." + (parts[1] + "." + parts[2]);
    }
    if h, p, s :| IsPart(h) && IsPart(p) && IsPart(s) && t == h + "." + (p + "." + s) {
      PartHasNoDot(h); PartHasNoDot(p); PartHasNoDot(s);
      SplitDotsPart(h, p + "." + s);
      SplitDotsPart(p, s);
      SplitDotsPart(s, "");
      assert SplitDots(t) == [h, p, s];
    }
  }

  lemma PartHasNoDot(p: string)
    requires IsPart(p)
    ensures '.' !in p
  {}

  // ---- Verification ----

  predicate Verifies(sig: Signature, t: string, now: int) {
    sig(t).Some? &&
    (sig(t).value.exp.Some? ==> now < sig(t).value.exp.value) &&
    (sig(t).value.nbf.Some? ==> sig(t).value.nbf.value <= now)
  }

  /** What `validateToken` asks of a token that is not in the invalidated set, up to the user lookup. */
  predicate Acceptable(sig: Signature, t: string, now: int) {
    t != "" && ValidFormat(t) && Verifies(sig, t, now) && sig(t).value.sub.Some?
  }

  /** Not acceptable yet, but it will be: a not-before claim that lies ahead and within the token's life. */
  predicate WakesLater(sig: Signature, t: string, now: int) {
    t != "" && ValidFormat(t) && sig(t).Some? &&
    var c := sig(t).value;
    c.sub.Some? && c.nbf.Some? && now < c.nbf.value && (c.exp.Some? ==> c.nbf.value < c.exp.value)
  }

  ghost predicate NeverAgain(sig: Signature, t: string, now: int) {
    forall later :: now <= later ==> !Acceptable(sig, t, later)
  }

  /** A token is unacceptable for good exactly when it is unacceptable now and will not wake. */
  lemma NeverAgainExactly(sig: Signature, t: string, now: int)
    ensures NeverAgain(sig, t, now) <==> !Acceptable(sig, t, now) && !WakesLater(sig, t, now)
  {
    if WakesLater(sig, t, now) { assert Acceptable(sig, t, sig(t).value.nbf.value); }
  }

  // ---- The server and its runs ----

  /** `pending` holds validations whose user lookup has not come back; `answers` what was replied, in order. */
  datatype Server = Server(now: int, revoked: set<string>, users: map<UserId, bool>,
                           pending: seq<Option<UserId>>, answers: seq<bool>)

  datatype Action =
    | SignIn(user: UserId)
    | Register(user: UserId)
    | Logout(token: string)
    | StartValidation(token: string)
    | FinishValidation(request: nat)
    | Cleanup
    | Tick(seconds: nat)
    | SetActive(user: UserId, active: bool)

  /** The synchronous part of `validateToken`: the user to look up, or nothing. */
  function Check(sig: Signature, s: Server, t: string): Option<UserId> {
    if t !in s.revoked && Acceptable(sig, t, s.now) then sig(t).value.sub else None
  }

  function Pruned(sig: Signature, revoked: set<string>, now: int): set<string> {
    set t | t in revoked && ValidFormat(t) && Verifies(sig, t, now)
  }

  /** `invalidateToken`: an unknown token is added and the set pruned; a known one changes nothing. */
  function Invalidated(sig: Signature, revoked: set<string>, t: string, now: int, prune: bool): set<string> {
    if t == "" || t in revoked then revoked
    else if prune then Pruned(sig, revoked + {t}, now)
    else revoked + {t}
  }

  predicate IsActive(users: map<UserId, bool>, user: Option<UserId>) {
    user.Some? && user.value in users && users[user.value]
  }

  /** With `prune` off, the server that never forgets a logout. */
  function Step(sig: Signature, s: Server, a: Action, prune: bool): Server {
    match a
    case SignIn(_) => s
    case Register(u) => if u in s.users then s else s.(users := s.users[u := true])
    case Logout(t) => s.(revoked := Invalidated(sig, s.revoked, t, s.now, prune))
    case StartValidation(t) => s.(pending := s.pending + [Check(sig, s, t)])
    case FinishValidation(k) =>
      if k < |s.pending| then s.(answers := s.answers + [IsActive(s.users, s.pending[k])]) else s
    case Cleanup => if prune then s.(revoked := Pruned(sig, s.revoked, s.now)) else s
    case Tick(d) => s.(now := s.now + d)
    case SetActive(u, b) => if u in s.users then s.(users := s.users[u := b]) else s
  }

  function Run(sig: Signature, s: Server, acts: seq<Action>, prune: bool): Server {
    if acts == [] then s
    else Step(sig, Run(sig, s, acts[..|acts| - 1], prune), acts[|acts| - 1], prune)
  }

  /** What `generateToken` signs: the user, an hour's life and no not-before claim. */
  function Issue(user: UserId, now: int): Claims { Claims(Some(user), Some(now + 3600), None) }

  // ---- The service, in place ----

  class AuthService {
    var invalidatedTokens: set<string>

    constructor ()
      ensures invalidatedTokens == {}
    {
      invalidatedTokens := {};
    }

    /** Visits each token once, deleting while it goes. */
    method CleanupInvalidatedTokens(sig: Signature, now: int)
      modifies this
      ensures invalidatedTokens == Pruned(sig, old(invalidatedTokens), now)
      ensures forall t :: t in invalidatedTokens <==>
                t in old(invalidatedTokens) && ValidFormat(t) && Verifies(sig, t, now)
    {
      var todo := invalidatedTokens;
      while todo != {}
        invariant todo <= old(invalidatedTokens)
        invariant invalidatedTokens == todo + Pruned(sig, old(invalidatedTokens) - todo, now)
        decreases |todo|
      {
        var token :| token in todo;
        todo := todo - {token};
        if ValidFormat(token) {
          if !Verifies(sig, token, now) {
            invalidatedTokens := invalidatedTokens - {token};
          }
        } else {
          invalidatedTokens := invalidatedTokens - {token};
        }
      }
      assert old(invalidatedTokens) - todo == old(invalidatedTokens);
    }

    method InvalidateToken(sig: Signature, token: string, now: int) returns (ok: bool)
      modifies this
      ensures ok <==> token != ""
      ensures invalidatedTokens == Invalidated(sig, old(invalidatedTokens), token, now, true)
      ensures token == "" || token in old(invalidatedTokens) ==> invalidatedTokens == old(invalidatedTokens)
      ensures token != "" && token !in old(invalidatedTokens) ==>
                forall t :: t in invalidatedTokens <==>
                  (t in old(invalidatedTokens) || t == token) && ValidFormat(t) && Verifies(sig, t, now)
    {
      if token == "" { return false; }
      if token in invalidatedTokens { return true; }
      invalidatedTokens := invalidatedTokens + {token};
      CleanupInvalidatedTokens(sig, now);
      return true;
    }

    /** `users` is what the lookup finds when it comes back. */
    method ValidateToken(sig: Signature, token: string, now: int, users: map<UserId, bool>)
      returns (user: Option<UserId>)
      ensures user.Some? <==>
              && token !in invalidatedTokens && ValidFormat(token) && sig(token).Some?
              && var c := sig(token).value;
                 && (c.exp.Some? ==> now < c.exp.value) && (c.nbf.Some? ==> c.nbf.value <= now)
                 && c.sub.Some? && c.sub.value in users && users[c.sub.value]
      ensures user.Some? ==> user == sig(token).value.sub
    {
      if token == "" { return None; }
      if token in invalidatedTokens { return None; }
      var ok := IsValidTokenFormat(token);
      if !ok { return None; }
      if !Verifies(sig, token, now) { return None; }
      var payload := sig(token).value;
      if payload.sub == None { return None; }
      if payload.sub.value !in users || !users[payload.sub.value] { return None; }
      return payload.sub;
    }
  }

  // ---- Users ----

  /** Whether a user is known and active, after the calls that write it: registering makes an unknown user active,
      and (de)activation is of known users. */
  function Activity(acts: seq<Action>, u: UserId, before: Option<bool>): Option<bool> {
    if acts == [] then before
    else
      var known := Activity(acts[..|acts| - 1], u, before);
      match acts[|acts| - 1]
      case Register(v) => if v == u && known == None then Some(true) else known
      case SetActive(v, active) => if v == u && known.Some? then Some(active) else known
      case _ => known
  }

  function Lookup(users: map<UserId, bool>, u: UserId): Option<bool> { if u in users then Some(users[u]) else None }

  lemma {:induction false} UsersAreLastWritten(sig: Signature, s: Server, acts: seq<Action>, prune: bool, u: UserId)
    ensures Lookup(Run(sig, s, acts, prune).users, u) == Activity(acts, u, Lookup(s.users, u))
  {
    if acts != [] { UsersAreLastWritten(sig, s, acts[..|acts| - 1], prune, u); }
  }

  /** A validation passes exactly when it found a user, and by the time the lookup comes back that user is known
      and was last made active. */
  lemma {:induction false} FinishedExactly(sig: Signature, s: Server, acts: seq<Action>, prune: bool, k: nat)
    requires k < |Run(sig, s, acts, prune).pending|
    ensures var t := Run(sig, s, acts, prune);
            Step(sig, t, FinishValidation(k), prune).answers ==
            t.answers + [t.pending[k].Some? &&
                         Activity(acts, t.pending[k].value, Lookup(s.users, t.pending[k].value)) == Some(true)]
  {
    var t := Run(sig, s, acts, prune);
    if t.pending[k].Some? { UsersAreLastWritten(sig, s, acts, prune, t.pending[k].value); }
  }

  lemma {:induction false} StaysInactive(acts: seq<Action>, u: UserId)
    requires SetActive(u, true) !in acts
    ensures Activity(acts, u, Some(false)) == Some(false)
  {
    if acts != [] {
      assert acts[|acts| - 1] in acts;
      StaysInactive(acts[..|acts| - 1], u);
    }
  }

  /** After a known user is deactivated and until the user is activated again, every validation for that user fails,
      whatever happens in between and whenever it was started. */
  lemma {:induction false} DeactivatedRefused(
    sig: Signature, s: Server, u: UserId, acts: seq<Action>, prune: bool, k: nat)
    requires u in s.users && SetActive(u, true) !in acts
    requires var t := Run(sig, Step(sig, s, SetActive(u, false), prune), acts, prune);
             k < |t.pending| && t.pending[k] == Some(u)
    ensures var t := Run(sig, Step(sig, s, SetActive(u, false), prune), acts, prune);
            Step(sig, t, FinishValidation(k), prune).answers == t.answers + [false]
  {
    FinishedExactly(sig, Step(sig, s, SetActive(u, false), prune), acts, prune, k);
    StaysInactive(acts, u);
  }

  /** Starting a validation notes the user to look up: the subject of a token that is not invalidated, is well formed,
      and is within its life at that time. */
  lemma CheckedExactly(sig: Signature, s: Server, t: string, u: UserId)
    ensures Step(sig, s, StartValidation(t), true).pending == s.pending + [Check(sig, s, t)]
    ensures Check(sig, s, t) == Some(u) <==>
            && t !in s.revoked && ValidFormat(t) && sig(t).Some?
            && var c := sig(t).value;
               && c.sub == Some(u) && (c.exp.Some? ==> s.now < c.exp.value) && (c.nbf.Some? ==> c.nbf.value <= s.now)
  {
    assert SplitDots("") == [""];
  }

  /** A token the service issued verifies from then on for an hour, to the second. */
  lemma IssuedForAnHour(sig: Signature, t: string, user: UserId, issued: int, now: int)
    requires sig(t) == Some(Issue(user, issued))
    ensures Verifies(sig, t, now) <==> now < issued + 60 * 60
    ensures sig(t).value.sub == Some(user) && sig(t).value.nbf == None
  {}

  // ---- Pruning cannot be observed ----

  /** The pruned server and the one that never forgets agree on all but dead tokens. */
  ghost predicate Agrees(sig: Signature, s: Server, r: Server) {
    && s == r.(revoked := s.revoked) && s.revoked <= r.revoked
    && (forall t :: t in r.revoked && t !in s.revoked ==> NeverAgain(sig, t, s.now))
    && (forall t :: t in r.revoked ==> !WakesLater(sig, t, s.now))
  }

  lemma PruneAgrees(sig: Signature, s: Server, r: Server)
    requires Agrees(sig, s, r)
    ensures Agrees(sig, s.(revoked := Pruned(sig, s.revoked, s.now)), r)
  {
    var s' := s.(revoked := Pruned(sig, s.revoked, s.now));
    forall t | t in r.revoked && t !in s'.revoked ensures NeverAgain(sig, t, s.now) {
      NeverAgainExactly(sig, t, s.now);
    }
  }

  lemma AddAgrees(sig: Signature, s: Server, r: Server, t: string)
    requires Agrees(sig, s, r) && !WakesLater(sig, t, s.now)
    ensures Agrees(sig, s.(revoked := s.revoked + {t}), r.(revoked := r.revoked + {t}))
  {}

  lemma StepAgrees(sig: Signature, s: Server, r: Server, a: Action)
    requires Agrees(sig, s, r)
    requires a.Logout? ==> !WakesLater(sig, a.token, s.now)
    ensures Agrees(sig, Step(sig, s, a, true), Step(sig, r, a, false))
  {
    match a
    case Logout(t) =>
      if t != "" && t !in s.revoked {
        AddAgrees(sig, s, r, t);
        PruneAgrees(sig, s.(revoked := s.revoked + {t}), r.(revoked := r.revoked + {t}));
        if t in r.revoked { assert r.revoked + {t} == r.revoked; }
      }
    case Cleanup => PruneAgrees(sig, s, r);
    case StartValidation(t) => assert Check(sig, s, t) == Check(sig, r, t);
    case _ =>
  }

  /** No logout in the run is of a token whose not-before claim still lies ahead. */
  ghost predicate LogoutsSettled(sig: Signature, s: Server, acts: seq<Action>) {
    acts == [] ||
    (LogoutsSettled(sig, s, acts[..|acts| - 1]) &&
     (acts[|acts| - 1].Logout? ==>
        !WakesLater(sig, acts[|acts| - 1].token, Run(sig, s, acts[..|acts| - 1], true).now)))
  }

  lemma {:induction false} RunsAgree(sig: Signature, s: Server, acts: seq<Action>)
    requires s.revoked == {} && LogoutsSettled(sig, s, acts)
    ensures Agrees(sig, Run(sig, s, acts, true), Run(sig, s, acts, false))
  {
    if acts != [] {
      var front := acts[..|acts| - 1];
      RunsAgree(sig, s, front);
      StepAgrees(sig, Run(sig, s, front, true), Run(sig, s, front, false), acts[|acts| - 1]);
    }
  }

  /** Over every run, the pruned server replies exactly what a server that never forgets replies. */
  lemma {:induction false} PruningUnobservable(sig: Signature, s: Server, acts: seq<Action>)
    requires s.revoked == {} && LogoutsSettled(sig, s, acts)
    ensures Run(sig, s, acts, true).answers == Run(sig, s, acts, false).answers
    ensures Run(sig, s, acts, true).pending == Run(sig, s, acts, false).pending
  {
    RunsAgree(sig, s, acts);
  }

  /** Only tokens from `menu` are ever logged out. */
  ghost predicate LogoutsFrom(menu: iset<string>, acts: seq<Action>) {
    forall a :: a in acts && a.Logout? ==> a.token in menu
  }

  lemma {:induction false} SettledForGood(sig: Signature, menu: iset<string>, s: Server, acts: seq<Action>)
    requires LogoutsFrom(menu, acts) && forall t :: t in menu ==> !WakesLater(sig, t, s.now)
    ensures Run(sig, s, acts, true).now >= s.now && LogoutsSettled(sig, s, acts)
  {
    if acts != [] {
      var front, last := acts[..|acts| - 1], acts[|acts| - 1];
      assert last in acts && forall a :: a in front ==> a in acts;
      SettledForGood(sig, menu, s, front);
      assert last.Logout? ==> !WakesLater(sig, last.token, s.now);
    }
  }

  lemma {:induction false} RunThen(sig: Signature, s: Server, acts: seq<Action>, a: Action, prune: bool)
    ensures Run(sig, s, acts + [a], prune) == Step(sig, Run(sig, s, acts, prune), a, prune)
  {
    assert (acts + [a])[..|acts|] == acts;
  }

  /** Log a sleeping token out, make its user active, and wait for the token to wake. */
  function WakeUp(t: string, user: UserId, wait: nat): seq<Action> {
    [Logout(t)] + [Register(user)] + [SetActive(user, true)] + [Tick(wait)]
  }

  lemma {:induction false} AfterWakeUp(sig: Signature, s: Server, t: string, user: UserId, wait: nat, prune: bool)
    ensures var w := Run(sig, s, WakeUp(t, user, wait), prune);
            && w.now == s.now + wait && w.revoked == Invalidated(sig, s.revoked, t, s.now, prune)
            && IsActive(w.users, Some(user)) && w.pending == s.pending && w.answers == s.answers
  {
    var one, two := [Logout(t)], [Logout(t)] + [Register(user)];
    RunThen(sig, s, [], Logout(t), prune);
    assert [] + one == one;
    RunThen(sig, s, one, Register(user), prune);
    RunThen(sig, s, two, SetActive(user, true), prune);
    RunThen(sig, s, two + [SetActive(user, true)], Tick(wait), prune);
  }

  lemma {:induction false} AskThen(sig: Signature, s: Server, acts: seq<Action>, t: string, prune: bool)
    ensures var w := Run(sig, s, acts, prune);
            Run(sig, s, acts + [StartValidation(t)] + [FinishValidation(|w.pending|)], prune).answers ==
            w.answers + [IsActive(w.users, Check(sig, w, t))]
  {
    var w := Run(sig, s, acts, prune);
    RunThen(sig, s, acts, StartValidation(t), prune);
    RunThen(sig, s, acts + [StartValidation(t)], FinishValidation(|w.pending|), prune);
  }

  /** On this run the pruned server replies what the one that never forgets replies. */
  ghost predicate Unobserved(sig: Signature, s: Server, acts: seq<Action>) {
    Run(sig, s, acts, true).answers == Run(sig, s, acts, false).answers
  }

  lemma {:induction false} WakeUpObserved(sig: Signature, s: Server, t: string) returns (acts: seq<Action>)
    requires s.revoked == {} && WakesLater(sig, t, s.now)
    ensures LogoutsFrom(iset{t}, acts) && !Unobserved(sig, s, acts)
  {
    var user, wait := sig(t).value.sub.value, sig(t).value.nbf.value - s.now;
    var waking := WakeUp(t, user, wait);
    acts := waking + [StartValidation(t)] + [FinishValidation(|s.pending|)];
    AfterWakeUp(sig, s, t, user, wait, true);
    AfterWakeUp(sig, s, t, user, wait, false);
    AskThen(sig, s, waking, t, true);
    AskThen(sig, s, waking, t, false);
    assert Check(sig, Run(sig, s, waking, true), t) == Some(user);
    assert Check(sig, Run(sig, s, waking, false), t) == None;
    assert (s.answers + [true])[|s.answers|] != (s.answers + [false])[|s.answers|];
  }

  /** For every set of tokens: on no run that logs out only those can pruning be observed, if and only if none of them
      has a not-before claim that still lies ahead. Only such a token is dropped before it is dead. */
  lemma {:induction false} PruningUnobservableExactly(sig: Signature, menu: iset<string>, s: Server)
    requires s.revoked == {}
    ensures (forall acts :: LogoutsFrom(menu, acts) ==> Unobserved(sig, s, acts))
       <==> (forall t :: t in menu ==> !WakesLater(sig, t, s.now))
  {
    if t :| t in menu && WakesLater(sig, t, s.now) {
      var acts := WakeUpObserved(sig, s, t);
    } else {
      forall acts | LogoutsFrom(menu, acts) ensures Unobserved(sig, s, acts) {
        SettledForGood(sig, menu, s, acts);
        PruningUnobservable(sig, s, acts);
      }
    }
  }

  // ---- Logged out means out ----

  lemma {:induction false} OutStaysOut(sig: Signature, s: Server, t: string, acts: seq<Action>)
    requires t in s.revoked || NeverAgain(sig, t, s.now)
    requires !WakesLater(sig, t, s.now)
    ensures var s' := Run(sig, s, acts, true);
            s'.now >= s.now && (t in s'.revoked || NeverAgain(sig, t, s'.now)) && !WakesLater(sig, t, s'.now)
  {
    if acts != [] {
      OutStaysOut(sig, s, t, acts[..|acts| - 1]);
      var m := Run(sig, s, acts[..|acts| - 1], true);
      NeverAgainExactly(sig, t, m.now);
    }
  }

  lemma CleanupThen(sig: Signature, s: Server, a: Action)
    ensures Run(sig, s, [Cleanup, a], true) == Step(sig, Step(sig, s, Cleanup, true), a, true)
  {
    var one := [Cleanup];
    assert one[..0] == [] && [Cleanup, a][..1] == one;
    assert Run(sig, s, one, true) == Step(sig, s, Cleanup, true);
  }

  /** After a logout, no later validation of the token passes, whatever happens in between,
      if and only if its not-before claim did not still lie ahead at the logout. */
  lemma {:induction false} LoggedOutStaysOutExactly(sig: Signature, s: Server, t: string)
    requires t != ""
    ensures var out := Step(sig, s, Logout(t), true);
            (forall acts :: Check(sig, Run(sig, out, acts, true), t) == None) <==> !WakesLater(sig, t, s.now)
  {
    var out := Step(sig, s, Logout(t), true);
    if !WakesLater(sig, t, s.now) {
      NeverAgainExactly(sig, t, s.now);
      forall acts ensures Check(sig, Run(sig, out, acts, true), t) == None {
        OutStaysOut(sig, out, t, acts);
      }
    } else {
      var c := sig(t).value;
      var wait := Tick(c.nbf.value - s.now);
      CleanupThen(sig, out, wait);
      var woken := Step(sig, Step(sig, out, Cleanup, true), wait, true);
      assert t !in woken.revoked && Acceptable(sig, t, woken.now);
      assert Check(sig, Run(sig, out, [Cleanup, wait], true), t) == c.sub;
    }
  }

  /** So a token the service itself issued never validates again once logged out. */
  lemma {:induction false} IssuedTokensStayOut(
    sig: Signature, s: Server, t: string, user: UserId, issued: int, acts: seq<Action>)
    requires t != "" && sig(t) == Some(Issue(user, issued))
    ensures Check(sig, Run(sig, Step(sig, s, Logout(t), true), acts, true), t) == None
  {
    LoggedOutStaysOutExactly(sig, s, t);
  }
}
