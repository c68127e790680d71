/** The dashboard's cached validation verdict, composed with the token server under interleaved requests.
    The dashboard's clock counts milliseconds; the server reads the same clock in seconds. */
module SessionCache {
  import opened Options
  import opened TokenServer

  const COOLDOWN := 10000

  /** The local-storage keys of the session. */
  datatype Storage = Storage(token: Option<string>, lastTime: Option<int>, result: Option<bool>)

  const EMPTY := Storage(None, None, None)

  /** How a call of `validateToken` begins: it clears, answers from the cache, or asks the server. */
  datatype Opening = Cleared | Cached(verdict: bool) | Ask(token: string, started: int)

  /** `exp` of the token body, read without checking the signature. */
  type Peek = string -> Option<int>

  predicate Expired(peek: Peek, t: string, now: int) {
    peek(t).Some? && peek(t).value != 0 && peek(t).value < now / 1000
  }

  predicate Fresh(store: Storage, now: int) {
    store.lastTime.Some? && now - store.lastTime.value < COOLDOWN
  }

  /** The part of `validateToken` before its await. */
  function Open(peek: Peek, store: Storage, now: int): Opening {
    if store.token == None || store.token.value == "" || Expired(peek, store.token.value, now) then Cleared
    else if Fresh(store, now) && store.result.Some? then Cached(store.result.value)
    else Ask(store.token.value, now)
  }

  function AfterOpen(peek: Peek, store: Storage, now: int): Storage {
    if Open(peek, store, now) == Cleared then EMPTY else store
  }

  /** The part after a reply: the verdict is stored under the time the call started; a refusal clears. */
  function AfterReply(store: Storage, started: int, valid: bool): Storage {
    if valid then store.(lastTime := Some(started), result := Some(true)) else EMPTY
  }

  // ---- The dashboard service, in place ----

  class AuthService {
    var token: Option<string>
    var lastTime: Option<int>
    var result: Option<bool>

    constructor ()
      ensures View() == EMPTY
    {
      token, lastTime, result := None, None, None;
    }

    ghost function View(): Storage reads this { Storage(token, lastTime, result) }

    method SetAuth(t: string)
      modifies this
      ensures View() == old(View()).(token := Some(t))
      ensures token == Some(t) && lastTime == old(lastTime) && result == old(result)
    {
      token := Some(t);
    }

    method ClearAuth()
      modifies this
      ensures View() == EMPTY
      ensures token == None && lastTime == None && result == None
    {
      token := None;
      lastTime := None;
      result := None;
    }

    method BeginValidation(peek: Peek, now: int) returns (opening: Opening)
      modifies this
      ensures opening == Open(peek, old(View()), now)
      ensures View() == AfterOpen(peek, old(View()), now)
      // It clears exactly without a token, or when the token's exp, read in seconds, is past.
      ensures opening == Cleared <==>
              || old(token) == None || old(token).value == ""
              || (var exp := peek(old(token).value); exp.Some? && exp.value != 0 && exp.value < now / 1000)
      ensures if opening == Cleared then token == None && lastTime == None && result == None
              else token == old(token) && lastTime == old(lastTime) && result == old(result)
      // Otherwise it answers with a verdict stored less than ten seconds ago, or asks about the token.
      ensures opening.Cached? <==>
              opening != Cleared && result.Some? && lastTime.Some? && now - lastTime.value < 10000
      ensures opening.Cached? ==> Some(opening.verdict) == result
      ensures opening.Ask? ==> Some(opening.token) == token && opening.started == now
    {
      if token == None || token.value == "" || Expired(peek, token.value, now) {
        ClearAuth();
        return Cleared;
      }
      if lastTime.Some? && now - lastTime.value < COOLDOWN {
        if result == Some(true) { return Cached(true); }
        if result == Some(false) { return Cached(false); }
      }
      return Ask(token.value, now);
    }

    method CompleteValidation(started: int, isValid: bool) returns (answer: bool)
      modifies this
      ensures answer == isValid
      ensures View() == AfterReply(old(View()), started, isValid)
      ensures if isValid then token == old(token) && lastTime == Some(started) && result == Some(true)
              else token == None && lastTime == None && result == None
    {
      lastTime := Some(started);
      result := Some(isValid);
      if !isValid {
        ClearAuth();
        return false;
      }
      return true;
    }
  }

  // ---- Dashboard and server together ----

  datatype Phase =
    | Sent
    | Checked(at: int, user: Option<UserId>)               // the server has looked at token and set
    | Replied(at: int, user: Option<UserId>, valid: bool)  // the user lookup has come back
    | Closed(at: int, user: Option<UserId>, valid: bool)   // the dashboard has stored the verdict
    | Lost                                                 // network error: the call answers true, nothing stored

  datatype Request = Request(token: string, started: int, phase: Phase)

  datatype System = System(clock: nat, server: Server, store: Storage, requests: seq<Request>)

  datatype Event =
    | Pass(ms: nat)
    | Validate
    | ServerChecks(request: nat)
    | ServerReplies(request: nat)
    | Receive(request: nat)
    | Lose(request: nat)
    | SignedIn(token: string)
    | SignedOut
    | AtServer(action: Action)

  function Next(sig: Signature, peek: Peek, s: System, e: Event): System {
    match e
    case Pass(ms) => s.(clock := s.clock + ms, server := s.server.(now := (s.clock + ms) / 1000))
    case Validate =>
      var store := AfterOpen(peek, s.store, s.clock);
      (match Open(peek, s.store, s.clock)
       case Ask(t, n) => s.(store := store, requests := s.requests + [Request(t, n, Sent)])
       case _ => s.(store := store))
    case ServerChecks(k) =>
      if k < |s.requests| && s.requests[k].phase.Sent? then
        s.(requests := s.requests[k := s.requests[k].(
             phase := Checked(s.clock, Check(sig, s.server, s.requests[k].token)))])
      else s
    case ServerReplies(k) =>
      if k < |s.requests| && s.requests[k].phase.Checked? then
        var p := s.requests[k].phase;
        var active := IsActive(s.server.users, p.user);
        s.(requests := s.requests[k := s.requests[k].(phase := Replied(p.at, p.user, active))])
      else s
    case Receive(k) =>
      if k < |s.requests| && s.requests[k].phase.Replied? then
        var p := s.requests[k].phase;
        s.(store := AfterReply(s.store, s.requests[k].started, p.valid),
           requests := s.requests[k := s.requests[k].(phase := Closed(p.at, p.user, p.valid))])
      else s
    case Lose(k) =>
      if k < |s.requests| && !s.requests[k].phase.Closed? then
        s.(requests := s.requests[k := s.requests[k].(phase := Lost)])
      else s
    case SignedIn(t) => s.(store := s.store.(token := Some(t)))
    case SignedOut => s.(store := EMPTY)
    case AtServer(a) => if a.Tick? then s else s.(server := Step(sig, s.server, a, true))
  }

  function Play(sig: Signature, peek: Peek, s: System, es: seq<Event>): System {
    if es == [] then s else Next(sig, peek, Play(sig, peek, s, es[..|es| - 1]), es[|es| - 1])
  }

  function Boot(users: map<UserId, bool>): System {
    System(0, Server(0, {}, users, [], []), EMPTY, [])
  }

  // ---- What every interleaving keeps ----

  ghost predicate LookedAt(r: Request) { r.phase.Checked? || r.phase.Replied? || r.phase.Closed? }

  /** The check happened between the start of the call and now, and a passing verdict had a passing check. */
  ghost predicate RequestOk(s: System, k: int) {
    0 <= k < |s.requests| ==>
      var r := s.requests[k];
      && r.started <= s.clock
      && (LookedAt(r) ==> r.started <= r.phase.at <= s.clock)
      && ((r.phase.Replied? || r.phase.Closed?) && r.phase.valid ==> r.phase.user.Some?)
  }

  /** Request `k` is one whose stored verdict the cache holds. */
  ghost predicate Source(s: System, k: int) {
    0 <= k < |s.requests| && s.requests[k].phase.Closed? && s.requests[k].phase.valid &&
    s.store.lastTime == Some(s.requests[k].started)
  }

  ghost predicate StoreOk(s: System) {
    s.store.result != Some(false) && (s.store.result.Some? ==> exists k :: Source(s, k))
  }

  ghost predicate Inv(s: System) {
    (forall k :: RequestOk(s, k)) && StoreOk(s)
  }

  lemma NextKeepsRequests(sig: Signature, peek: Peek, s: System, e: Event, k: int)
    requires Inv(s)
    ensures RequestOk(Next(sig, peek, s, e), k)
  {
    assert RequestOk(s, k);
  }

  lemma NextKeepsStore(sig: Signature, peek: Peek, s: System, e: Event)
    requires Inv(s)
    ensures StoreOk(Next(sig, peek, s, e))
  {
    var s' := Next(sig, peek, s, e);
    if s'.store.result.Some? {
      if e.Receive? && s' != s && s.requests[e.request].phase.valid {
        assert Source(s', e.request);
      } else {
        var k :| Source(s, k);
        assert Source(s', k);
      }
    }
  }

  lemma {:induction false} PlayKeeps(sig: Signature, peek: Peek, users: map<UserId, bool>, es: seq<Event>)
    ensures Inv(Play(sig, peek, Boot(users), es))
  {
    if es != [] {
      var front := es[..|es| - 1];
      PlayKeeps(sig, peek, users, front);
      var s := Play(sig, peek, Boot(users), front);
      forall k ensures RequestOk(Play(sig, peek, Boot(users), es), k) {
        NextKeepsRequests(sig, peek, s, es[|es| - 1], k);
      }
      NextKeepsStore(sig, peek, s, es[|es| - 1]);
    }
  }

  /** Under every interleaving, "false" is never left in storage: a cached answer is always true. */
  lemma {:induction false} CachedAnswerIsTrue(sig: Signature, peek: Peek, users: map<UserId, bool>, es: seq<Event>)
    ensures var s := Play(sig, peek, Boot(users), es);
            s.store.result != Some(false) && Open(peek, s.store, s.clock) != Cached(false)
  {
    PlayKeeps(sig, peek, users, es);
  }

  /** Under every interleaving, a `true` served from the cache means that less than ten seconds ago
      the server looked at a token, found it good, and its user active. */
  lemma {:induction false} CachedTrueIsFresh(sig: Signature, peek: Peek, users: map<UserId, bool>, es: seq<Event>)
    requires var s := Play(sig, peek, Boot(users), es); Open(peek, s.store, s.clock).Cached?
    ensures var s := Play(sig, peek, Boot(users), es);
            exists k :: Source(s, k) && s.requests[k].phase.user.Some? &&
                        s.clock - 10000 < s.requests[k].phase.at <= s.clock
  {
    PlayKeeps(sig, peek, users, es);
    var s := Play(sig, peek, Boot(users), es);
    var k :| Source(s, k);
    assert RequestOk(s, k);
  }

  // ---- The two clocks ----

  /** On every run: when a call signs the user out over a token, that token is dead at the server too, so that no
      session ends early. `exp` is what both read from the token. */
  lemma {:induction false} ClearedOnlyWhenDead(
    sig: Signature, peek: Peek, users: map<UserId, bool>, es: seq<Event>, t: string)
    requires t != "" && sig(t).Some? && peek(t) == sig(t).value.exp
    requires var s := Play(sig, peek, Boot(users), es);
             s.store.token == Some(t) && Next(sig, peek, s, Validate).store.token == None
    ensures var s := Play(sig, peek, Boot(users), es);
            !Verifies(sig, t, s.clock / 1000) && Check(sig, s.server, t) == None
  {
    PlayKeepsClock(sig, peek, users, es);
  }

  /** On every run: a call that finds its token a second or more past its expiry signs the user out,
      whatever verdict is stored, and asks nobody. */
  lemma {:induction false} ExpiredIsCleared(
    sig: Signature, peek: Peek, users: map<UserId, bool>, es: seq<Event>, t: string, exp: int)
    requires peek(t) == Some(exp) && exp != 0
    requires var s := Play(sig, peek, Boot(users), es); s.store.token == Some(t) && exp < s.clock / 1000
    ensures var s := Play(sig, peek, Boot(users), es);
            var s' := Next(sig, peek, s, Validate);
            && s'.store.token == None && s'.store.lastTime == None && s'.store.result == None
            && s'.requests == s.requests
  {}

  // ---- What each step does ----

  /** A call that neither clears nor answers from the cache sends one request, for the stored token, now. */
  lemma AsksServer(sig: Signature, peek: Peek, s: System, t: string)
    requires s.store.token == Some(t) && t != "" && (peek(t).Some? ==> s.clock / 1000 <= peek(t).value)
    requires s.store.result == None || s.store.lastTime == None || s.clock >= s.store.lastTime.value + 10000
    ensures Next(sig, peek, s, Validate) == s.(requests := s.requests + [Request(t, s.clock, Sent)])
  {}

  /** The server looks at token and set at one time, and at the user at another; a verdict passes exactly when the user
      found first is known and active at the second. */
  lemma ServerAnswers(sig: Signature, peek: Peek, s: System, k: nat)
    requires k < |s.requests|
    ensures var r, r' := s.requests[k], Next(sig, peek, s, ServerChecks(k)).requests[k];
            r.phase == Sent ==> r' == Request(r.token, r.started, Checked(s.clock, Check(sig, s.server, r.token)))
    ensures var r, r' := s.requests[k], Next(sig, peek, s, ServerReplies(k)).requests[k];
            r.phase.Checked? ==>
              && r'.phase.Replied? && r'.phase.at == r.phase.at && r'.phase.user == r.phase.user
              && (r'.phase.valid <==>
                    r.phase.user.Some? && r.phase.user.value in s.server.users && s.server.users[r.phase.user.value])
  {}

  /** A passing reply is stored under the start of its call beside whatever token is stored by then; a refusal, like
      signing out, leaves nothing stored; a lost reply changes nothing stored. */
  lemma ReplyStored(sig: Signature, peek: Peek, s: System, k: nat)
    requires k < |s.requests|
    ensures s.requests[k].phase.Replied? && s.requests[k].phase.valid ==>
              Next(sig, peek, s, Receive(k)).store == Storage(s.store.token, Some(s.requests[k].started), Some(true))
    ensures s.requests[k].phase.Replied? && !s.requests[k].phase.valid ==>
              Next(sig, peek, s, Receive(k)).store == Storage(None, None, None)
    ensures Next(sig, peek, s, SignedOut).store == Storage(None, None, None)
    ensures Next(sig, peek, s, Lose(k)).store == s.store
  {}

  // ---- Revocation reaches the dashboard ----

  /** After `t` is logged out at time `at`: it stays out at the server, and passing checks of it are older. */
  ghost predicate RevokedSince(sig: Signature, s: System, t: string, at: int) {
    && at <= s.clock && s.server.now == s.clock / 1000
    && (t in s.server.revoked || NeverAgain(sig, t, s.server.now)) && !WakesLater(sig, t, s.server.now)
    && forall k :: CheckBefore(s, t, at, k)
  }

  ghost predicate CheckBefore(s: System, t: string, at: int, k: int) {
    0 <= k < |s.requests| && s.requests[k].token == t && LookedAt(s.requests[k]) && s.requests[k].phase.user.Some? ==>
      s.requests[k].phase.at <= at
  }

  lemma NextKeepsRevoked(sig: Signature, peek: Peek, s: System, e: Event, t: string, at: int)
    requires RevokedSince(sig, s, t, at)
    ensures RevokedSince(sig, Next(sig, peek, s, e), t, at)
  {
    var s' := Next(sig, peek, s, e);
    assert !Acceptable(sig, t, s.server.now) || t in s.server.revoked;
    forall k ensures CheckBefore(s', t, at, k) { assert CheckBefore(s, t, at, k); }
    if e.AtServer? && !e.action.Tick? {
      NeverAgainExactly(sig, t, s.server.now);
    } else if e.Pass? {
      NeverAgainExactly(sig, t, s.server.now);
      NeverAgainExactly(sig, t, s'.server.now);
      assert s'.server.now >= s.server.now;
    }
  }

  lemma {:induction false} PlayKeepsRevoked(sig: Signature, peek: Peek, s: System, es: seq<Event>, t: string, at: int)
    requires RevokedSince(sig, s, t, at)
    ensures RevokedSince(sig, Play(sig, peek, s, es), t, at)
  {
    if es != [] {
      PlayKeepsRevoked(sig, peek, s, es[..|es| - 1], t, at);
      NextKeepsRevoked(sig, peek, Play(sig, peek, s, es[..|es| - 1]), es[|es| - 1], t, at);
    }
  }

  lemma {:induction false} PlayKeepsClock(sig: Signature, peek: Peek, users: map<UserId, bool>, es: seq<Event>)
    ensures var s := Play(sig, peek, Boot(users), es); s.server.now == s.clock / 1000
  {
    if es != [] { PlayKeepsClock(sig, peek, users, es[..|es| - 1]); }
  }

  lemma {:induction false} PlayConcat(sig: Signature, peek: Peek, s: System, es: seq<Event>, fs: seq<Event>)
    ensures Play(sig, peek, s, es + fs) == Play(sig, peek, Play(sig, peek, s, es), fs)
  {
    if fs == [] {
      assert es + fs == es;
    } else {
      PlayConcat(sig, peek, s, es, fs[..|fs| - 1]);
      assert (es + fs)[..|es + fs| - 1] == es + fs[..|fs| - 1];
    }
  }

  /** End to end: once a token is logged out at the server, under every interleaving before and after,
      a cached `true` that rests on a check of that token is served for less than ten seconds more. */
  lemma {:induction false} StaleVerdictEnds(sig: Signature, peek: Peek, users: map<UserId, bool>,
                         before: seq<Event>, t: string, after: seq<Event>)
    requires t != "" && !WakesLater(sig, t, Play(sig, peek, Boot(users), before).server.now)
    requires var s := Play(sig, peek, Boot(users), before + [AtServer(Logout(t))] + after);
             Open(peek, s.store, s.clock).Cached? && forall k :: Source(s, k) ==> s.requests[k].token == t
    ensures var s := Play(sig, peek, Boot(users), before + [AtServer(Logout(t))] + after);
            s.clock < Play(sig, peek, Boot(users), before).clock + COOLDOWN
  {
    var b := Play(sig, peek, Boot(users), before);
    var out := Next(sig, peek, b, AtServer(Logout(t)));
    PlayKeeps(sig, peek, users, before);
    PlayKeepsClock(sig, peek, users, before);
    assert Play(sig, peek, Boot(users), before + [AtServer(Logout(t))]) == out by {
      assert (before + [AtServer(Logout(t))])[..|before|] == before;
    }
    assert RevokedSince(sig, out, t, b.clock) by {
      NeverAgainExactly(sig, t, b.server.now);
      forall k ensures CheckBefore(out, t, b.clock, k) { assert RequestOk(b, k); }
    }
    PlayConcat(sig, peek, Boot(users), before + [AtServer(Logout(t))], after);
    PlayKeepsRevoked(sig, peek, out, after, t, b.clock);
    PlayKeeps(sig, peek, users, before + [AtServer(Logout(t))] + after);
    var s := Play(sig, peek, out, after);
    var k :| Source(s, k);
    assert RequestOk(s, k) && CheckBefore(s, t, b.clock, k);
  }

  /** Signing in with another token does not drop the stored verdict: the new one is answered from the old one's
      check, unless it is empty or past its expiry. */
  lemma {:induction false} VerdictOutlivesToken(sig: Signature, peek: Peek, s: System, t: string)
    requires Open(peek, s.store, s.clock) == Cached(true)
    ensures var s' := Next(sig, peek, s, SignedIn(t));
            Open(peek, s'.store, s'.clock) == Cached(true) <==> t != "" && !Expired(peek, t, s.clock)
  {}

  lemma {:induction false} PlayThen(sig: Signature, peek: Peek, s: System, es: seq<Event>, e: Event)
    ensures Play(sig, peek, s, es + [e]) == Next(sig, peek, Play(sig, peek, s, es), e)
  {
    assert (es + [e])[..|es|] == es;
  }

  // ---- With several tokens: when the bound holds ----

  /** The dashboard signs in only with tokens from `menu`. */
  ghost predicate FromTokens(menu: iset<string>, es: seq<Event>) {
    forall e :: e in es && e.SignedIn? ==> e.token in menu
  }

  /** After `before`, token `t` is logged out at the server, for good; ten seconds or more later the dashboard
      holds `t` and still answers from its cache. */
  ghost predicate Overstays(sig: Signature, peek: Peek, users: map<UserId, bool>,
                            before: seq<Event>, t: string, after: seq<Event>) {
    var out := Play(sig, peek, Boot(users), before);
    var s := Play(sig, peek, Boot(users), before + [AtServer(Logout(t))] + after);
    && t != "" && !WakesLater(sig, t, out.server.now) && s.clock >= out.clock + COOLDOWN
    && s.store.token == Some(t) && Open(peek, s.store, s.clock).Cached?
  }

  /** Two tokens and four times: `second` is logged out, `first` is asked about and checked, `second` is served. */
  datatype Swap = Swap(first: string, second: string, logout: nat, asked: nat, checked: nat, served: nat)

  /** Within ten seconds of asking, `first` is found good and `second` is served, not past its expiry and ten seconds
      or more after its logout. */
  ghost predicate CanSwap(sig: Signature, peek: Peek, menu: iset<string>, w: Swap) {
    && w.first in menu && w.second in menu && w.first != w.second && w.second != ""
    && w.logout + COOLDOWN <= w.served && w.asked <= w.checked <= w.served < w.asked + COOLDOWN
    && Acceptable(sig, w.first, w.checked / 1000) && !Expired(peek, w.first, w.asked)
    && !Expired(peek, w.second, w.served) && !WakesLater(sig, w.second, w.logout / 1000)
  }

  // ---- A run that overstays shows such a swap ----

  /** Request `k` asked about a token from `menu` that was not past its expiry, and a passing check was right. */
  ghost predicate RequestFrom(sig: Signature, peek: Peek, menu: iset<string>, s: System, k: int) {
    0 <= k < |s.requests| ==>
      var r := s.requests[k];
      && r.token in menu && r.started >= 0 && !Expired(peek, r.token, r.started)
      && (LookedAt(r) && r.phase.user.Some? ==> Acceptable(sig, r.token, r.phase.at / 1000))
  }

  ghost predicate CameFrom(sig: Signature, peek: Peek, menu: iset<string>, s: System) {
    && s.server.now == s.clock / 1000 && (s.store.token.Some? ==> s.store.token.value in menu)
    && forall k :: RequestFrom(sig, peek, menu, s, k)
  }

  lemma NextCameFrom(sig: Signature, peek: Peek, menu: iset<string>, s: System, e: Event)
    requires CameFrom(sig, peek, menu, s) && (e.SignedIn? ==> e.token in menu)
    ensures CameFrom(sig, peek, menu, Next(sig, peek, s, e))
  {
    forall k ensures RequestFrom(sig, peek, menu, Next(sig, peek, s, e), k) {
      assert RequestFrom(sig, peek, menu, s, k);
    }
  }

  lemma {:induction false} PlayCameFrom(
    sig: Signature, peek: Peek, menu: iset<string>, users: map<UserId, bool>, es: seq<Event>)
    requires FromTokens(menu, es)
    ensures CameFrom(sig, peek, menu, Play(sig, peek, Boot(users), es))
  {
    if es != [] {
      var front, e := es[..|es| - 1], es[|es| - 1];
      assert e in es && forall f :: f in front ==> f in es;
      PlayCameFrom(sig, peek, menu, users, front);
      NextCameFrom(sig, peek, menu, Play(sig, peek, Boot(users), front), e);
    }
  }

  /** The verdict in the cache then rests on another token's check. */
  lemma {:induction false} OtherSource(sig: Signature, peek: Peek, users: map<UserId, bool>,
                                       before: seq<Event>, t: string, after: seq<Event>) returns (k: nat)
    requires Overstays(sig, peek, users, before, t, after)
    ensures var s := Play(sig, peek, Boot(users), before + [AtServer(Logout(t))] + after);
            Source(s, k) && s.requests[k].token != t
  {
    var s := Play(sig, peek, Boot(users), before + [AtServer(Logout(t))] + after);
    if forall j :: Source(s, j) ==> s.requests[j].token == t {
      StaleVerdictEnds(sig, peek, users, before, t, after);
      assert false;
    } else {
      k :| Source(s, k) && s.requests[k].token != t;
    }
  }

  lemma {:induction false} OverstayShowsSwap(sig: Signature, peek: Peek, users: map<UserId, bool>, menu: iset<string>,
                                             before: seq<Event>, t: string, after: seq<Event>) returns (w: Swap)
    requires FromTokens(menu, before) && FromTokens(menu, after)
    requires Overstays(sig, peek, users, before, t, after)
    ensures CanSwap(sig, peek, menu, w)
  {
    var es := before + [AtServer(Logout(t))] + after;
    var out, s := Play(sig, peek, Boot(users), before), Play(sig, peek, Boot(users), es);
    var k := OtherSource(sig, peek, users, before, t, after);
    PlayKeeps(sig, peek, users, es);
    PlayKeepsClock(sig, peek, users, before);
    PlayCameFrom(sig, peek, menu, users, es);
    assert RequestOk(s, k) && RequestFrom(sig, peek, menu, s, k);
    var r := s.requests[k];
    w := Swap(r.token, t, out.clock, r.started, r.phase.at, s.clock);
  }

  // ---- Such a swap can be run ----

  /** A user is registered and active, and the clock stands at `u`. */
  lemma {:induction false} Prepared(sig: Signature, peek: Peek, users: map<UserId, bool>, user: UserId, u: nat)
    returns (es: seq<Event>, now: map<UserId, bool>)
    ensures FromTokens(iset{}, es) && IsActive(now, Some(user))
    ensures Play(sig, peek, Boot(users), es) == System(u, Server(u / 1000, {}, now, [], []), EMPTY, [])
  {
    var s0, e1 := Boot(users), [] + [AtServer(Register(user))];
    var e2 := e1 + [AtServer(SetActive(user, true))];
    PlayThen(sig, peek, s0, [], AtServer(Register(user)));
    PlayThen(sig, peek, s0, e1, AtServer(SetActive(user, true)));
    PlayThen(sig, peek, s0, e2, Pass(u));
    es := e2 + [Pass(u)];
    now := Play(sig, peek, s0, es).server.users;
  }

  /** The dashboard signs in with `a` at `x`, and asks. */
  lemma {:induction false} Asked(sig: Signature, peek: Peek, s: System, a: string, x: nat) returns (es: seq<Event>)
    requires s.store == EMPTY && s.requests == [] && s.clock <= x && a != "" && !Expired(peek, a, x)
    ensures FromTokens(iset{a}, es)
    ensures Play(sig, peek, s, es) ==
            System(x, s.server.(now := x / 1000), Storage(Some(a), None, None), [Request(a, x, Sent)])
  {
    var e1 := [] + [Pass(x - s.clock)];
    var s1 := s.(clock := x, server := s.server.(now := x / 1000));
    PlayThen(sig, peek, s, [], Pass(x - s.clock));
    assert Play(sig, peek, s, e1) == s1;
    var e2, s2 := e1 + [SignedIn(a)], s1.(store := Storage(Some(a), None, None));
    PlayThen(sig, peek, s, e1, SignedIn(a));
    assert Play(sig, peek, s, e2) == s2;
    PlayThen(sig, peek, s, e2, Validate);
    es := e2 + [Validate];
  }

  /** The request is checked at `z`, and answered. */
  lemma {:induction false} CheckedIn(sig: Signature, peek: Peek, s: System, a: string, x: nat, z: nat)
    returns (es: seq<Event>)
    requires s.store == Storage(Some(a), None, None) && s.requests == [Request(a, x, Sent)] && s.clock <= z
    requires Acceptable(sig, a, z / 1000) && a !in s.server.revoked && IsActive(s.server.users, sig(a).value.sub)
    ensures FromTokens(iset{}, es)
    ensures var s' := Play(sig, peek, s, es); s'.clock == z && s'.store == Storage(Some(a), Some(x), Some(true))
  {
    var u, e1 := sig(a).value.sub, [] + [Pass(z - s.clock)];
    var s1 := s.(clock := z, server := s.server.(now := z / 1000));
    PlayThen(sig, peek, s, [], Pass(z - s.clock));
    PlayThen(sig, peek, s, e1, ServerChecks(0));
    var s2, e2 := s1.(requests := [Request(a, x, Checked(z, u))]), e1 + [ServerChecks(0)];
    assert Next(sig, peek, s1, ServerChecks(0)) == s2;
    PlayThen(sig, peek, s, e2, ServerReplies(0));
    var s3, e3 := s1.(requests := [Request(a, x, Replied(z, u, true))]), e2 + [ServerReplies(0)];
    assert Next(sig, peek, s2, ServerReplies(0)) == s3;
    PlayThen(sig, peek, s, e3, Receive(0));
    es := e3 + [Receive(0)];
  }

  /** The dashboard signs in with `b` at `y`. */
  lemma {:induction false} Turned(sig: Signature, peek: Peek, s: System, b: string, y: nat) returns (es: seq<Event>)
    requires s.clock <= y
    ensures FromTokens(iset{b}, es)
    ensures var s' := Play(sig, peek, s, es); s'.clock == y && s'.store == s.store.(token := Some(b))
  {
    var e1 := [] + [Pass(y - s.clock)];
    var s1 := s.(clock := y, server := s.server.(now := y / 1000));
    PlayThen(sig, peek, s, [], Pass(y - s.clock));
    assert Play(sig, peek, s, e1) == s1;
    PlayThen(sig, peek, s, e1, SignedIn(b));
    es := e1 + [SignedIn(b)];
  }

  /** From a signed-out dashboard: the first token is asked about and found good, then the second takes its place. */
  lemma {:induction false} SwapServes(sig: Signature, peek: Peek, menu: iset<string>, w: Swap, s: System)
    returns (es: seq<Event>)
    requires CanSwap(sig, peek, menu, w) && s.clock == w.logout
    requires s.store == EMPTY && s.requests == [] && w.first !in s.server.revoked
    requires IsActive(s.server.users, sig(w.first).value.sub)
    ensures FromTokens(menu, es)
    ensures var s' := Play(sig, peek, s, es);
            s'.clock == w.served && s'.store == Storage(Some(w.second), Some(w.asked), Some(true))
  {
    var ask := Asked(sig, peek, s, w.first, w.asked);
    var check := CheckedIn(sig, peek, Play(sig, peek, s, ask), w.first, w.asked, w.checked);
    PlayConcat(sig, peek, s, ask, check);
    var turn := Turned(sig, peek, Play(sig, peek, s, ask + check), w.second, w.served);
    PlayConcat(sig, peek, s, ask + check, turn);
    es := ask + check + turn;
  }

  /** The run: log `second` out, wait, sign in with `first` and have it checked, wait, sign in with `second`. */
  lemma {:induction false} SwapOverstays(
    sig: Signature, peek: Peek, users: map<UserId, bool>, menu: iset<string>, w: Swap)
    returns (before: seq<Event>, after: seq<Event>)
    requires CanSwap(sig, peek, menu, w)
    ensures FromTokens(menu, before) && FromTokens(menu, after)
    ensures Overstays(sig, peek, users, before, w.second, after)
    ensures Play(sig, peek, Boot(users), before).clock == w.logout
    ensures Play(sig, peek, Boot(users), before + [AtServer(Logout(w.second))] + after).clock == w.served
  {
    var user := sig(w.first).value.sub.value;
    var now;
    before, now := Prepared(sig, peek, users, user, w.logout);
    var s0, out := Boot(users), Play(sig, peek, Boot(users), before);
    var s1 := Next(sig, peek, out, AtServer(Logout(w.second)));
    PlayThen(sig, peek, s0, before, AtServer(Logout(w.second)));
    assert w.first !in s1.server.revoked;
    after := SwapServes(sig, peek, menu, w, s1);
    PlayConcat(sig, peek, s0, before + [AtServer(Logout(w.second))], after);
  }

  // ---- The bound, exactly ----

  /** However the dashboard's tokens come and go, no token is answered from the cache ten seconds after its logout
      at the server, if and only if no two of the tokens can be swapped. */
  lemma {:induction false} RevocationBoundExactly(
    sig: Signature, peek: Peek, users: map<UserId, bool>, menu: iset<string>)
    ensures (forall before, t, after :: FromTokens(menu, before) && FromTokens(menu, after) ==>
               !Overstays(sig, peek, users, before, t, after))
       <==> !exists w :: CanSwap(sig, peek, menu, w)
  {
    if w :| CanSwap(sig, peek, menu, w) {
      var before, after := SwapOverstays(sig, peek, users, menu, w);
    } else {
      forall before, t, after | FromTokens(menu, before) && FromTokens(menu, after)
        ensures !Overstays(sig, peek, users, before, t, after)
      {
        if Overstays(sig, peek, users, before, t, after) {
          var w := OverstayShowsSwap(sig, peek, users, menu, before, t, after);
        }
      }
    }
  }

  /** So with one token, ten seconds after its logout at the server no cached `true` is left. */
  lemma {:induction false} RevocationReachesDashboard(sig: Signature, peek: Peek, users: map<UserId, bool>,
                                                      before: seq<Event>, t: string, after: seq<Event>)
    requires FromTokens(iset{t}, before) && FromTokens(iset{t}, after)
    requires t != "" && !WakesLater(sig, t, Play(sig, peek, Boot(users), before).server.now)
    requires Play(sig, peek, Boot(users), before + [AtServer(Logout(t))] + after).clock >=
             Play(sig, peek, Boot(users), before).clock + COOLDOWN
    ensures var s := Play(sig, peek, Boot(users), before + [AtServer(Logout(t))] + after);
            !Open(peek, s.store, s.clock).Cached?
  {
    RevocationBoundExactly(sig, peek, users, iset{t});
    PlayCameFrom(sig, peek, iset{t}, users, before + [AtServer(Logout(t))] + after);
    assert !Overstays(sig, peek, users, before, t, after);
  }

  /** With two tokens it can be: if the first is good ten seconds or more after the second is logged out, and neither
      is past its expiry, the second is answered from the cache at that time. */
  lemma {:induction false} LoggedOutAnsweredTrue(
    sig: Signature, peek: Peek, users: map<UserId, bool>, a: string, b: string, at: nat)
    returns (before: seq<Event>, after: seq<Event>)
    requires a != b && b != "" && !WakesLater(sig, b, 0) && at >= COOLDOWN
    requires Acceptable(sig, a, at / 1000) && !Expired(peek, a, at) && !Expired(peek, b, at)
    ensures FromTokens(iset{a, b}, before) && FromTokens(iset{a, b}, after)
    ensures Overstays(sig, peek, users, before, b, after)
    ensures Play(sig, peek, Boot(users), before).clock == 0
    ensures Play(sig, peek, Boot(users), before + [AtServer(Logout(b))] + after).clock == at
  {
    before, after := SwapOverstays(sig, peek, users, iset{a, b}, Swap(a, b, 0, at, at, at));
  }
}
